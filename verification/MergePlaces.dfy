/** With distinct generated names, the insertion dictionaries are windows of the generated order. */
module MergePlaces {
  import opened Merge

  // ----- Where one missing name is placed ------------------------------------------------

  lemma SameName(order: seq<string>, i: nat, j: nat)
    requires Distinct(order) && i < |order| && j < |order|
    ensures order[i] == order[j] <==> i == j
  {
  }

  /** The next present name after `k` is `j` exactly when `k` lies in the run in front of `j`. */
  lemma RunEnds(order: seq<string>, present: set<string>, lo: nat, j: nat, k: nat, next: nat)
    requires lo <= j < |order| && order[j] in present && k < |order| && order[k] !in present
    requires lo > 0 ==> order[lo - 1] in present
    requires forall i :: lo <= i < j ==> order[i] !in present
    requires k < next <= |order| && (next < |order| ==> order[next] in present)
    requires forall i :: k + 1 <= i < next ==> order[i] !in present
    ensures next == j <==> lo <= k < j
  {
  }

  lemma NextIs(order: seq<string>, present: set<string>, j: nat, k: nat)
    requires j < |order| && order[j] in present && k < |order| && order[k] !in present
    ensures NextIndex(order, present, k + 1) == j <==> RunStart(order, present, j) <= k < j
  {
    RunEnds(order, present, RunStart(order, present, j), j, k, NextIndex(order, present, k + 1));
  }

  lemma PlacedBefore(order: seq<string>, present: set<string>, j: nat, k: nat)
    requires Distinct(order) && j < |order| && order[j] in present
    requires k < |order| && order[k] !in present
    ensures PlaceOf(order, present, k) == Before(order[j]) <==> RunStart(order, present, j) <= k < j
  {
    var next := NextIndex(order, present, k + 1);
    NextIs(order, present, j, k);
    if next < |order| {
      SameName(order, next, j);
    }
  }

  lemma PlacedAfter(order: seq<string>, present: set<string>, j: nat, k: nat)
    requires Distinct(order) && j < |order| && order[j] in present
    requires k < |order| && order[k] !in present
    ensures PlaceOf(order, present, k) == After(order[j]) <==>
            j < k && NextIndex(order, present, j + 1) == |order|
  {
    var next := NextIndex(order, present, k + 1);
    var run := RunStart(order, present, k);
    var behind := NextIndex(order, present, j + 1);
    if next == |order| && run > 0 {
      if j < k {
        assert run >= j + 1;
        assert behind == |order| ==> run == j + 1;
      }
    }
  }

  lemma PlacedTail(order: seq<string>, present: set<string>, k: nat)
    requires k < |order| && order[k] !in present
    ensures PlaceOf(order, present, k) == Tail <==> NextIndex(order, present, 0) == |order|
  {
    var first := NextIndex(order, present, 0);
    var run := RunStart(order, present, k);
    if first < |order| {
      assert first < k ==> run > 0;
      assert first > k ==> NextIndex(order, present, k + 1) < |order|;
    }
  }

  // ----- The dictionaries as windows -----------------------------------------------------

  function Clamp(n: nat, lo: nat, hi: nat): nat {
    if n < lo then lo else if n < hi then n else hi
  }

  lemma InsertsLast(order: seq<string>, present: set<string>, targets: set<string>, place: Place, k: nat)
    requires k < |order|
    ensures InsertsUpTo(order, present, targets, place, k + 1) ==
            if Missing(order, present, targets, k) && PlaceOf(order, present, k) == place
            then InsertsUpTo(order, present, targets, place, k) + [order[k]]
            else InsertsUpTo(order, present, targets, place, k)
  {
    var prior := InsertsUpTo(order, present, targets, place, k);
    assert prior + [] == prior;
  }

  /** What stands before an anchor: the targets between the previous anchor and this one. */
  lemma {:induction false} BeforeUpTo(order: seq<string>, present: set<string>, targets: set<string>, lo: nat, j: nat, n: nat)
    requires Distinct(order) && j < |order| && order[j] in present && n <= |order|
    requires lo == RunStart(order, present, j)
    ensures InsertsUpTo(order, present, targets, Before(order[j]), n) == Filter(order[lo..Clamp(n, lo, j)], targets)
  {
    if n == 0 {
      assert order[lo..lo] == [];
    } else {
      var k := n - 1;
      BeforeUpTo(order, present, targets, lo, j, k);
      InsertsLast(order, present, targets, Before(order[j]), k);
      if order[k] !in present {
        PlacedBefore(order, present, j, k);
      }
      if lo <= k < j {
        FilterLast(order, targets, lo, k);
      }
    }
  }

  lemma FilterLast(order: seq<string>, targets: set<string>, lo: nat, k: nat)
    requires lo <= k < |order|
    ensures Filter(order[lo..lo], targets) == []
    ensures Filter(order[lo..k + 1], targets) ==
            Filter(order[lo..k], targets) + (if order[k] in targets then [order[k]] else [])
  {
    assert order[lo..lo] == [];
    assert order[lo..k + 1] == order[lo..k] + [order[k]];
    FilterConcat(order[lo..k], [order[k]], targets);
  }

  lemma BeforeIs(order: seq<string>, present: set<string>, targets: set<string>, j: nat)
    requires Distinct(order) && j < |order| && order[j] in present
    ensures Inserts(order, present, targets, Before(order[j])) ==
            Filter(order[RunStart(order, present, j)..j], targets)
  {
    BeforeUpTo(order, present, targets, RunStart(order, present, j), j, |order|);
  }

  lemma AfterStep(order: seq<string>, present: set<string>, targets: set<string>, j: nat, k: nat)
    requires j < |order| && k < |order|
    ensures j < k ==> Filter(order[j + 1..k + 1], targets) ==
                      Filter(order[j + 1..k], targets) + (if order[k] in targets then [order[k]] else [])
    ensures j < k && NextIndex(order, present, j + 1) == |order| ==> order[k] !in present
    ensures j == k ==> Filter(order[j + 1..k + 1], targets) == []
  {
    if j < k {
      FilterLast(order, targets, j + 1, k);
    } else if j == k {
      assert order[j + 1..k + 1] == [];
    }
  }

  /** What stands after an anchor: everything behind the last anchor, nothing behind the others. */
  lemma {:induction false} AfterUpTo(order: seq<string>, present: set<string>, targets: set<string>, j: nat, n: nat)
    requires Distinct(order) && j < |order| && order[j] in present && n <= |order|
    ensures InsertsUpTo(order, present, targets, After(order[j]), n) ==
            if n <= j || NextIndex(order, present, j + 1) < |order| then [] else Filter(order[j + 1..n], targets)
  {
    if n > 0 {
      var k := n - 1;
      AfterUpTo(order, present, targets, j, k);
      InsertsLast(order, present, targets, After(order[j]), k);
      if order[k] !in present {
        PlacedAfter(order, present, j, k);
      }
      AfterStep(order, present, targets, j, k);
    }
  }

  lemma AfterIs(order: seq<string>, present: set<string>, targets: set<string>, j: nat)
    requires Distinct(order) && j < |order| && order[j] in present
    ensures Inserts(order, present, targets, After(order[j])) ==
            if NextIndex(order, present, j + 1) < |order| then [] else Filter(order[j + 1..], targets)
  {
    AfterUpTo(order, present, targets, j, |order|);
    assert order[j + 1..|order|] == order[j + 1..];
  }

  /** The tail is used only when no generated name is present. */
  lemma {:induction false} TailUpTo(order: seq<string>, present: set<string>, targets: set<string>, n: nat)
    requires n <= |order|
    ensures InsertsUpTo(order, present, targets, Tail, n) ==
            if NextIndex(order, present, 0) < |order| then [] else Filter(order[0..n], targets)
  {
    if n > 0 {
      var k := n - 1;
      TailUpTo(order, present, targets, k);
      InsertsLast(order, present, targets, Tail, k);
      if order[k] !in present {
        PlacedTail(order, present, k);
      }
      FilterLast(order, targets, 0, k);
    }
  }

  lemma TailIs(order: seq<string>, present: set<string>, targets: set<string>)
    ensures Inserts(order, present, targets, Tail) ==
            if NextIndex(order, present, 0) < |order| then [] else Filter(order, targets)
  {
    TailUpTo(order, present, targets, |order|);
    assert order[0..|order|] == order;
  }

  /** A name that is not both generated and present anchors nothing. */
  lemma NoAnchor(order: seq<string>, present: set<string>, targets: set<string>, name: string)
    requires name !in order || name !in present
    ensures Inserts(order, present, targets, Before(name)) == []
    ensures Inserts(order, present, targets, After(name)) == []
  {
    NoAnchorUpTo(order, present, targets, name, |order|);
  }

  lemma {:induction false} NoAnchorUpTo(order: seq<string>, present: set<string>, targets: set<string>, name: string, n: nat)
    requires (name !in order || name !in present) && n <= |order|
    ensures InsertsUpTo(order, present, targets, Before(name), n) == []
    ensures InsertsUpTo(order, present, targets, After(name), n) == []
  {
    if n > 0 {
      NoAnchorUpTo(order, present, targets, name, n - 1);
    }
  }
}
