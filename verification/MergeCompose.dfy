/** Selective patching composes: patching with `a` and then with `b` is patching with both. */
module MergeCompose {
  import opened Merge
  import opened MergePlaces
  import opened MergeFrame

  lemma Regroup(u: seq<Piece>, v: seq<Piece>, w: seq<Piece>, x: seq<Piece>, y: seq<Piece>)
    ensures u + (v + w + x) + y == (u + v) + w + (x + y)
  {
  }

  lemma RegroupThree(u: seq<Piece>, v: seq<Piece>, w: seq<Piece>)
    ensures u + (v + w + []) == u + v + w
  {
  }

  /** `after` is what is present once the targets `a` have been merged into `present`. */
  ghost predicate MergedInto(order: seq<string>, present: set<string>, a: set<string>, after: set<string>) {
    forall n :: n in order ==> (n in after <==> n in present || n in a)
  }

  lemma ExpandMade(gen: seq<Item>, after: set<string>, b: set<string>, k: nat)
    requires Distinct(Order(gen)) && k < |gen| && Order(gen)[k] in after
    ensures var order := Order(gen);
            ExpandAll(gen, after, b, Made(gen, [order[k]])) ==
            Made(gen, Filter(order[RunStart(order, after, k)..k], b)) + Made(gen, [order[k]]) +
            Made(gen, if NextIndex(order, after, k + 1) < |order| then [] else Filter(order[k + 1..], b))
  {
    var order := Order(gen);
    var p := Fn(order[k], TextOf(gen, order[k]));
    assert Made(gen, [order[k]]) == [p];
    BeforeIs(order, after, b, k);
    AfterIs(order, after, b, k);
    assert Self(gen, b, p) == [p];
    assert ExpandAll(gen, after, b, [p]) == Expand(gen, after, b, p) + [];
  }

  /** What `b` makes of the targets of `a` in a window, together with what it adds at its end. */
  ghost function RunMade(gen: seq<Item>, after: set<string>, a: set<string>, b: set<string>, lo: nat, hi: nat): seq<Piece>
    requires lo <= hi <= |gen|
  {
    ExpandAll(gen, after, b, Made(gen, Filter(Order(gen)[lo..hi], a))) +
    Made(gen, Filter(Order(gen)[RunStart(Order(gen), after, hi)..hi], b))
  }

  lemma RunAtAnchor(gen: seq<Item>, after: set<string>, a: set<string>, b: set<string>, lo: nat, k: nat)
    requires lo <= k < |gen| && Order(gen)[k] in after
    ensures RunMade(gen, after, a, b, lo, k + 1) == ExpandAll(gen, after, b, Made(gen, Filter(Order(gen)[lo..k + 1], a)))
  {
    assert RunStart(Order(gen), after, k + 1) == k + 1;
    assert Order(gen)[k + 1..k + 1] == [];
  }

  lemma RunTakes(gen: seq<Item>, after: set<string>, a: set<string>, b: set<string>, lo: nat, k: nat)
    requires Distinct(Order(gen)) && lo <= k < |gen|
    requires Order(gen)[k] in a && Order(gen)[k] in after
    requires NextIndex(Order(gen), after, k + 1) < |gen|
    ensures RunMade(gen, after, a, b, lo, k + 1) == RunMade(gen, after, a, b, lo, k) + Made(gen, [Order(gen)[k]])
  {
    var order := Order(gen);
    var x := Made(gen, [order[k]]);
    var prior := Made(gen, Filter(order[lo..k], a));
    var added := Made(gen, Filter(order[RunStart(order, after, k)..k], b));
    calc {
      RunMade(gen, after, a, b, lo, k + 1);
      { RunAtAnchor(gen, after, a, b, lo, k); }
      ExpandAll(gen, after, b, Made(gen, Filter(order[lo..k + 1], a)));
      { FilterLast(order, a, lo, k); MadeConcat(gen, Filter(order[lo..k], a), [order[k]]); }
      ExpandAll(gen, after, b, prior + x);
      { ExpandConcat(gen, after, b, prior, x); ExpandMade(gen, after, b, k); }
      ExpandAll(gen, after, b, prior) + (added + x + []);
      { RegroupThree(ExpandAll(gen, after, b, prior), added, x); }
      ExpandAll(gen, after, b, prior) + added + x;
      RunMade(gen, after, a, b, lo, k) + x;
    }
  }

  lemma RunSkips(gen: seq<Item>, after: set<string>, a: set<string>, b: set<string>, lo: nat, k: nat)
    requires lo <= k < |gen|
    requires Order(gen)[k] !in a && Order(gen)[k] !in after
    ensures RunMade(gen, after, a, b, lo, k + 1) ==
            RunMade(gen, after, a, b, lo, k) + Made(gen, if Order(gen)[k] in b then [Order(gen)[k]] else [])
  {
    var order := Order(gen);
    var rs := RunStart(order, after, k);
    var expanded := ExpandAll(gen, after, b, Made(gen, Filter(order[lo..k], a)));
    assert RunStart(order, after, k + 1) == rs;
    assert Filter(order[lo..k + 1], a) == Filter(order[lo..k], a) by {
      FilterLast(order, a, lo, k);
    }
    MadeLast(gen, b, rs, k);
    Reassociate(expanded, Made(gen, Filter(order[rs..k], b)), Made(gen, if order[k] in b then [order[k]] else []));
  }

  lemma RunEmpty(gen: seq<Item>, after: set<string>, a: set<string>, b: set<string>, lo: nat)
    requires lo <= |gen| && (lo > 0 ==> Order(gen)[lo - 1] in after)
    ensures RunMade(gen, after, a, b, lo, lo) == Made(gen, Filter(Order(gen)[lo..lo], a + b))
  {
    assert Order(gen)[lo..lo] == [];
    assert RunStart(Order(gen), after, lo) == lo;
  }

  /** A run of inserted targets, expanded for `b`, together with what `b` adds at its end. */
  lemma {:induction false} RunComposes(gen: seq<Item>, present: set<string>, a: set<string>, after: set<string>, b: set<string>, lo: nat, hi: nat)
    requires Distinct(Order(gen)) && MergedInto(Order(gen), present, a, after)
    requires lo <= hi <= |gen| && (lo > 0 ==> Order(gen)[lo - 1] in after)
    requires forall i :: lo <= i < hi ==> Order(gen)[i] !in present
    requires NextIndex(Order(gen), after, hi) < |gen|
    ensures RunMade(gen, after, a, b, lo, hi) == Made(gen, Filter(Order(gen)[lo..hi], a + b))
  {
    var order := Order(gen);
    if lo == hi {
      RunEmpty(gen, after, a, b, lo);
    } else {
      var k := hi - 1;
      assert NextIndex(order, after, k) < |order|;
      RunComposes(gen, present, a, after, b, lo, k);
      RunGrows(gen, after, a, b, lo, k, hi);
    }
  }

  lemma RunGrows(gen: seq<Item>, after: set<string>, a: set<string>, b: set<string>, lo: nat, k: nat, hi: nat)
    requires Distinct(Order(gen)) && lo <= k && hi == k + 1 <= |gen|
    requires Order(gen)[k] in after <==> Order(gen)[k] in a
    requires NextIndex(Order(gen), after, hi) < |gen|
    requires RunMade(gen, after, a, b, lo, k) == Made(gen, Filter(Order(gen)[lo..k], a + b))
    ensures RunMade(gen, after, a, b, lo, hi) == Made(gen, Filter(Order(gen)[lo..hi], a + b))
  {
    RunStep(gen, after, a, b, lo, k);
    MadeLast(gen, a + b, lo, k);
  }

  lemma RunStep(gen: seq<Item>, after: set<string>, a: set<string>, b: set<string>, lo: nat, k: nat)
    requires Distinct(Order(gen)) && lo <= k < |gen|
    requires Order(gen)[k] in after <==> Order(gen)[k] in a
    requires NextIndex(Order(gen), after, k + 1) < |gen|
    ensures RunMade(gen, after, a, b, lo, k + 1) ==
            RunMade(gen, after, a, b, lo, k) + Made(gen, if Order(gen)[k] in a + b then [Order(gen)[k]] else [])
  {
    if Order(gen)[k] in a {
      RunTakes(gen, after, a, b, lo, k);
    } else {
      RunSkips(gen, after, a, b, lo, k);
    }
  }

  lemma MadeLast(gen: seq<Item>, keep: set<string>, lo: nat, k: nat)
    requires lo <= k < |gen|
    ensures Made(gen, Filter(Order(gen)[lo..k + 1], keep)) ==
            Made(gen, Filter(Order(gen)[lo..k], keep)) + Made(gen, if Order(gen)[k] in keep then [Order(gen)[k]] else [])
  {
    var order := Order(gen);
    FilterLast(order, keep, lo, k);
    MadeConcat(gen, Filter(order[lo..k], keep), if order[k] in keep then [order[k]] else []);
  }

  lemma FilterAround(order: seq<string>, keep: set<string>, lo: nat, k: nat)
    requires lo <= k < |order|
    ensures Filter(order[lo..], keep) ==
            Filter(order[lo..k], keep) + (if order[k] in keep then [order[k]] else []) + Filter(order[k + 1..], keep)
  {
    FilterLast(order, keep, lo, k);
    assert order[lo..] == order[lo..k + 1] + order[k + 1..];
    FilterConcat(order[lo..k + 1], order[k + 1..], keep);
  }

  lemma MadeAround(gen: seq<Item>, keep: set<string>, lo: nat, k: nat)
    requires lo <= k < |gen| && Order(gen)[k] in keep
    ensures var order := Order(gen);
            Made(gen, Filter(order[lo..], keep)) ==
            Made(gen, Filter(order[lo..k], keep)) + Made(gen, [order[k]]) + Made(gen, Filter(order[k + 1..], keep))
  {
    var order := Order(gen);
    FilterAround(order, keep, lo, k);
    MadeConcat(gen, Filter(order[lo..k], keep), [order[k]]);
    MadeConcat(gen, Filter(order[lo..k], keep) + [order[k]], Filter(order[k + 1..], keep));
  }

  /** Behind the last committed anchor: the last target of `a` there becomes the new last anchor. */
  lemma TailComposes(gen: seq<Item>, present: set<string>, a: set<string>, after: set<string>, b: set<string>, lo: nat)
    requires Distinct(Order(gen)) && MergedInto(Order(gen), present, a, after)
    requires lo <= |gen| && (lo > 0 ==> Order(gen)[lo - 1] in after)
    requires forall i :: lo <= i < |gen| ==> Order(gen)[i] !in present
    requires NextIndex(Order(gen), after, lo) < |gen|
    ensures ExpandAll(gen, after, b, Made(gen, Filter(Order(gen)[lo..], a))) == Made(gen, Filter(Order(gen)[lo..], a + b))
  {
    var order := Order(gen);
    var e := RunStart(order, after, |order|);
    assert e > lo;
    assert order[e - 1] in a;
    assert forall n :: n in order[e..] ==> n !in a;
    LastTargetComposes(gen, present, a, after, b, lo, e - 1);
  }

  lemma LastTargetComposes(gen: seq<Item>, present: set<string>, a: set<string>, after: set<string>, b: set<string>, lo: nat, k: nat)
    requires Distinct(Order(gen)) && MergedInto(Order(gen), present, a, after)
    requires lo <= k < |gen| && (lo > 0 ==> Order(gen)[lo - 1] in after)
    requires forall i :: lo <= i < |gen| ==> Order(gen)[i] !in present
    requires Order(gen)[k] in a && Order(gen)[k] in after && NextIndex(Order(gen), after, k + 1) == |gen|
    requires forall n :: n in Order(gen)[k + 1..] ==> n !in a
    ensures ExpandAll(gen, after, b, Made(gen, Filter(Order(gen)[lo..], a))) == Made(gen, Filter(Order(gen)[lo..], a + b))
  {
    var order := Order(gen);
    var prior := Made(gen, Filter(order[lo..k], a));
    var x := Made(gen, [order[k]]);
    var run := Made(gen, Filter(order[RunStart(order, after, k)..k], b));
    var rest := Made(gen, Filter(order[k + 1..], b));
    FilterNone(order[k + 1..], a);
    MadeAround(gen, a, lo, k);
    assert prior + x + [] == prior + x;
    ExpandConcat(gen, after, b, prior, x);
    ExpandMade(gen, after, b, k);
    Regroup(ExpandAll(gen, after, b, prior), run, x, rest, []);
    assert RunMade(gen, after, a, b, lo, k) == ExpandAll(gen, after, b, prior) + run;
    RunComposes(gen, present, a, after, b, lo, k);
    FilterAgrees(order[k + 1..], b, a + b);
    MadeAround(gen, a + b, lo, k);
    assert rest + [] == rest;
  }

  /** The inserts behind an anchor, for `a` and then `b`. */
  lemma AfterComposes(gen: seq<Item>, present: set<string>, a: set<string>, after: set<string>, b: set<string>, j: nat)
    requires Distinct(Order(gen)) && MergedInto(Order(gen), present, a, after)
    requires j < |gen| && Order(gen)[j] in present
    ensures var order := Order(gen);
            Made(gen, Inserts(order, after, b, After(order[j]))) +
            ExpandAll(gen, after, b, Made(gen, Inserts(order, present, a, After(order[j])))) ==
            Made(gen, Inserts(order, present, a + b, After(order[j])))
  {
    var order := Order(gen);
    AfterIs(order, present, a, j);
    AfterIs(order, after, b, j);
    AfterIs(order, present, a + b, j);
    if NextIndex(order, present, j + 1) < |order| {
      assert order[NextIndex(order, present, j + 1)] in after;
      assert NextIndex(order, after, j + 1) < |order|;
    } else {
      LastAnchorComposes(gen, present, a, after, b, j);
    }
  }

  lemma LastAnchorComposes(gen: seq<Item>, present: set<string>, a: set<string>, after: set<string>, b: set<string>, j: nat)
    requires Distinct(Order(gen)) && MergedInto(Order(gen), present, a, after)
    requires j < |gen| && Order(gen)[j] in present && NextIndex(Order(gen), present, j + 1) == |gen|
    ensures var rest := Order(gen)[j + 1..];
            Made(gen, if NextIndex(Order(gen), after, j + 1) < |gen| then [] else Filter(rest, b)) +
            ExpandAll(gen, after, b, Made(gen, Filter(rest, a))) == Made(gen, Filter(rest, a + b))
  {
    var rest := Order(gen)[j + 1..];
    if NextIndex(Order(gen), after, j + 1) < |gen| {
      TailComposes(gen, present, a, after, b, j + 1);
    } else {
      assert forall n :: n in rest ==> n !in a;
      FilterNone(rest, a);
      FilterAgrees(rest, b, a + b);
    }
  }

  /** The inserts in front of an anchor, for `a` and then `b`. */
  lemma BeforeComposes(gen: seq<Item>, present: set<string>, a: set<string>, after: set<string>, b: set<string>, j: nat)
    requires Distinct(Order(gen)) && MergedInto(Order(gen), present, a, after)
    requires j < |gen| && Order(gen)[j] in present
    ensures var order := Order(gen);
            ExpandAll(gen, after, b, Made(gen, Inserts(order, present, a, Before(order[j])))) +
            Made(gen, Inserts(order, after, b, Before(order[j]))) ==
            Made(gen, Inserts(order, present, a + b, Before(order[j])))
  {
    var order := Order(gen);
    BeforeIs(order, present, a, j);
    BeforeIs(order, after, b, j);
    BeforeIs(order, present, a + b, j);
    assert NextIndex(order, after, j) == j;
    RunComposes(gen, present, a, after, b, RunStart(order, present, j), j);
  }

  /** One committed piece, patched for `a` and then for `b`. */
  lemma PieceComposes(gen: seq<Item>, present: set<string>, a: set<string>, after: set<string>, b: set<string>, p: Piece)
    requires Distinct(Order(gen)) && MergedInto(Order(gen), present, a, after)
    requires p.Fn? ==> p.name in present
    ensures ExpandAll(gen, after, b, Expand(gen, present, a, p)) == Expand(gen, present, a + b, p)
  {
    var order := Order(gen);
    if p.Fn? && p.name in order {
      var j :| 0 <= j < |order| && order[j] == p.name;
      AnchorComposes(gen, present, a, after, b, p, j);
    } else if p.Fn? {
      NoAnchor(order, present, a, p.name);
      NoAnchor(order, after, b, p.name);
      NoAnchor(order, present, a + b, p.name);
      assert Expand(gen, present, a, p) == Self(gen, a, p);
      assert Expand(gen, present, a + b, p) == Self(gen, a + b, p);
      assert ExpandAll(gen, after, b, [p]) == Expand(gen, after, b, p) + [];
    } else {
      assert ExpandAll(gen, after, b, [p]) == [p] + [];
    }
  }

  lemma ExpandAround(gen: seq<Item>, after: set<string>, b: set<string>, front: seq<Piece>, q: Piece, back: seq<Piece>)
    ensures ExpandAll(gen, after, b, front + [q] + back) ==
            ExpandAll(gen, after, b, front) + Expand(gen, after, b, q) + ExpandAll(gen, after, b, back)
  {
    calc {
      ExpandAll(gen, after, b, front + [q] + back);
      { ExpandConcat(gen, after, b, front + [q], back); }
      ExpandAll(gen, after, b, front + [q]) + ExpandAll(gen, after, b, back);
      { ExpandConcat(gen, after, b, front, [q]); ExpandOne(gen, after, b, q); }
      ExpandAll(gen, after, b, front) + Expand(gen, after, b, q) + ExpandAll(gen, after, b, back);
    }
  }

  lemma ExpandOne(gen: seq<Item>, after: set<string>, b: set<string>, q: Piece)
    ensures ExpandAll(gen, after, b, [q]) == Expand(gen, after, b, q)
  {
    assert ExpandAll(gen, after, b, [q]) == Expand(gen, after, b, q) + [];
  }

  lemma AnchorComposes(gen: seq<Item>, present: set<string>, a: set<string>, after: set<string>, b: set<string>, p: Piece, j: nat)
    requires Distinct(Order(gen)) && MergedInto(Order(gen), present, a, after)
    requires p.Fn? && p.name in present && j < |gen| && Order(gen)[j] == p.name
    ensures ExpandAll(gen, after, b, Expand(gen, present, a, p)) == Expand(gen, present, a + b, p)
  {
    var order := Order(gen);
    var before := Made(gen, Inserts(order, present, a, Before(p.name)));
    var behind := Made(gen, Inserts(order, present, a, After(p.name)));
    var before' := Made(gen, Inserts(order, after, b, Before(p.name)));
    var behind' := Made(gen, Inserts(order, after, b, After(p.name)));
    var q := Self(gen, a, p)[0];
    assert Self(gen, a, p) == [q];
    assert Self(gen, b, q) == Self(gen, a + b, p);
    calc {
      ExpandAll(gen, after, b, before + [q] + behind);
      { ExpandAround(gen, after, b, before, q, behind); }
      ExpandAll(gen, after, b, before) + (before' + Self(gen, b, q) + behind') + ExpandAll(gen, after, b, behind);
      { Regroup(ExpandAll(gen, after, b, before), before', Self(gen, b, q), behind', ExpandAll(gen, after, b, behind)); }
      (ExpandAll(gen, after, b, before) + before') + Self(gen, b, q) + (behind' + ExpandAll(gen, after, b, behind));
      { BeforeComposes(gen, present, a, after, b, j); AfterComposes(gen, present, a, after, b, j); }
      Expand(gen, present, a + b, p);
    }
  }

  lemma {:induction false} PiecesCompose(gen: seq<Item>, present: set<string>, a: set<string>, after: set<string>, b: set<string>, ps: seq<Piece>)
    requires Distinct(Order(gen)) && MergedInto(Order(gen), present, a, after)
    requires NameSet(ps) <= present
    ensures ExpandAll(gen, after, b, ExpandAll(gen, present, a, ps)) == ExpandAll(gen, present, a + b, ps)
  {
    if ps != [] {
      var p, rest := ps[0], ps[1..];
      assert p.Fn? ==> p.name in Names(ps);
      assert forall n :: n in Names(rest) ==> n in Names(ps);
      PieceComposes(gen, present, a, after, b, p);
      PiecesCompose(gen, present, a, after, b, rest);
      ExpandConcat(gen, after, b, Expand(gen, present, a, p), ExpandAll(gen, present, a, rest));
    }
  }

  /** With a generated name present there is no tail: the merge is the expansion of the pieces. */
  lemma AnchoredMerge(gen: seq<Item>, targets: set<string>, ps: seq<Piece>)
    requires NameSet(ps) * ToSet(Order(gen)) != {}
    ensures Patched(gen, targets, ps) == ExpandAll(gen, NameSet(ps), targets, ps)
  {
    var order, present := Order(gen), NameSet(ps);
    var n :| n in present && n in ToSet(order);
    var k :| 0 <= k < |order| && order[k] == n;
    assert NextIndex(order, present, 0) <= k;
    TailIs(order, present, targets);
    assert Made(gen, Inserts(order, present, targets, Tail)) == [];
    var front, back := PatchedParts(gen, targets, ps);
    assert front + [] == front;
  }

  lemma MergedNames(gen: seq<Item>, a: set<string>, ps: seq<Piece>)
    ensures MergedInto(Order(gen), NameSet(ps), a, NameSet(Patched(gen, a, ps)))
  {
    PatchedNames(gen, a, ps);
  }

  /** Composition, when committed and generated section share a name. */
  lemma SharedComposes(gen: seq<Item>, a: set<string>, b: set<string>, ps: seq<Piece>)
    requires Distinct(Order(gen))
    requires NameSet(ps) * ToSet(Order(gen)) != {}
    ensures Patched(gen, b, Patched(gen, a, ps)) == Patched(gen, a + b, ps)
  {
    var present, once := NameSet(ps), Patched(gen, a, ps);
    MergedNames(gen, a, ps);
    var n :| n in present * ToSet(Order(gen));
    assert n in NameSet(once) * ToSet(Order(gen));
    AnchoredMerge(gen, a, ps);
    AnchoredMerge(gen, b, once);
    AnchoredMerge(gen, a + b, ps);
    PiecesCompose(gen, present, a, NameSet(once), b, ps);
  }
}
