/** With distinct names on both sides, no name occurs twice in the merged section. */
module MergeOnce {
  import opened Merge
  import opened MergeFrame

  function Count(names: seq<string>, x: string): nat {
    if names == [] then 0 else (if names[0] == x then 1 else 0) + Count(names[1..], x)
  }

  lemma {:induction false} CountConcat(a: seq<string>, b: seq<string>, x: string)
    ensures Count(a + b, x) == Count(a, x) + Count(b, x)
  {
    if a == [] {
      assert a + b == b;
    } else {
      assert (a + b)[1..] == a[1..] + b;
      CountConcat(a[1..], b, x);
    }
  }

  lemma {:induction false} CountZero(s: seq<string>, x: string)
    ensures Count(s, x) == 0 <==> x !in s
  {
    if s != [] {
      CountZero(s[1..], x);
    }
  }

  lemma {:induction false} CountsDistinct(s: seq<string>)
    requires forall x :: Count(s, x) <= 1
    ensures Distinct(s)
  {
    if s != [] {
      forall x
        ensures Count(s[1..], x) <= 1
      {
        assert Count(s, x) <= 1;
      }
      CountsDistinct(s[1..]);
      assert Count(s, s[0]) <= 1;
      CountZero(s[1..], s[0]);
      forall i, j | 0 <= i < j < |s|
        ensures s[i] != s[j]
      {
        assert s[j] == s[1..][j - 1];
      }
    }
  }

  /** A missing name is added at its own place, once. */
  lemma {:induction false} InsertsCount(order: seq<string>, present: set<string>, targets: set<string>, place: Place, n: nat, k: nat)
    requires Distinct(order) && n <= |order| && k < |order|
    ensures Count(InsertsUpTo(order, present, targets, place, n), order[k]) <=
            (if k < n && PlaceOf(order, present, k) == place then 1 else 0)
  {
    if n > 0 {
      InsertsCount(order, present, targets, place, n - 1, k);
      var prior := InsertsUpTo(order, present, targets, place, n - 1);
      CountConcat(prior, [order[n - 1]], order[k]);
      assert prior + [] == prior;
      assert Count([order[n - 1]], order[k]) == if n - 1 == k then 1 else 0;
    }
  }

  /** The committed function whose piece brings out `x`: an old name its own, a new name its anchor. */
  ghost predicate Owns(gen: seq<Item>, present: set<string>, owner: string, x: string) {
    if x in present then owner == x
    else exists k :: 0 <= k < |gen| && Order(gen)[k] == x && PlaceOf(Order(gen), present, k) in {Before(owner), After(owner)}
  }

  lemma InsertsAreOwned(gen: seq<Item>, present: set<string>, targets: set<string>, owner: string, x: string)
    requires Distinct(Order(gen)) && x !in present
    ensures var order := Order(gen);
            Count(Inserts(order, present, targets, Before(owner)), x) + Count(Inserts(order, present, targets, After(owner)), x)
            <= if Owns(gen, present, owner, x) then 1 else 0
  {
    var order := Order(gen);
    if x in order {
      var k :| 0 <= k < |order| && order[k] == x;
      InsertsCount(order, present, targets, Before(owner), |order|, k);
      InsertsCount(order, present, targets, After(owner), |order|, k);
    } else {
      InsertsAreMissing(order, present, targets, Before(owner), |order|);
      InsertsAreMissing(order, present, targets, After(owner), |order|);
      CountZero(Inserts(order, present, targets, Before(owner)), x);
      CountZero(Inserts(order, present, targets, After(owner)), x);
    }
  }

  lemma ExpandNames(gen: seq<Item>, present: set<string>, targets: set<string>, p: Piece)
    requires p.Fn?
    ensures Names(Expand(gen, present, targets, p)) ==
            Inserts(Order(gen), present, targets, Before(p.name)) +
            (if p.name in targets && p.name !in Order(gen) then [] else [p.name]) +
            Inserts(Order(gen), present, targets, After(p.name))
  {
    var before := Inserts(Order(gen), present, targets, Before(p.name));
    var after := Inserts(Order(gen), present, targets, After(p.name));
    var self := Self(gen, targets, p);
    MadeNames(gen, before);
    MadeNames(gen, after);
    NamesConcat(Made(gen, before), self);
    NamesConcat(Made(gen, before) + self, Made(gen, after));
    assert Names(self) == if p.name in targets && p.name !in Order(gen) then [] else [p.name];
  }

  lemma ExpandCount(gen: seq<Item>, present: set<string>, targets: set<string>, p: Piece, x: string)
    requires Distinct(Order(gen)) && p.Fn? && p.name in present
    ensures Count(Names(Expand(gen, present, targets, p)), x) <= if Owns(gen, present, p.name, x) then 1 else 0
  {
    var before := Inserts(Order(gen), present, targets, Before(p.name));
    var after := Inserts(Order(gen), present, targets, After(p.name));
    var self := if p.name in targets && p.name !in Order(gen) then [] else [p.name];
    ExpandNames(gen, present, targets, p);
    CountConcat(before, self, x);
    CountConcat(before + self, after, x);
    assert Count(self, x) <= if p.name == x then 1 else 0;
    if x in present {
      InsertsAreMissing(Order(gen), present, targets, Before(p.name), |gen|);
      InsertsAreMissing(Order(gen), present, targets, After(p.name), |gen|);
      CountZero(before, x);
      CountZero(after, x);
    } else {
      InsertsAreOwned(gen, present, targets, p.name, x);
    }
  }

  lemma {:induction false} ExpandAllCount(gen: seq<Item>, present: set<string>, targets: set<string>, ps: seq<Piece>, x: string)
    requires Distinct(Order(gen)) && Distinct(Names(ps)) && NameSet(ps) <= present
    ensures Count(Names(ExpandAll(gen, present, targets, ps)), x) <= 1
    ensures (forall n :: n in Names(ps) ==> !Owns(gen, present, n, x)) ==>
              Count(Names(ExpandAll(gen, present, targets, ps)), x) == 0
  {
    if ps != [] {
      var p, rest := ps[0], ps[1..];
      NamesFirst(ps);
      ExpandAllCount(gen, present, targets, rest, x);
      NamesConcat(Expand(gen, present, targets, p), ExpandAll(gen, present, targets, rest));
      CountConcat(Names(Expand(gen, present, targets, p)), Names(ExpandAll(gen, present, targets, rest)), x);
      if p.Gap? {
        assert Names(Expand(gen, present, targets, p)) == [];
      } else {
        ExpandCount(gen, present, targets, p, x);
        if Owns(gen, present, p.name, x) {
          forall n | n in Names(rest)
            ensures !Owns(gen, present, n, x)
          {
            OwnerIsUnique(gen, present, p.name, n, x);
          }
        }
      }
    }
  }

  lemma NamesFirst(ps: seq<Piece>)
    requires ps != [] && Distinct(Names(ps))
    ensures Names(ps) == (if ps[0].Fn? then [ps[0].name] else []) + Names(ps[1..])
    ensures Distinct(Names(ps[1..])) && NameSet(ps[1..]) <= NameSet(ps)
    ensures ps[0].Fn? ==> ps[0].name in NameSet(ps) && ps[0].name !in Names(ps[1..])
  {
    if ps[0].Fn? {
      assert Names(ps)[1..] == Names(ps[1..]);
      assert Names(ps)[0] == ps[0].name;
    } else {
      assert Names(ps) == Names(ps[1..]);
    }
  }

  lemma OwnerIsUnique(gen: seq<Item>, present: set<string>, owner: string, other: string, x: string)
    requires Distinct(Order(gen)) && Owns(gen, present, owner, x) && owner != other
    ensures !Owns(gen, present, other, x)
  {
  }

  /** Exactly once: the merged names are distinct. */
  lemma PatchedOnce(gen: seq<Item>, targets: set<string>, ps: seq<Piece>)
    requires Distinct(Order(gen)) && Distinct(Names(ps))
    ensures Distinct(Names(Patched(gen, targets, ps)))
  {
    var present := NameSet(ps);
    var front, back := PatchedParts(gen, targets, ps);
    var inserts := Inserts(Order(gen), present, targets, Tail);
    MadeNames(gen, inserts);
    NamesConcat(front, back);
    NamesConcat(front, Made(gen, inserts));
    NamesConcat(front + Made(gen, inserts), back);
    forall x
      ensures Count(Names(Patched(gen, targets, ps)), x) <= 1
    {
      ExpandAllCount(gen, present, targets, ps, x);
      TailCount(gen, present, targets, x);
      CountConcat(Names(front), Names(back), x);
      CountConcat(Names(front), inserts, x);
      CountConcat(Names(front) + inserts, Names(back), x);
    }
    CountsDistinct(Names(Patched(gen, targets, ps)));
  }

  lemma TailCount(gen: seq<Item>, present: set<string>, targets: set<string>, x: string)
    requires Distinct(Order(gen))
    ensures var n := Count(Inserts(Order(gen), present, targets, Tail), x);
            n == 0 || (n == 1 && forall owner :: !Owns(gen, present, owner, x))
  {
    var order := Order(gen);
    InsertsAreMissing(order, present, targets, Tail, |order|);
    CountZero(Inserts(order, present, targets, Tail), x);
    if x in Inserts(order, present, targets, Tail) {
      var k :| 0 <= k < |order| && order[k] == x && Missing(order, present, targets, k) && PlaceOf(order, present, k) == Tail;
      InsertsCount(order, present, targets, Tail, |order|, k);
    }
  }
}
