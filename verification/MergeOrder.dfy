/** The merge respects both orders: committed names stay in committed order always, generated
    names come out in generated order exactly when the two sections agree on their common names. */
module MergeOrder {
  import opened Merge
  import opened MergePlaces
  import opened MergeFrame
  import opened MergeOnce

  /** The merged names: those of the expanded pieces, then the tail inserts. */
  lemma PatchedNameSeq(gen: seq<Item>, targets: set<string>, ps: seq<Piece>)
    ensures Names(Patched(gen, targets, ps)) ==
            Names(ExpandAll(gen, NameSet(ps), targets, ps)) + Inserts(Order(gen), NameSet(ps), targets, Tail)
  {
    var front, back := PatchedParts(gen, targets, ps);
    var inserts := Inserts(Order(gen), NameSet(ps), targets, Tail);
    var made := Made(gen, inserts);
    GapsHaveNoNames(back);
    calc {
      Names(Patched(gen, targets, ps));
      { NamesConcat(front + made, back); }
      Names(front + made) + [];
      { NamesConcat(front, made); MadeNames(gen, inserts); }
      Names(front) + inserts;
      { NamesConcat(front, back); assert Names(front) + [] == Names(front); }
      Names(front + back) + inserts;
    }
  }

  lemma {:induction false} GapsHaveNoNames(ps: seq<Piece>)
    requires forall p :: p in ps ==> p.Gap?
    ensures Names(ps) == []
  {
    if ps != [] {
      assert ps[0] in ps;
      GapsHaveNoNames(ps[1..]);
    }
  }

  // ----- Committed order -----------------------------------------------------------------

  /** The committed names that survive: all but the targets that were not generated. */
  function Live(gen: seq<Item>, targets: set<string>, ps: seq<Piece>): set<string> {
    NameSet(ps) - (targets - ToSet(Order(gen)))
  }

  lemma InsertsAreNew(gen: seq<Item>, present: set<string>, targets: set<string>, place: Place)
    ensures Filter(Inserts(Order(gen), present, targets, place), present) == []
  {
    InsertsAreMissing(Order(gen), present, targets, place, |gen|);
    FilterNone(Inserts(Order(gen), present, targets, place), present);
  }

  lemma {:induction false} ExpandKeepsOldOrder(gen: seq<Item>, targets: set<string>, ps: seq<Piece>, part: seq<Piece>)
    requires forall p :: p in part ==> p in ps
    ensures Filter(Names(ExpandAll(gen, NameSet(ps), targets, part)), NameSet(ps)) ==
            Filter(Names(part), Live(gen, targets, ps))
  {
    if part != [] {
      var p, rest, present := part[0], part[1..], NameSet(ps);
      assert p in ps;
      NamesMembers(ps);
      ExpandKeepsOldOrder(gen, targets, ps, rest);
      NamesConcat(Expand(gen, present, targets, p), ExpandAll(gen, present, targets, rest));
      FilterConcat(Names(Expand(gen, present, targets, p)), Names(ExpandAll(gen, present, targets, rest)), present);
      if p.Fn? {
        FilterConcat([p.name], Names(rest), Live(gen, targets, ps));
        OwnNameOnly(gen, present, targets, p);
      } else {
        assert Names(part) == Names(rest);
        assert Names(Expand(gen, present, targets, p)) == [];
      }
    }
  }

  lemma OwnNameOnly(gen: seq<Item>, present: set<string>, targets: set<string>, p: Piece)
    requires p.Fn? && p.name in present
    ensures Filter(Names(Expand(gen, present, targets, p)), present) ==
            Filter([p.name], present - (targets - ToSet(Order(gen))))
  {
    var before := Inserts(Order(gen), present, targets, Before(p.name));
    var after := Inserts(Order(gen), present, targets, After(p.name));
    var self := if p.name in targets && p.name !in Order(gen) then [] else [p.name];
    ExpandNames(gen, present, targets, p);
    InsertsAreNew(gen, present, targets, Before(p.name));
    InsertsAreNew(gen, present, targets, After(p.name));
    FilterConcat(before, self, present);
    FilterConcat(before + self, after, present);
    assert Filter(self, present) == self;
  }

  /** The committed names that survive stand in committed order, whatever else is inserted. */
  lemma CommittedOrderKept(gen: seq<Item>, targets: set<string>, ps: seq<Piece>)
    ensures Filter(Names(Patched(gen, targets, ps)), NameSet(ps)) == Filter(Names(ps), Live(gen, targets, ps))
  {
    PatchedNameSeq(gen, targets, ps);
    ExpandKeepsOldOrder(gen, targets, ps, ps);
    InsertsAreNew(gen, NameSet(ps), targets, Tail);
    FilterConcat(Names(ExpandAll(gen, NameSet(ps), targets, ps)), Inserts(Order(gen), NameSet(ps), targets, Tail), NameSet(ps));
  }

  // ----- Generated order -----------------------------------------------------------------

  /** The generated names that one shared name brings out. */
  function Emit(order: seq<string>, present: set<string>, targets: set<string>, name: string): seq<string> {
    Inserts(order, present, targets, Before(name)) + [name] + Inserts(order, present, targets, After(name))
  }

  function EmitAll(order: seq<string>, present: set<string>, targets: set<string>, names: seq<string>): seq<string> {
    if names == [] then []
    else Emit(order, present, targets, names[0]) + EmitAll(order, present, targets, names[1..])
  }

  lemma EmitFirst(order: seq<string>, present: set<string>, targets: set<string>, name: string, rest: seq<string>)
    ensures EmitAll(order, present, targets, [name] + rest) ==
            Emit(order, present, targets, name) + EmitAll(order, present, targets, rest)
  {
    assert ([name] + rest)[1..] == rest;
  }

  lemma {:induction false} EmitConcat(order: seq<string>, present: set<string>, targets: set<string>, a: seq<string>, b: seq<string>)
    ensures EmitAll(order, present, targets, a + b) ==
            EmitAll(order, present, targets, a) + EmitAll(order, present, targets, b)
  {
    if a == [] {
      assert a + b == b;
    } else {
      assert (a + b)[1..] == a[1..] + b;
      EmitConcat(order, present, targets, a[1..], b);
      Reassociate(Emit(order, present, targets, a[0]), EmitAll(order, present, targets, a[1..]), EmitAll(order, present, targets, b));
    }
  }

  lemma GeneratedOf(gen: seq<Item>, present: set<string>, targets: set<string>, p: Piece)
    requires p.Fn?
    ensures Filter(Names(Expand(gen, present, targets, p)), ToSet(Order(gen))) ==
            if p.name in Order(gen) then Emit(Order(gen), present, targets, p.name) else []
  {
    var order := Order(gen);
    ExpandNames(gen, present, targets, p);
    InsertsAreMissing(order, present, targets, Before(p.name), |gen|);
    InsertsAreMissing(order, present, targets, After(p.name), |gen|);
    if p.name in order {
      FilterAll(Names(Expand(gen, present, targets, p)), ToSet(order));
    } else {
      NoAnchor(order, present, targets, p.name);
      FilterNone(Names(Expand(gen, present, targets, p)), ToSet(order));
    }
  }

  lemma {:induction false} GeneratedOfAll(gen: seq<Item>, present: set<string>, targets: set<string>, ps: seq<Piece>)
    ensures Filter(Names(ExpandAll(gen, present, targets, ps)), ToSet(Order(gen))) ==
            EmitAll(Order(gen), present, targets, Filter(Names(ps), ToSet(Order(gen))))
  {
    if ps != [] {
      var p, rest, g := ps[0], ps[1..], ToSet(Order(gen));
      GeneratedOfAll(gen, present, targets, rest);
      NamesConcat(Expand(gen, present, targets, p), ExpandAll(gen, present, targets, rest));
      FilterConcat(Names(Expand(gen, present, targets, p)), Names(ExpandAll(gen, present, targets, rest)), g);
      if p.Fn? {
        GeneratedOf(gen, present, targets, p);
        EmitFirst(Order(gen), present, targets, p.name, Filter(Names(rest), g));
        assert Names(ps)[0] == p.name && Names(ps)[1..] == Names(rest);
        if p.name !in g {
          assert Filter(Names(ps), g) == Filter(Names(rest), g);
        }
      } else {
        assert Names(ps) == Names(rest);
        assert Names(Expand(gen, present, targets, p)) == [];
      }
    }
  }

  /** The generated names that the shared names before index `a` bring out. */
  function UpTo(order: seq<string>, present: set<string>, targets: set<string>, a: nat): seq<string>
    requires a <= |order|
  {
    Filter(order[..a], targets + present) +
    (if a > 0 && NextIndex(order, present, a) == |order| then Filter(order[a..], targets) else [])
  }

  /** In generated order, the shared names bring out every target and every shared name once. */
  lemma {:induction false} EmitInOrder(order: seq<string>, present: set<string>, targets: set<string>, m: nat)
    requires Distinct(order) && m <= |order|
    ensures EmitAll(order, present, targets, Filter(order[..m], present)) ==
            UpTo(order, present, targets, RunStart(order, present, m))
  {
    if m == 0 {
      assert order[..0] == [];
    } else {
      var k := m - 1;
      EmitInOrder(order, present, targets, k);
      FilterLast(order, present, 0, k);
      assert order[0..k] == order[..k] && order[0..m] == order[..m];
      if order[k] in present {
        EmitStep(order, present, targets, k);
      } else {
        assert Filter(order[..m], present) == Filter(order[..k], present);
      }
    }
  }

  lemma UpToAnchor(order: seq<string>, present: set<string>, targets: set<string>, a: nat, k: nat)
    requires k < |order| && order[k] in present && a == RunStart(order, present, k)
    ensures UpTo(order, present, targets, a) == Filter(order[..a], targets + present)
  {
    assert NextIndex(order, present, a) == k;
  }

  lemma EmitStep(order: seq<string>, present: set<string>, targets: set<string>, k: nat)
    requires Distinct(order) && k < |order| && order[k] in present
    requires EmitAll(order, present, targets, Filter(order[..k], present)) ==
             UpTo(order, present, targets, RunStart(order, present, k))
    ensures EmitAll(order, present, targets, Filter(order[..k], present) + [order[k]]) ==
            UpTo(order, present, targets, k + 1)
  {
    var a, x := RunStart(order, present, k), order[k];
    var prior := Filter(order[..a], targets + present);
    var before := Filter(order[a..k], targets);
    var after := if NextIndex(order, present, k + 1) == |order| then Filter(order[k + 1..], targets) else [];
    UpToAnchor(order, present, targets, a, k);
    calc {
      EmitAll(order, present, targets, Filter(order[..k], present) + [x]);
      { EmitConcat(order, present, targets, Filter(order[..k], present), [x]); }
      prior + EmitAll(order, present, targets, [x]);
      { EmitOne(order, present, targets, k); }
      prior + (before + [x] + after);
      { Regrouped(prior, before, x, after); }
      prior + before + [x] + after;
      { FilterSplit(order, present, targets, a, k); }
      UpTo(order, present, targets, k + 1);
    }
  }

  lemma Regrouped(u: seq<string>, v: seq<string>, x: string, w: seq<string>)
    ensures u + (v + [x] + w) == u + v + [x] + w
  {
  }

  lemma EmitOne(order: seq<string>, present: set<string>, targets: set<string>, k: nat)
    requires Distinct(order) && k < |order| && order[k] in present
    ensures EmitAll(order, present, targets, [order[k]]) ==
            Filter(order[RunStart(order, present, k)..k], targets) + [order[k]] +
            (if NextIndex(order, present, k + 1) == |order| then Filter(order[k + 1..], targets) else [])
  {
    BeforeIs(order, present, targets, k);
    AfterIs(order, present, targets, k);
    EmitFirst(order, present, targets, order[k], []);
    assert [order[k]] + [] == [order[k]];
  }

  lemma FilterSplit(order: seq<string>, present: set<string>, targets: set<string>, a: nat, k: nat)
    requires a <= k < |order| && order[k] in present
    requires forall i :: a <= i < k ==> order[i] !in present
    ensures Filter(order[..k + 1], targets + present) ==
            Filter(order[..a], targets + present) + Filter(order[a..k], targets) + [order[k]]
  {
    var keep := targets + present;
    assert order[..k + 1] == order[..a] + order[a..k] + [order[k]];
    FilterConcat(order[..a] + order[a..k], [order[k]], keep);
    FilterConcat(order[..a], order[a..k], keep);
    FilterAgrees(order[a..k], targets, keep);
    assert Filter([order[k]], keep) == [order[k]];
  }

  /** Both sections list their common names in the same order. */
  ghost predicate SharedOrderAgrees(gen: seq<Item>, ps: seq<Piece>) {
    Filter(Names(ps), ToSet(Order(gen))) == Filter(Order(gen), NameSet(ps))
  }

  /** The generated names of the result are all targets and shared names, in generated order. */
  ghost predicate GeneratedOrderKept(gen: seq<Item>, targets: set<string>, ps: seq<Piece>) {
    Filter(Names(Patched(gen, targets, ps)), ToSet(Order(gen))) == Filter(Order(gen), targets + NameSet(ps))
  }

  lemma GeneratedNames(gen: seq<Item>, targets: set<string>, ps: seq<Piece>)
    ensures Filter(Names(Patched(gen, targets, ps)), ToSet(Order(gen))) ==
            EmitAll(Order(gen), NameSet(ps), targets, Filter(Names(ps), ToSet(Order(gen)))) +
            Inserts(Order(gen), NameSet(ps), targets, Tail)
  {
    var order, present := Order(gen), NameSet(ps);
    var inserts := Inserts(order, present, targets, Tail);
    PatchedNameSeq(gen, targets, ps);
    GeneratedOfAll(gen, present, targets, ps);
    FilterConcat(Names(ExpandAll(gen, present, targets, ps)), inserts, ToSet(order));
    InsertsAreMissing(order, present, targets, Tail, |order|);
    FilterAll(inserts, ToSet(order));
  }

  lemma AgreementSuffices(gen: seq<Item>, targets: set<string>, ps: seq<Piece>)
    requires Distinct(Order(gen)) && SharedOrderAgrees(gen, ps)
    ensures GeneratedOrderKept(gen, targets, ps)
  {
    var order, present := Order(gen), NameSet(ps);
    GeneratedNames(gen, targets, ps);
    EmitInOrder(order, present, targets, |order|);
    assert order[..|order|] == order;
    UpToAll(order, present, targets);
  }

  lemma UpToAll(order: seq<string>, present: set<string>, targets: set<string>)
    ensures UpTo(order, present, targets, RunStart(order, present, |order|)) + Inserts(order, present, targets, Tail) ==
            Filter(order, targets + present)
  {
    var a := RunStart(order, present, |order|);
    TailIs(order, present, targets);
    assert order == order[..a] + order[a..];
    FilterConcat(order[..a], order[a..], targets + present);
    FilterAgrees(order[a..], targets, targets + present);
    assert NextIndex(order, present, a) == |order|;
    if a == 0 {
      assert order[0..] == order && order[..0] == [];
    } else {
      assert NextIndex(order, present, 0) < |order|;
    }
  }

  lemma AgreementNeeded(gen: seq<Item>, targets: set<string>, ps: seq<Piece>)
    requires GeneratedOrderKept(gen, targets, ps)
    ensures SharedOrderAgrees(gen, ps)
  {
    var order, g, present := Order(gen), ToSet(Order(gen)), NameSet(ps);
    var merged, live := Names(Patched(gen, targets, ps)), Live(gen, targets, ps);
    calc {
      Filter(order, present);
      { assert (targets + present) * present == present; FilterTwice(order, targets + present, present); }
      Filter(Filter(order, targets + present), present);
      Filter(Filter(merged, g), present);
      { FilterTwice(merged, g, present); FilterTwice(merged, present, g); assert g * present == present * g; }
      Filter(Filter(merged, present), g);
      { CommittedOrderKept(gen, targets, ps); }
      Filter(Filter(Names(ps), live), g);
      { FilterTwice(Names(ps), live, g); FilterAgrees(Names(ps), live * g, g); }
      Filter(Names(ps), g);
    }
  }

  /** Generated names come out in generated order exactly when the common names agree in order. */
  lemma GeneratedOrderIff(gen: seq<Item>, targets: set<string>, ps: seq<Piece>)
    requires Distinct(Order(gen))
    ensures GeneratedOrderKept(gen, targets, ps) <==> SharedOrderAgrees(gen, ps)
  {
    if SharedOrderAgrees(gen, ps) {
      AgreementSuffices(gen, targets, ps);
    } else if GeneratedOrderKept(gen, targets, ps) {
      AgreementNeeded(gen, targets, ps);
    }
  }
}
