/** Composition when the committed and the generated section share no name: everything generated
    goes to the tail, and the tail moves when the first patch deletes the last function. */
module MergeUnshared {
  import opened Merge
  import opened MergePlaces
  import opened MergeFrame
  import opened MergeOrder
  import opened MergeCompose

  ghost predicate Unshared(gen: seq<Item>, ps: seq<Piece>) {
    forall n :: n in NameSet(ps) ==> n !in Order(gen)
  }

  lemma {:induction false} UnsharedExpand(gen: seq<Item>, present: set<string>, targets: set<string>, ps: seq<Piece>)
    requires forall p :: p in ps && p.Fn? ==> p.name !in Order(gen)
    ensures ExpandAll(gen, present, targets, ps) == Untouched(ps, targets)
  {
    if ps != [] {
      var p, rest := ps[0], ps[1..];
      assert p in ps;
      UnsharedExpand(gen, present, targets, rest);
      if p.Fn? {
        NoAnchor(Order(gen), present, targets, p.name);
        assert Expand(gen, present, targets, p) == Self(gen, targets, p);
      }
    }
  }

  /** Without a shared name: the survivors, then the generated targets, then the last gap. */
  lemma UnsharedMerge(gen: seq<Item>, targets: set<string>, ps: seq<Piece>)
    requires Unshared(gen, ps)
    ensures var c := FnsEnd(ps);
            Patched(gen, targets, ps) ==
            Untouched(ps[..c], targets) + Made(gen, Filter(Order(gen), targets)) + ps[c..]
  {
    var c := FnsEnd(ps);
    NamesMembers(ps);
    UnsharedExpand(gen, NameSet(ps), targets, ps[..c]);
    UnsharedTail(gen, targets, ps);
  }

  lemma UnsharedTail(gen: seq<Item>, targets: set<string>, ps: seq<Piece>)
    requires Unshared(gen, ps)
    ensures Inserts(Order(gen), NameSet(ps), targets, Tail) == Filter(Order(gen), targets)
  {
    var order, present := Order(gen), NameSet(ps);
    TailIs(order, present, targets);
  }

  lemma {:induction false} UntouchedTwice(ps: seq<Piece>, a: set<string>, b: set<string>)
    ensures Untouched(Untouched(ps, a), b) == Untouched(ps, a + b)
  {
    if ps != [] {
      UntouchedTwice(ps[1..], a, b);
      var first := if ps[0].Gap? || ps[0].name !in a then [ps[0]] else [];
      UntouchedConcat(first, Untouched(ps[1..], a), b);
      assert Untouched([ps[0]], b) == if ps[0].Gap? || ps[0].name !in b then [ps[0]] else [];
    }
  }

  lemma {:induction false} UntouchedGaps(ps: seq<Piece>, targets: set<string>)
    requires forall p :: p in ps ==> p.Gap?
    ensures Untouched(ps, targets) == ps
  {
    if ps != [] {
      assert ps[0] in ps;
      UntouchedGaps(ps[1..], targets);
    }
  }

  // ----- The first patch inserts something -----------------------------------------------

  lemma InsertedAnchor(order: seq<string>, present: set<string>, a: set<string>, after: set<string>)
    requires MergedInto(order, present, a, after) && a * ToSet(order) != {}
    ensures after * ToSet(order) != {} && NextIndex(order, after, 0) < |order|
  {
    var n :| n in a * ToSet(order);
    assert n in after * ToSet(order);
    var k :| 0 <= k < |order| && order[k] == n;
    assert NextIndex(order, after, 0) <= k;
  }

  lemma InsertingComposes(gen: seq<Item>, a: set<string>, b: set<string>, ps: seq<Piece>)
    requires Distinct(Order(gen)) && Unshared(gen, ps) && a * ToSet(Order(gen)) != {}
    ensures Patched(gen, b, Patched(gen, a, ps)) == Patched(gen, a + b, ps)
  {
    var order, c, once := Order(gen), FnsEnd(ps), Patched(gen, a, ps);
    var present, after := NameSet(ps), NameSet(once);
    var front, made, back := ps[..c], Made(gen, Filter(order, a)), ps[c..];
    UnsharedMerge(gen, a, ps);
    UnsharedMerge(gen, a + b, ps);
    MergedNames(gen, a, ps);
    InsertedAnchor(order, present, a, after);
    AnchoredMerge(gen, b, once);
    ExpandConcat(gen, after, b, Untouched(front, a) + made, back);
    ExpandConcat(gen, after, b, Untouched(front, a), made);
    ExpandGaps(gen, after, b, back);
    SurvivorsExpand(gen, after, a, b, ps, front);
    assert order[0..] == order;
    TailComposes(gen, present, a, after, b, 0);
  }

  lemma SurvivorsExpand(gen: seq<Item>, after: set<string>, a: set<string>, b: set<string>, ps: seq<Piece>, part: seq<Piece>)
    requires Unshared(gen, ps) && part <= ps
    ensures ExpandAll(gen, after, b, Untouched(part, a)) == Untouched(part, a + b)
  {
    NamesMembers(ps);
    UntouchedMembers(part, a);
    UnsharedExpand(gen, after, b, Untouched(part, a));
    UntouchedTwice(part, a, b);
  }

  lemma {:induction false} UntouchedMembers(ps: seq<Piece>, targets: set<string>)
    ensures forall p :: p in Untouched(ps, targets) <==> p in ps && (p.Gap? || p.name !in targets)
  {
    if ps != [] {
      UntouchedMembers(ps[1..], targets);
    }
  }

  // ----- The first patch inserts nothing -------------------------------------------------

  lemma DeletingMerge(gen: seq<Item>, a: set<string>, ps: seq<Piece>)
    requires Unshared(gen, ps) && a * ToSet(Order(gen)) == {}
    ensures Patched(gen, a, ps) == Untouched(ps, a) && Unshared(gen, Patched(gen, a, ps))
  {
    var c := FnsEnd(ps);
    UnsharedMerge(gen, a, ps);
    assert forall n :: n in Order(gen) && n in a ==> n in a * ToSet(Order(gen));
    FilterNone(Order(gen), a);
    UntouchedSplit(ps, a);
    Trailing(Untouched(ps[..c], a));
    StillUnshared(gen, a, ps);
  }

  lemma Trailing(s: seq<Piece>)
    ensures s + [] == s
  {
  }

  lemma StillUnshared(gen: seq<Item>, a: set<string>, ps: seq<Piece>)
    requires Unshared(gen, ps) && a * ToSet(Order(gen)) == {}
    ensures Unshared(gen, Patched(gen, a, ps))
  {
    assert forall n :: n in Order(gen) && n in a ==> n in a * ToSet(Order(gen));
    PatchedNames(gen, a, ps);
  }

  lemma SameInserts(gen: seq<Item>, a: set<string>, b: set<string>)
    requires a * ToSet(Order(gen)) == {}
    ensures Filter(Order(gen), a + b) == Filter(Order(gen), b)
  {
    assert forall n :: n in Order(gen) && n in a ==> n in a * ToSet(Order(gen));
    FilterAgrees(Order(gen), a + b, b);
  }

  /** The result of the second patch, with the gaps behind its last survivor. */
  lemma SecondPatch(gen: seq<Item>, a: set<string>, b: set<string>, ps: seq<Piece>)
    requires Unshared(gen, ps) && a * ToSet(Order(gen)) == {}
    ensures var once := Untouched(ps, a);
            var c := FnsEnd(once);
            Patched(gen, b, Patched(gen, a, ps)) ==
            Untouched(once[..c], b) + Made(gen, Filter(Order(gen), b)) + once[c..]
    ensures var c := FnsEnd(ps);
            Patched(gen, a + b, ps) == Untouched(ps[..c], a + b) + Made(gen, Filter(Order(gen), b)) + ps[c..]
  {
    DeletingMerge(gen, a, ps);
    SameInserts(gen, a, b);
    UnsharedMerge(gen, b, Untouched(ps, a));
    UnsharedMerge(gen, a + b, ps);
  }

  /** The last function of the section, if there is one, is deleted by `a`. */
  predicate DropsLast(a: set<string>, ps: seq<Piece>) {
    FnsEnd(ps) > 0 && ps[FnsEnd(ps) - 1].name in a
  }

  lemma UntouchedSnoc(ps: seq<Piece>, p: Piece, targets: set<string>)
    ensures Untouched(ps + [p], targets) ==
            Untouched(ps, targets) + (if p.Gap? || p.name !in targets then [p] else [])
  {
    UntouchedConcat(ps, [p], targets);
    assert Untouched([p], targets) == if p.Gap? || p.name !in targets then [p] else [];
  }

  lemma UntouchedSplit(ps: seq<Piece>, targets: set<string>)
    ensures Untouched(ps, targets) == Untouched(ps[..FnsEnd(ps)], targets) + ps[FnsEnd(ps)..]
  {
    var c := FnsEnd(ps);
    assert ps == ps[..c] + ps[c..];
    UntouchedConcat(ps[..c], ps[c..], targets);
    UntouchedGaps(ps[c..], targets);
  }

  lemma KeptLastEnd(a: set<string>, ps: seq<Piece>)
    requires !DropsLast(a, ps)
    ensures FnsEnd(Untouched(ps, a)) == |Untouched(ps[..FnsEnd(ps)], a)|
  {
    var c := FnsEnd(ps);
    var kept := Untouched(ps[..c], a);
    UntouchedSplit(ps, a);
    if c > 0 {
      assert ps[..c] == ps[..c - 1] + [ps[c - 1]];
      UntouchedSnoc(ps[..c - 1], ps[c - 1], a);
    }
    GapsBehind(kept, ps[c..]);
    FnsEndIs(kept + ps[c..], |kept|);
  }

  lemma GapsBehind(front: seq<Piece>, back: seq<Piece>)
    requires forall i :: 0 <= i < |back| ==> back[i].Gap?
    ensures forall i :: |front| <= i < |front + back| ==> (front + back)[i].Gap?
  {
  }

  lemma DeletingComposes(gen: seq<Item>, a: set<string>, b: set<string>, ps: seq<Piece>)
    requires Unshared(gen, ps) && a * ToSet(Order(gen)) == {} && !DropsLast(a, ps)
    ensures Patched(gen, b, Patched(gen, a, ps)) == Patched(gen, a + b, ps)
  {
    var c, once := FnsEnd(ps), Untouched(ps, a);
    SecondPatch(gen, a, b, ps);
    KeptLastEnd(a, ps);
    UntouchedSplit(ps, a);
    var kept := Untouched(ps[..c], a);
    assert once[..|kept|] == kept && once[|kept|..] == ps[c..];
    UntouchedTwice(ps[..c], a, b);
  }

  lemma NothingToInsertComposes(gen: seq<Item>, a: set<string>, b: set<string>, ps: seq<Piece>)
    requires Unshared(gen, ps) && a * ToSet(Order(gen)) == {} && b * ToSet(Order(gen)) == {}
    ensures Patched(gen, b, Patched(gen, a, ps)) == Patched(gen, a + b, ps)
  {
    DeletingMerge(gen, a, ps);
    DeletingMerge(gen, b, Untouched(ps, a));
    assert forall n :: n in (a + b) * ToSet(Order(gen)) ==> n in a * ToSet(Order(gen)) || n in b * ToSet(Order(gen));
    DeletingMerge(gen, a + b, ps);
    UntouchedTwice(ps, a, b);
  }

  // ----- Where composition fails ---------------------------------------------------------

  lemma {:induction false} FnsEndIs(ps: seq<Piece>, c: nat)
    requires c <= |ps| && (c > 0 ==> ps[c - 1].Fn?) && forall i :: c <= i < |ps| ==> ps[i].Gap?
    ensures FnsEnd(ps) == c
  {
  }

  lemma TailMoves(gen: seq<Item>, a: set<string>, b: set<string>, ps: seq<Piece>)
    requires Unshared(gen, ps) && a * ToSet(Order(gen)) == {} && b * ToSet(Order(gen)) != {}
    requires DropsLast(a, ps) && FnsEnd(ps) > 1 && ps[FnsEnd(ps) - 2].Gap?
    ensures Patched(gen, b, Patched(gen, a, ps)) != Patched(gen, a + b, ps)
  {
    var c, once := FnsEnd(ps), Untouched(ps, a);
    var made := Made(gen, Filter(Order(gen), b));
    assert made != [] && made[|made| - 1].Fn? by {
      var n :| n in b * ToSet(Order(gen));
      FilterMembers(Order(gen), b);
      MadeNonEmpty(gen, Filter(Order(gen), b));
    }
    DroppedLastEnd(a, ps);
    TrailersDiffer(Untouched(once[..FnsEnd(once)], b), made, once[FnsEnd(once)..], Untouched(ps[..c], a + b), ps[c..]);
    SecondPatch(gen, a, b, ps);
  }

  lemma TrailersDiffer(front: seq<Piece>, made: seq<Piece>, back: seq<Piece>, front': seq<Piece>, back': seq<Piece>)
    requires made != [] && made[|made| - 1].Fn? && |back| != |back'|
    requires forall i :: 0 <= i < |back| ==> back[i].Gap?
    requires forall i :: 0 <= i < |back'| ==> back'[i].Gap?
    ensures front + made + back != front' + made + back'
  {
    EndsAfterMade(front, made, back);
    EndsAfterMade(front', made, back');
  }

  lemma MadeNonEmpty(gen: seq<Item>, names: seq<string>)
    requires names != []
    ensures var made := Made(gen, names); made != [] && made[|made| - 1].Fn?
  {
    MadePieces(gen, names);
    var made := Made(gen, names);
    assert made[|made| - 1] in made;
  }

  lemma EndsAfterMade(front: seq<Piece>, made: seq<Piece>, back: seq<Piece>)
    requires made != [] && made[|made| - 1].Fn? && forall i :: 0 <= i < |back| ==> back[i].Gap?
    ensures var all := front + made + back; |all| - FnsEnd(all) == |back|
  {
    var all, c := front + made + back, |front| + |made|;
    assert all[c - 1] == made[|made| - 1];
    assert forall i :: c <= i < |all| ==> all[i] == back[i - c];
    FnsEndIs(all, c);
  }

  lemma DroppedLastEnd(a: set<string>, ps: seq<Piece>)
    requires DropsLast(a, ps) && FnsEnd(ps) > 1 && ps[FnsEnd(ps) - 2].Gap?
    ensures var once := Untouched(ps, a); |once| - FnsEnd(once) > |ps| - FnsEnd(ps)
  {
    var c := FnsEnd(ps);
    var kept, back := Untouched(ps[..c - 2], a), [ps[c - 2]] + ps[c..];
    assert Untouched(ps, a) == kept + back by {
      UntouchedSplit(ps, a);
      DroppedFront(a, ps[..c]);
      assert ps[..c][..c - 2] == ps[..c - 2];
      Reassociate(kept, [ps[c - 2]], ps[c..]);
    }
    GapsBehind(kept, back);
    EndIsBefore(kept + back, |kept|);
  }

  lemma DroppedFront(a: set<string>, front: seq<Piece>)
    requires |front| > 1 && front[|front| - 1].Fn? && front[|front| - 1].name in a && front[|front| - 2].Gap?
    ensures Untouched(front, a) == Untouched(front[..|front| - 2], a) + [front[|front| - 2]]
  {
    var c := |front|;
    assert front == front[..c - 1] + [front[c - 1]];
    UntouchedSnoc(front[..c - 1], front[c - 1], a);
    assert front[..c - 1] == front[..c - 2] + [front[c - 2]];
    UntouchedSnoc(front[..c - 2], front[c - 2], a);
  }

  lemma EndIsBefore(ps: seq<Piece>, k: nat)
    requires k <= |ps| && forall i :: k <= i < |ps| ==> ps[i].Gap?
    ensures FnsEnd(ps) <= k
  {
  }

  // ----- The exact condition -------------------------------------------------------------

  /** Patching with `a` and then `b` equals patching with both exactly when the sections share a
      name, or `a` inserts something, or `b` inserts nothing, or `a` keeps the last function. */
  lemma ComposesIff(gen: seq<Item>, a: set<string>, b: set<string>, ps: seq<Piece>)
    requires Distinct(Order(gen))
    requires FnsEnd(ps) > 0 ==> FnsEnd(ps) > 1 && ps[FnsEnd(ps) - 2].Gap?
    ensures Patched(gen, b, Patched(gen, a, ps)) == Patched(gen, a + b, ps) <==>
            NameSet(ps) * ToSet(Order(gen)) != {} || a * ToSet(Order(gen)) != {} ||
            b * ToSet(Order(gen)) == {} || !DropsLast(a, ps)
  {
    var g := ToSet(Order(gen));
    if NameSet(ps) * g != {} {
      SharedComposes(gen, a, b, ps);
    } else {
      assert forall n :: n in NameSet(ps) && n in Order(gen) ==> n in NameSet(ps) * g;
      if a * g != {} {
        InsertingComposes(gen, a, b, ps);
      } else if b * g == {} {
        NothingToInsertComposes(gen, a, b, ps);
      } else if !DropsLast(a, ps) {
        DeletingComposes(gen, a, b, ps);
      } else {
        TailMoves(gen, a, b, ps);
      }
    }
  }

  /** The order of the functions composes in every case. */
  lemma OrderComposes(gen: seq<Item>, a: set<string>, b: set<string>, ps: seq<Piece>)
    requires Distinct(Order(gen))
    ensures Names(Patched(gen, b, Patched(gen, a, ps))) == Names(Patched(gen, a + b, ps))
  {
    var g := ToSet(Order(gen));
    if NameSet(ps) * g != {} {
      SharedComposes(gen, a, b, ps);
    } else {
      assert forall n :: n in NameSet(ps) && n in Order(gen) ==> n in NameSet(ps) * g;
      if a * g != {} {
        InsertingComposes(gen, a, b, ps);
      } else {
        DeletingMerge(gen, a, ps);
        SameInserts(gen, a, b);
        UnsharedNames(gen, b, Untouched(ps, a));
        UnsharedNames(gen, a + b, ps);
        UntouchedTwice(ps, a, b);
      }
    }
  }

  lemma UnsharedNames(gen: seq<Item>, targets: set<string>, ps: seq<Piece>)
    requires Unshared(gen, ps)
    ensures Names(Patched(gen, targets, ps)) == Names(Untouched(ps, targets)) + Filter(Order(gen), targets)
  {
    NamesMembers(ps);
    PatchedNameSeq(gen, targets, ps);
    UnsharedExpand(gen, NameSet(ps), targets, ps);
    UnsharedTail(gen, targets, ps);
  }
}
