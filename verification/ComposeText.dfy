/** When patching with `a` and then `b` gives the same file text as patching with both. */
module ComposeText {
  import opened Merge
  import opened MergeFrame
  import opened MergeCompose
  import opened MergeUnshared

  /** The gaps that `a` leaves between its last survivor and the last committed function. */
  function Moved(a: set<string>, ps: seq<Piece>): seq<Piece> {
    var kept := Untouched(ps[..FnsEnd(ps)], a);
    kept[FnsEnd(kept)..]
  }

  /** The texts that the targets `b` add at the tail. */
  function Added(gen: seq<Item>, b: set<string>): seq<Piece> {
    Made(gen, Filter(Order(gen), b))
  }

  predicate Commute(u: string, v: string) {
    u + v == v + u
  }

  lemma EndBeforeGaps(front: seq<Piece>, back: seq<Piece>)
    requires forall i :: 0 <= i < |back| ==> back[i].Gap?
    ensures FnsEnd(front + back) == FnsEnd(front)
  {
    var all, c := front + back, FnsEnd(front);
    assert c > 0 ==> all[c - 1] == front[c - 1];
    assert forall i :: c <= i < |all| ==> all[i] == if i < |front| then front[i] else back[i - |front|];
    FnsEndIs(all, c);
  }

  lemma CutFront(front: seq<Piece>, back: seq<Piece>, c: nat)
    requires c <= |front|
    ensures (front + back)[..c] == front[..c] && (front + back)[c..] == front[c..] + back
  {
  }

  /** The pieces up to the last survivor of `a`, with the targets of `b` taken out. */
  function Survivors(a: set<string>, b: set<string>, ps: seq<Piece>): seq<Piece> {
    var kept := Untouched(ps[..FnsEnd(ps)], a);
    Untouched(kept[..FnsEnd(kept)], b)
  }

  /** Without a shared name and when `a` inserts nothing, the two results differ only in the order
      of the moved gaps and the functions that `b` adds. */
  lemma TwoOrders(gen: seq<Item>, a: set<string>, b: set<string>, ps: seq<Piece>)
    requires Unshared(gen, ps) && a * ToSet(Order(gen)) == {}
    ensures var front, back := Survivors(a, b, ps), ps[FnsEnd(ps)..];
            Patched(gen, b, Patched(gen, a, ps)) == front + Added(gen, b) + (Moved(a, ps) + back) &&
            Patched(gen, a + b, ps) == front + Moved(a, ps) + Added(gen, b) + back
  {
    var kept, back := Untouched(ps[..FnsEnd(ps)], a), ps[FnsEnd(ps)..];
    SecondPatch(gen, a, b, ps);
    UntouchedSplit(ps, a);
    EndBeforeGaps(kept, back);
    CutFront(kept, back, FnsEnd(kept));
    UntouchedTwice(ps[..FnsEnd(ps)], a, b);
    UntouchedSplit(kept, b);
  }

  lemma FlattenFour(a: seq<Piece>, b: seq<Piece>, c: seq<Piece>, d: seq<Piece>)
    ensures Flatten(a + b + (c + d)) == Flatten(a) + Flatten(b) + (Flatten(c) + Flatten(d))
    ensures Flatten((a + b) + c + d) == Flatten(a) + Flatten(b) + Flatten(c) + Flatten(d)
  {
    FlattenConcat(a, b);
    FlattenConcat(c, d);
    FlattenConcat(a + b, c + d);
    FlattenConcat(a + b, c);
    FlattenConcat(a + b + c, d);
  }

  lemma SwappedMiddle(x: string, u: string, v: string, y: string)
    ensures x + v + (u + y) == x + u + v + y <==> Commute(u, v)
  {
    var one, two := x + v + (u + y), x + u + v + y;
    assert one[|x|..|x| + |u| + |v|] == v + u && two[|x|..|x| + |u| + |v|] == u + v;
    assert one == x + (v + u) + y && two == x + (u + v) + y;
  }

  lemma TwoTexts(gen: seq<Item>, a: set<string>, b: set<string>, ps: seq<Piece>)
    requires Unshared(gen, ps) && a * ToSet(Order(gen)) == {}
    ensures var x, y := Flatten(Survivors(a, b, ps)), Flatten(ps[FnsEnd(ps)..]);
            var u, v := Flatten(Moved(a, ps)), Flatten(Added(gen, b));
            Flatten(Patched(gen, b, Patched(gen, a, ps))) == x + v + (u + y) && Flatten(Patched(gen, a + b, ps)) == x + u + v + y
  {
    var front, back := Survivors(a, b, ps), ps[FnsEnd(ps)..];
    TwoOrders(gen, a, b, ps);
    FlattenFour(front, Added(gen, b), Moved(a, ps), back);
    FlattenFour(front, Moved(a, ps), Added(gen, b), back);
  }

  lemma TailComposesIff(gen: seq<Item>, a: set<string>, b: set<string>, ps: seq<Piece>)
    requires Unshared(gen, ps) && a * ToSet(Order(gen)) == {}
    ensures Flatten(Patched(gen, b, Patched(gen, a, ps))) == Flatten(Patched(gen, a + b, ps)) <==>
            Commute(Flatten(Moved(a, ps)), Flatten(Added(gen, b)))
  {
    TwoTexts(gen, a, b, ps);
    SwappedMiddle(Flatten(Survivors(a, b, ps)), Flatten(Moved(a, ps)), Flatten(Added(gen, b)), Flatten(ps[FnsEnd(ps)..]));
  }

  /** The texts agree exactly when the sections share a name, or `a` inserts something, or the gaps
      that `a` leaves behind its last survivor and the texts that `b` adds commute. */
  lemma TextComposesIff(gen: seq<Item>, a: set<string>, b: set<string>, ps: seq<Piece>)
    requires Distinct(Order(gen))
    ensures Flatten(Patched(gen, b, Patched(gen, a, ps))) == Flatten(Patched(gen, a + b, ps)) <==>
            NameSet(ps) * ToSet(Order(gen)) != {} || a * ToSet(Order(gen)) != {} ||
            Commute(Flatten(Moved(a, ps)), Flatten(Added(gen, b)))
  {
    var g := ToSet(Order(gen));
    if NameSet(ps) * g != {} {
      SharedComposes(gen, a, b, ps);
    } else {
      assert forall n :: n in NameSet(ps) && n in Order(gen) ==> n in NameSet(ps) * g;
      if a * g != {} {
        InsertingComposes(gen, a, b, ps);
      } else {
        TailComposesIff(gen, a, b, ps);
      }
    }
  }

  /** Nothing moves when `a` keeps the last function, nothing is added when `b` has no generated
      target; in both cases the texts commute. */
  lemma NothingMoves(gen: seq<Item>, a: set<string>, b: set<string>, ps: seq<Piece>)
    ensures !DropsLast(a, ps) ==> Moved(a, ps) == []
    ensures b * ToSet(Order(gen)) == {} ==> Added(gen, b) == []
    ensures !DropsLast(a, ps) || b * ToSet(Order(gen)) == {} ==> Commute(Flatten(Moved(a, ps)), Flatten(Added(gen, b)))
  {
    if !DropsLast(a, ps) {
      UntouchedSplit(ps, a);
      EndBeforeGaps(Untouched(ps[..FnsEnd(ps)], a), ps[FnsEnd(ps)..]);
      KeptLastEnd(a, ps);
    }
    if b * ToSet(Order(gen)) == {} {
      assert forall n :: n in Order(gen) && n in b ==> n in b * ToSet(Order(gen));
      FilterNone(Order(gen), b);
    }
  }

  /** The smallest case: the only committed function `x`, behind a gap `u`, is deleted first, and one
      generated function of text `v` is added second.  It lands before `u` instead of behind it. */
  lemma TailMovesInText(x: string, y: string, t: string, u: string, v: string, w: string)
    requires x != y
    ensures var (ps, gen) := ([Gap(u), Fn(x, t), Gap(w)], [Item(y, v)]);
            Flatten(Patched(gen, {x, y}, ps)) == u + v + w &&
            Flatten(Patched(gen, {y}, Patched(gen, {x}, ps))) == v + u + w &&
            (Flatten(Patched(gen, {x, y}, ps)) == Flatten(Patched(gen, {y}, Patched(gen, {x}, ps))) <==> Commute(u, v))
  {
    var (ps, gen) := ([Gap(u), Fn(x, t), Gap(w)], [Item(y, v)]);
    assert {x} + {y} == {x, y};
    ExampleTexts(x, y, t, u, v, w, ps, gen);
    SwappedMiddle("", u, v, w);
    NoFront(u, v, w);
  }

  lemma NoFront(u: string, v: string, w: string)
    ensures "" + v + (u + w) == v + u + w && "" + u + v + w == u + v + w
  {
  }

  lemma ExampleTexts(x: string, y: string, t: string, u: string, v: string, w: string, ps: seq<Piece>, gen: seq<Item>)
    requires x != y && ps == [Gap(u), Fn(x, t), Gap(w)] && gen == [Item(y, v)]
    ensures Flatten(Patched(gen, {y}, Patched(gen, {x}, ps))) == "" + v + (u + w)
    ensures Flatten(Patched(gen, {x} + {y}, ps)) == "" + u + v + w
  {
    ExampleShape(x, y, t, u, w, ps);
    ExampleAdds(y, v, gen);
    ExampleUnshared(x, y, t, u, v, w, ps, gen);
    TwoTexts(gen, {x}, {y}, ps);
  }

  lemma ExampleUnshared(x: string, y: string, t: string, u: string, v: string, w: string, ps: seq<Piece>, gen: seq<Item>)
    requires x != y && ps == [Gap(u), Fn(x, t), Gap(w)] && gen == [Item(y, v)]
    ensures Unshared(gen, ps) && {x} * ToSet(Order(gen)) == {}
  {
    ExampleAdds(y, v, gen);
    NamesMembers(ps);
  }

  lemma ExampleAdds(y: string, v: string, gen: seq<Item>)
    requires gen == [Item(y, v)]
    ensures Order(gen) == [y] && Flatten(Added(gen, {y})) == v
  {
    assert Order(gen) == [y];
    assert Filter([y], {y}) == [y];
    assert gen[|gen| - 1] == Item(y, v);
    assert TextOf(gen, y) == v;
    assert Made(gen, [y]) == [Fn(y, v)] + Made(gen, []);
    assert Made(gen, [y]) == [Fn(y, v)];
    FlattenOne(Fn(y, v));
  }

  lemma ExampleShape(x: string, y: string, t: string, u: string, w: string, ps: seq<Piece>)
    requires ps == [Gap(u), Fn(x, t), Gap(w)]
    ensures FnsEnd(ps) == 2 && Flatten(ps[2..]) == w
    ensures Flatten(Moved({x}, ps)) == u && Flatten(Survivors({x}, {y}, ps)) == ""
  {
    FnsEndIs(ps, 2);
    assert ps[2..] == [Gap(w)];
    FlattenOne(Gap(w));
    var kept := Untouched(ps[..2], {x});
    assert ps[..2] == [Gap(u)] + [Fn(x, t)];
    UntouchedSnoc([Gap(u)], Fn(x, t), {x});
    assert kept == [Gap(u)];
    FnsEndIs(kept, 0);
    FlattenOne(Gap(u));
    assert kept[0..] == kept && kept[..0] == [];
  }
}
