/** What the merge touches and what it leaves alone; names, texts and idempotence. */
module MergeFrame {
  import opened Merge

  // ----- Frame ---------------------------------------------------------------------------

  /** The gaps and the functions that are not targets, in order. */
  function Untouched(ps: seq<Piece>, targets: set<string>): seq<Piece> {
    if ps == [] then []
    else (if ps[0].Gap? || ps[0].name !in targets then [ps[0]] else []) + Untouched(ps[1..], targets)
  }

  lemma {:induction false} UntouchedConcat(a: seq<Piece>, b: seq<Piece>, targets: set<string>)
    ensures Untouched(a + b, targets) == Untouched(a, targets) + Untouched(b, targets)
  {
    if a == [] {
      assert a + b == b;
    } else {
      assert (a + b)[1..] == a[1..] + b;
      UntouchedConcat(a[1..], b, targets);
      Reassociate(if a[0].Gap? || a[0].name !in targets then [a[0]] else [], Untouched(a[1..], targets), Untouched(b, targets));
    }
  }

  lemma {:induction false} MadeIsTouched(gen: seq<Item>, names: seq<string>, targets: set<string>)
    requires forall n :: n in names ==> n in targets
    ensures Untouched(Made(gen, names), targets) == []
  {
    if names != [] {
      assert names[0] in names;
      MadeIsTouched(gen, names[1..], targets);
    }
  }

  lemma InsertsAreTouched(gen: seq<Item>, present: set<string>, targets: set<string>, place: Place)
    ensures Untouched(Made(gen, Inserts(Order(gen), present, targets, place)), targets) == []
  {
    InsertsAreMissing(Order(gen), present, targets, place, |gen|);
    MadeIsTouched(gen, Inserts(Order(gen), present, targets, place), targets);
  }

  lemma ExpandFrame(gen: seq<Item>, present: set<string>, targets: set<string>, p: Piece)
    ensures Untouched(Expand(gen, present, targets, p), targets) == Untouched([p], targets)
  {
    if p.Fn? {
      var before := Made(gen, Inserts(Order(gen), present, targets, Before(p.name)));
      var after := Made(gen, Inserts(Order(gen), present, targets, After(p.name)));
      InsertsAreTouched(gen, present, targets, Before(p.name));
      InsertsAreTouched(gen, present, targets, After(p.name));
      UntouchedConcat(before, Self(gen, targets, p), targets);
      UntouchedConcat(before + Self(gen, targets, p), after, targets);
    }
  }

  lemma {:induction false} ExpandAllFrame(gen: seq<Item>, present: set<string>, targets: set<string>, ps: seq<Piece>)
    ensures Untouched(ExpandAll(gen, present, targets, ps), targets) == Untouched(ps, targets)
  {
    if ps != [] {
      ExpandFrame(gen, present, targets, ps[0]);
      ExpandAllFrame(gen, present, targets, ps[1..]);
      UntouchedConcat(Expand(gen, present, targets, ps[0]), ExpandAll(gen, present, targets, ps[1..]), targets);
      assert ps == [ps[0]] + ps[1..];
      UntouchedConcat([ps[0]], ps[1..], targets);
    }
  }

  // ----- Names and texts -----------------------------------------------------------------

  lemma {:induction false} NamesMembers(ps: seq<Piece>)
    ensures forall x :: x in Names(ps) <==> exists p :: p in ps && p.Fn? && p.name == x
  {
    if ps != [] {
      NamesMembers(ps[1..]);
    }
  }

  lemma {:induction false} ExpandAllMembers(gen: seq<Item>, present: set<string>, targets: set<string>, ps: seq<Piece>)
    ensures forall q :: q in ExpandAll(gen, present, targets, ps) <==>
                        exists p :: p in ps && q in Expand(gen, present, targets, p)
  {
    if ps != [] {
      ExpandAllMembers(gen, present, targets, ps[1..]);
      assert ps == [ps[0]] + ps[1..];
    }
  }

  /** The result is the expansion of the committed pieces with the tail inserts spliced in. */
  lemma PatchedParts(gen: seq<Item>, targets: set<string>, ps: seq<Piece>) returns (front: seq<Piece>, back: seq<Piece>)
    ensures ExpandAll(gen, NameSet(ps), targets, ps) == front + back
    ensures Patched(gen, targets, ps) == front + Made(gen, Inserts(Order(gen), NameSet(ps), targets, Tail)) + back
    ensures forall p :: p in back ==> p.Gap?
  {
    var c, present := FnsEnd(ps), NameSet(ps);
    front, back := ExpandAll(gen, present, targets, ps[..c]), ps[c..];
    assert ps == ps[..c] + ps[c..];
    ExpandConcat(gen, present, targets, ps[..c], back);
    ExpandGaps(gen, present, targets, back);
  }

  /** A piece of the result comes from one committed piece or from the tail. */
  lemma PatchedMembers(gen: seq<Item>, targets: set<string>, ps: seq<Piece>, q: Piece)
    ensures q in Patched(gen, targets, ps) <==>
            q in Made(gen, Inserts(Order(gen), NameSet(ps), targets, Tail)) ||
            exists p :: p in ps && q in Expand(gen, NameSet(ps), targets, p)
  {
    var front, back := PatchedParts(gen, targets, ps);
    var expanded := ExpandAll(gen, NameSet(ps), targets, ps);
    ExpandAllMembers(gen, NameSet(ps), targets, ps);
    assert q in expanded <==> q in front || q in back;
  }

  lemma InsertedText(gen: seq<Item>, present: set<string>, targets: set<string>, place: Place, q: Piece)
    requires q in Made(gen, Inserts(Order(gen), present, targets, place))
    ensures q.Fn? && q.name in Order(gen) && q.name in targets && q.name !in present
    ensures q.text == TextOf(gen, q.name)
  {
    MadePieces(gen, Inserts(Order(gen), present, targets, place));
    InsertsAreMissing(Order(gen), present, targets, place, |gen|);
  }

  /** A function produced from one committed piece is that piece, its replacement or an insert. */
  lemma ExpandedText(gen: seq<Item>, present: set<string>, targets: set<string>, p: Piece, q: Piece)
    requires q in Expand(gen, present, targets, p) && q.Fn?
    ensures q.name in targets ==> q.name in Order(gen) && q.text == TextOf(gen, q.name)
    ensures q.name !in targets ==> q == p
    ensures q.name in present ==> p.Fn? && q.name == p.name
  {
    if p.Fn? {
      if q in Made(gen, Inserts(Order(gen), present, targets, Before(p.name))) {
        InsertedText(gen, present, targets, Before(p.name), q);
      } else if q in Made(gen, Inserts(Order(gen), present, targets, After(p.name))) {
        InsertedText(gen, present, targets, After(p.name), q);
      }
    }
  }

  /** Every function of the result that is a target carries its generated text. */
  lemma PatchedTexts(gen: seq<Item>, targets: set<string>, ps: seq<Piece>, q: Piece)
    requires q in Patched(gen, targets, ps) && q.Fn? && q.name in targets
    ensures q.name in Order(gen) && q.text == TextOf(gen, q.name)
  {
    PatchedMembers(gen, targets, ps, q);
    if q in Made(gen, Inserts(Order(gen), NameSet(ps), targets, Tail)) {
      InsertedText(gen, NameSet(ps), targets, Tail, q);
    } else {
      var p :| p in ps && q in Expand(gen, NameSet(ps), targets, p);
      ExpandedText(gen, NameSet(ps), targets, p, q);
    }
  }

  /** Every missing target that was generated is inserted somewhere. */
  lemma MissingIsInserted(gen: seq<Item>, targets: set<string>, ps: seq<Piece>, k: nat)
    requires k < |gen| && Missing(Order(gen), NameSet(ps), targets, k)
    ensures Fn(gen[k].name, TextOf(gen, gen[k].name)) in Patched(gen, targets, ps)
  {
    var order, present := Order(gen), NameSet(ps);
    var q := Fn(gen[k].name, TextOf(gen, gen[k].name));
    var place := PlaceOf(order, present, k);
    InsertsAreMissing(order, present, targets, place, |order|);
    assert order[k] == gen[k].name;
    assert q.name in Inserts(order, present, targets, place);
    MadePieces(gen, Inserts(order, present, targets, place));
    PatchedMembers(gen, targets, ps, q);
    if !place.Tail? {
      NamesMembers(ps);
      assert place.anchor in present;
      var p :| p in ps && p.Fn? && p.name == place.anchor;
      assert q in Expand(gen, present, targets, p);
    }
  }

  /** The names of the result are the old ones that are not targets and the generated targets. */
  lemma PatchedNames(gen: seq<Item>, targets: set<string>, ps: seq<Piece>)
    ensures NameSet(Patched(gen, targets, ps)) == (NameSet(ps) - targets) + (targets * ToSet(Order(gen)))
  {
    var order, present, result := Order(gen), NameSet(ps), Patched(gen, targets, ps);
    NamesMembers(result);
    NamesMembers(ps);
    forall x | x in NameSet(result)
      ensures x in (present - targets) + (targets * ToSet(order))
    {
      var q :| q in result && q.Fn? && q.name == x;
      if x in targets {
        PatchedTexts(gen, targets, ps, q);
      } else {
        PatchedMembers(gen, targets, ps, q);
        if q in Made(gen, Inserts(order, present, targets, Tail)) {
          InsertedText(gen, present, targets, Tail, q);
        } else {
          var p :| p in ps && q in Expand(gen, present, targets, p);
          ExpandedText(gen, present, targets, p, q);
        }
      }
    }
    forall x | x in (present - targets) + (targets * ToSet(order))
      ensures x in NameSet(result)
    {
      if x in present {
        var p :| p in ps && p.Fn? && p.name == x;
        SurvivorStays(gen, targets, ps, p);
      } else {
        var k :| 0 <= k < |order| && order[k] == x;
        MissingIsInserted(gen, targets, ps, k);
      }
    }
  }

  lemma SurvivorStays(gen: seq<Item>, targets: set<string>, ps: seq<Piece>, p: Piece)
    requires p in ps && p.Fn? && (p.name in targets ==> p.name in Order(gen))
    ensures exists q :: q in Patched(gen, targets, ps) && q.Fn? && q.name == p.name
  {
    var q := Self(gen, targets, p)[0];
    assert q in Expand(gen, NameSet(ps), targets, p);
    PatchedMembers(gen, targets, ps, q);
  }

  // ----- The frame of the whole merge ----------------------------------------------------

  /** Frame: every gap and every function that is not a target survives unchanged, in order. */
  lemma PatchedFrame(gen: seq<Item>, targets: set<string>, ps: seq<Piece>)
    ensures Untouched(Patched(gen, targets, ps), targets) == Untouched(ps, targets)
  {
    var front, back := PatchedParts(gen, targets, ps);
    var tail := Made(gen, Inserts(Order(gen), NameSet(ps), targets, Tail));
    ExpandAllFrame(gen, NameSet(ps), targets, ps);
    InsertsAreTouched(gen, NameSet(ps), targets, Tail);
    UntouchedConcat(front, tail, targets);
    UntouchedConcat(front + tail, back, targets);
    UntouchedConcat(front, back, targets);
  }

  // ----- Idempotence ---------------------------------------------------------------------

  /** Nothing is left to do: the targets present are the generated ones, with generated text. */
  ghost predicate Settled(gen: seq<Item>, targets: set<string>, ps: seq<Piece>) {
    (forall p :: p in ps && p.Fn? && p.name in targets ==> p.name in Order(gen) && p.text == TextOf(gen, p.name)) &&
    (forall n :: n in targets && n in Order(gen) ==> n in NameSet(ps))
  }

  lemma SettledInserts(gen: seq<Item>, targets: set<string>, ps: seq<Piece>, place: Place)
    requires Settled(gen, targets, ps)
    ensures Inserts(Order(gen), NameSet(ps), targets, place) == []
  {
    var inserts := Inserts(Order(gen), NameSet(ps), targets, place);
    assert inserts != [] ==> inserts[0] in inserts;
    InsertsAreMissing(Order(gen), NameSet(ps), targets, place, |gen|);
  }

  lemma {:induction false} SettledExpand(gen: seq<Item>, targets: set<string>, ps: seq<Piece>, part: seq<Piece>)
    requires Settled(gen, targets, ps) && forall p :: p in part ==> p in ps
    ensures ExpandAll(gen, NameSet(ps), targets, part) == part
  {
    if part != [] {
      assert part[0] in part;
      SettledPiece(gen, targets, ps, part[0]);
      SettledExpand(gen, targets, ps, part[1..]);
      assert part == [part[0]] + part[1..];
    }
  }

  lemma SettledPiece(gen: seq<Item>, targets: set<string>, ps: seq<Piece>, p: Piece)
    requires Settled(gen, targets, ps) && p in ps
    ensures Expand(gen, NameSet(ps), targets, p) == [p]
  {
    if p.Fn? {
      SettledInserts(gen, targets, ps, Before(p.name));
      SettledInserts(gen, targets, ps, After(p.name));
      assert Self(gen, targets, p) == [p];
      assert Made(gen, []) == [];
      assert [] + [p] + [] == [p];
    }
  }

  lemma SettledStays(gen: seq<Item>, targets: set<string>, ps: seq<Piece>)
    requires Settled(gen, targets, ps)
    ensures Patched(gen, targets, ps) == ps
  {
    var c := FnsEnd(ps);
    SettledExpand(gen, targets, ps, ps[..c]);
    SettledInserts(gen, targets, ps, Tail);
    assert Made(gen, []) == [];
    Together(ps, c);
  }

  lemma Together(ps: seq<Piece>, c: nat)
    requires c <= |ps|
    ensures ps[..c] + [] + ps[c..] == ps
  {
  }

  /** The merge leaves a segmentation alone exactly when nothing is left to do. */
  lemma UnchangedIsSettled(gen: seq<Item>, targets: set<string>, ps: seq<Piece>)
    ensures Patched(gen, targets, ps) == ps <==> Settled(gen, targets, ps)
  {
    if Settled(gen, targets, ps) {
      SettledStays(gen, targets, ps);
    }
    if Patched(gen, targets, ps) == ps {
      PatchedIsSettled(gen, targets, ps);
    }
  }

  lemma PatchedIsSettled(gen: seq<Item>, targets: set<string>, ps: seq<Piece>)
    ensures Settled(gen, targets, Patched(gen, targets, ps))
  {
    PatchedNames(gen, targets, ps);
    forall q | q in Patched(gen, targets, ps) && q.Fn? && q.name in targets
      ensures q.name in Order(gen) && q.text == TextOf(gen, q.name)
    {
      PatchedTexts(gen, targets, ps, q);
    }
  }

  /** Patching again with the same targets changes nothing. */
  lemma PatchedIsIdempotent(gen: seq<Item>, targets: set<string>, ps: seq<Piece>)
    ensures Patched(gen, targets, Patched(gen, targets, ps)) == Patched(gen, targets, ps)
  {
    PatchedIsSettled(gen, targets, ps);
    UnchangedIsSettled(gen, targets, Patched(gen, targets, ps));
  }
}
