/** What `patch_section` promises about the file text. */
module PatchTheorems {
  import opened Wrappers
  import opened RustLexer
  import opened Seams
  import opened Merge
  import opened MergeFrame
  import opened Sections
  import opened PatchText
  import opened Reassembly
  import opened ChangeCount

  lemma SameMiddle(text: string, a: nat, b: nat, body: string)
    requires a <= b <= |text|
    ensures text[..a] + body + text[b..] == text <==> body == text[a..b]
  {
    var all := text[..a] + body + text[b..];
    if all == text {
      assert |body| == b - a;
      assert body == all[a..b];
    }
    if body == text[a..b] {
      assert all == text;
    }
  }

  // ----- The count and the unchanged file -------------------------------------------------

  lemma {:induction false} SettledChanges(gen: seq<Item>, targets: set<string>, ps: seq<Piece>, part: seq<Piece>)
    requires Settled(gen, targets, ps) && forall p :: p in part ==> p in ps
    ensures Changes(gen, NameSet(ps), targets, part) == 0
  {
    if part != [] {
      assert part[0] in part;
      if part[0].Fn? {
        SettledInserts(gen, targets, ps, Before(part[0].name));
        SettledInserts(gen, targets, ps, After(part[0].name));
      }
      SettledChanges(gen, targets, ps, part[1..]);
    }
  }

  /** No change is counted exactly when nothing is left to do, which a caller can see beforehand. */
  lemma ChangesAreZeroIff(gen: seq<Item>, targets: set<string>, ps: seq<Piece>)
    ensures AllChanges(gen, targets, ps) == 0 <==> Settled(gen, targets, ps)
  {
    if Settled(gen, targets, ps) {
      SettledChanges(gen, targets, ps, ps);
      SettledInserts(gen, targets, ps, Tail);
    }
    if AllChanges(gen, targets, ps) == 0 {
      ZeroChangesIsIdentity(gen, targets, ps);
      UnchangedIsSettled(gen, targets, ps);
    }
  }

  /** With nothing left to do the count is zero, and the file comes back as it was exactly when the
      items tile the body. */
  lemma SettledTextIff(text: string, section: RustSection, gen: seq<Item>, targets: set<string>)
    requires Sliced(text, section) && Settled(gen, targets, Pieces(text, section))
    ensures PatchedCount(text, section, gen, targets) == 0
    ensures PatchedText(text, section, gen, targets) == text <==> Tiles(section.bodyStart, section.bodyEnd, section.items)
  {
    UnchangedIsSettled(gen, targets, Pieces(text, section));
    ChangesAreZeroIff(gen, targets, Pieces(text, section));
    SameMiddle(text, section.bodyStart, section.bodyEnd, Flatten(Pieces(text, section)));
    ReassemblesIff(text, section);
  }

  /** An empty target list always counts nothing; it returns the file as it was exactly when the
      items tile the body. */
  lemma NoTargetsNoChange(text: string, section: RustSection, gen: seq<Item>)
    requires Sliced(text, section)
    ensures PatchedCount(text, section, gen, {}) == 0
    ensures PatchedText(text, section, gen, {}) == text <==> Tiles(section.bodyStart, section.bodyEnd, section.items)
  {
    SettledTextIff(text, section, gen, {});
  }

  /** Otherwise it returns a longer file. */
  lemma NoTargetsLonger(text: string, section: RustSection, gen: seq<Item>)
    requires Sliced(text, section) && !Tiles(section.bodyStart, section.bodyEnd, section.items)
    ensures |PatchedText(text, section, gen, {})| > |text|
  {
    UnchangedIsSettled(gen, {}, Pieces(text, section));
    LongerUnlessTiled(text, section);
  }

  /** An unchanged file has count zero.  The converse holds exactly when the items tile the body or
      something is left to do. */
  lemma CountIsZeroIff(text: string, section: RustSection, gen: seq<Item>, targets: set<string>)
    requires Sliced(text, section)
    ensures PatchedText(text, section, gen, targets) == text ==> PatchedCount(text, section, gen, targets) == 0
    ensures (PatchedCount(text, section, gen, targets) == 0 ==> PatchedText(text, section, gen, targets) == text) <==>
            Tiles(section.bodyStart, section.bodyEnd, section.items) || !Settled(gen, targets, Pieces(text, section))
  {
    ChangesAreZeroIff(gen, targets, Pieces(text, section));
    SameMiddle(text, section.bodyStart, section.bodyEnd, Flatten(Patched(gen, targets, Pieces(text, section))));
    if Settled(gen, targets, Pieces(text, section)) {
      SettledTextIff(text, section, gen, targets);
    }
  }

  /** A count above zero is the number of functions inserted, deleted and rewritten; it is zero only
      when there are none or the new body is the old one. */
  lemma CountIs(text: string, section: RustSection, gen: seq<Item>, targets: set<string>)
    requires InText(section, text) && Distinct(Order(gen)) && Distinct(Names(Pieces(text, section)))
    ensures var ps, g := Pieces(text, section), ToSet(Order(gen));
            PatchedCount(text, section, gen, targets) ==
            if PatchedText(text, section, gen, targets) == text then 0
            else |targets * g - NameSet(ps)| + |NameSet(ps) * targets - g| + |Rewritten(gen, targets, ps)|
  {
    ChangesAreCounted(gen, targets, Pieces(text, section));
    SameMiddle(text, section.bodyStart, section.bodyEnd, Flatten(Patched(gen, targets, Pieces(text, section))));
  }

  // ----- Where it fails ------------------------------------------------------------------

  /** Two items of which the second starts before the first ends: with no targets the overlap is
      written twice, and the count is zero. */
  lemma OverlapRepeats(text: string, section: RustSection, gen: seq<Item>, one: RustItem, two: RustItem)
    requires InText(section, text) && section.items == [one, two]
    requires SliceAt(text, section.bodyStart, one) && SliceAt(text, section.bodyStart, two)
    requires two.start < one.end && two.end <= section.bodyEnd
    ensures PatchedText(text, section, gen, {}) == text[..one.end] + text[two.start..]
    ensures PatchedText(text, section, gen, {}) != text && PatchedCount(text, section, gen, {}) == 0
  {
    var a, b := section.bodyStart, section.bodyEnd;
    UnchangedIsSettled(gen, {}, Pieces(text, section));
    TwoPieces(text, section, one, two);
    PairText(text, a, one.start, one.end, two.start, two.end, b);
    NoTargetsNoChange(text, section, gen);
  }

  lemma TwoPieces(text: string, section: RustSection, one: RustItem, two: RustItem)
    requires section.items == [one, two]
    ensures Flatten(Pieces(text, section)) ==
            Slice(text, section.bodyStart, one.start) + one.text + (Slice(text, one.end, two.start) + two.text) +
            Slice(text, two.end, section.bodyEnd)
  {
    var a := section.bodyStart;
    var first, second := Gap(Slice(text, a, one.start)), Gap(Slice(text, one.end, two.start));
    PiecesStep(text, a, section.items, 0, first.text, Fn(one.name, one.text));
    PiecesStep(text, a, section.items, 1, second.text, Fn(two.name, two.text));
    FlattenConcat(PiecesUpTo(text, a, section.items, 0), [first, Fn(one.name, one.text)]);
    FlattenConcat(PiecesUpTo(text, a, section.items, 1), [second, Fn(two.name, two.text)]);
    FlattenConcat(PiecesUpTo(text, a, section.items, 2), [LastGap(text, section)]);
    FlattenPair(first, Fn(one.name, one.text));
    FlattenPair(second, Fn(two.name, two.text));
    FlattenOne(LastGap(text, section));
  }

  lemma PairText(text: string, a: nat, s: nat, e: nat, s': nat, e': nat, b: nat)
    requires a <= s <= e <= |text| && s' <= e' <= b <= |text| && s' <= e
    ensures text[..a] + (Slice(text, a, s) + text[s..e] + (Slice(text, e, s') + text[s'..e']) + Slice(text, e', b)) + text[b..] ==
            text[..e] + text[s'..]
  {
    assert Slice(text, a, s) == text[a..s] && Slice(text, e, s') == "" && Slice(text, e', b) == text[e'..b];
    assert text[..a] + (text[a..s] + text[s..e]) == text[..e];
    assert text[s'..e'] + text[e'..b] + text[b..] == text[s'..];
    Regrouped(text[..a], text[a..s], text[s..e], text[s'..e'], text[e'..b], text[b..]);
  }

  lemma Regrouped(a: string, b: string, c: string, d: string, e: string, f: string)
    ensures a + (b + c + ("" + d) + e) + f == a + (b + c) + (d + e + f)
  {
  }

  // ----- The patched section is still a section ------------------------------------------

  lemma {:induction false} ClosedPieces(ps: seq<Piece>)
    requires forall p :: p in ps ==> Closed(p.text)
    ensures Closed(Flatten(ps))
  {
    if ps == [] {
      EmptyIsClosed();
    } else {
      assert ps[0] in ps;
      ClosedPieces(ps[1..]);
      ClosedConcat(ps[0].text, Flatten(ps[1..]));
    }
  }

  lemma EmptyIsClosed()
    ensures Closed("")
  {
    assert Symbols([]) == "";
    assert LevelLexing([], "");
  }

  /** The text of a name is that of the last generated function that bears it. */
  lemma {:induction false} LookupIsText(gen: seq<Item>, name: string) returns (i: nat)
    requires name in Order(gen)
    ensures i < |gen| && gen[i].name == name && TextOf(gen, name) == gen[i].text
    ensures forall j :: i < j < |gen| ==> gen[j].name != name
  {
    var last := |gen| - 1;
    i := last;
    if gen[last].name != name {
      assert Order(gen) == Order(gen[..last]) + [gen[last].name];
      i := LookupIsText(gen[..last], name);
      assert gen[i] == gen[..last][i];
      assert TextOf(gen, name) == TextOf(gen[..last], name);
    }
  }

  lemma PatchedIsClosed(gen: seq<Item>, targets: set<string>, ps: seq<Piece>)
    requires forall p :: p in ps ==> Closed(p.text)
    requires forall i :: 0 <= i < |gen| ==> Closed(gen[i].text)
    ensures Closed(Flatten(Patched(gen, targets, ps)))
  {
    var result := Patched(gen, targets, ps);
    forall q | q in result
      ensures Closed(q.text)
    {
      if q.Fn? && q.name in targets {
        PatchedTexts(gen, targets, ps, q);
        var i := LookupIsText(gen, q.name);
      } else {
        UntouchedIn(result, targets, q);
        PatchedFrame(gen, targets, ps);
        UntouchedIn(ps, targets, q);
      }
    }
    ClosedPieces(result);
  }

  lemma {:induction false} UntouchedIn(ps: seq<Piece>, targets: set<string>, q: Piece)
    requires q.Gap? || q.name !in targets
    ensures q in Untouched(ps, targets) <==> q in ps
  {
    if ps != [] {
      UntouchedIn(ps[1..], targets, q);
    }
  }

  /** If every gap, every committed function and every generated function is whole tokens with
      balanced braces, then in the patched file the section's opening brace is matched by the
      brace that follows the new body, so the section is found again, whole. */
  lemma PatchedSectionIsFound(text: string, section: RustSection, gen: seq<Item>, targets: set<string>, patched: string, close: nat)
    requires InText(section, text) && section.bodyEnd < |text| && section.bodyStart > 0
    requires text[section.bodyStart - 1] == '{' && text[section.bodyEnd] == '}'
    requires forall p :: p in Pieces(text, section) ==> Closed(p.text)
    requires forall i :: 0 <= i < |gen| ==> Closed(gen[i].text)
    requires patched == PatchedText(text, section, gen, targets)
    requires close == section.bodyStart + |Flatten(Patched(gen, targets, Pieces(text, section)))|
    ensures Scan(CloseBrace, patched, section.bodyStart - 1, "") == Some(close)
  {
    PatchedIsClosed(gen, targets, Pieces(text, section));
    SpliceIsMatched(text, section.bodyStart, section.bodyEnd, Flatten(Patched(gen, targets, Pieces(text, section))), patched, close);
  }
}
