/** The segmentation of a section body that `patch_section` works on, the change count and the result. */
module PatchText {
  import opened Sections
  import opened Merge

  /** A section as `find_section` returns it: the body lies between the braces. */
  datatype RustSection = RustSection(bodyStart: nat, bodyEnd: nat, items: seq<RustItem>)

  ghost predicate InText(section: RustSection, text: string) {
    section.bodyStart <= section.bodyEnd <= |text|
  }

  /** A slice as Python takes it: empty when the bounds are the wrong way round. */
  function Slice(text: string, a: nat, b: nat): string {
    var hi := if b < |text| then b else |text|;
    if a < hi then text[a..hi] else ""
  }

  // ----- The segmentation of a body ------------------------------------------------------

  function Cursor(start: nat, items: seq<RustItem>, i: nat): nat
    requires i <= |items|
  {
    if i == 0 then start else items[i - 1].end
  }

  /** The gaps and functions up to item `i`. */
  function PiecesUpTo(text: string, start: nat, items: seq<RustItem>, i: nat): seq<Piece>
    requires i <= |items|
  {
    if i == 0 then []
    else
      PiecesUpTo(text, start, items, i - 1) +
      [Gap(Slice(text, Cursor(start, items, i - 1), items[i - 1].start)), Fn(items[i - 1].name, items[i - 1].text)]
  }

  lemma PiecesStep(text: string, start: nat, items: seq<RustItem>, i: nat, gap: string, fn: Piece)
    requires i < |items| && gap == Slice(text, Cursor(start, items, i), items[i].start) && fn == Fn(items[i].name, items[i].text)
    ensures PiecesUpTo(text, start, items, i + 1) == PiecesUpTo(text, start, items, i) + [Gap(gap), fn]
  {
  }

  function LastGap(text: string, section: RustSection): Piece {
    Gap(Slice(text, Cursor(section.bodyStart, section.items, |section.items|), section.bodyEnd))
  }

  function Pieces(text: string, section: RustSection): seq<Piece> {
    PiecesUpTo(text, section.bodyStart, section.items, |section.items|) + [LastGap(text, section)]
  }

  function Generated(items: seq<RustItem>): (gen: seq<Item>)
    ensures |gen| == |items|
    ensures forall i :: 0 <= i < |items| ==> gen[i] == Item(items[i].name, items[i].text)
  {
    seq(|items|, i requires 0 <= i < |items| => Item(items[i].name, items[i].text))
  }

  /** Gaps and items concatenate back to the body when the items tile it. */
  lemma TilesFlatten(text: string, section: RustSection)
    requires InText(section, text) && Tiles(section.bodyStart, section.bodyEnd, section.items)
    requires forall i :: 0 <= i < |section.items| ==>
               var item := section.items[i];
               item.start <= item.end <= |text| && item.text == text[item.start..item.end]
    ensures Flatten(Pieces(text, section)) == text[section.bodyStart..section.bodyEnd]
  {
    var items, n := section.items, |section.items|;
    var cursor := Cursor(section.bodyStart, items, n);
    TilesFlattenUpTo(text, section, n);
    FlattenConcat(PiecesUpTo(text, section.bodyStart, items, n), [LastGap(text, section)]);
    FlattenOne(LastGap(text, section));
    JoinTwo(text, section.bodyStart, cursor, section.bodyEnd);
  }

  lemma JoinTwo(text: string, a: nat, b: nat, c: nat)
    requires a <= b <= c <= |text|
    ensures text[a..b] + Slice(text, b, c) == text[a..c]
  {
  }

  lemma {:induction false} TilesFlattenUpTo(text: string, section: RustSection, i: nat)
    requires InText(section, text) && Tiles(section.bodyStart, section.bodyEnd, section.items)
    requires forall i :: 0 <= i < |section.items| ==>
               var item := section.items[i];
               item.start <= item.end <= |text| && item.text == text[item.start..item.end]
    requires i <= |section.items|
    ensures var cursor := Cursor(section.bodyStart, section.items, i);
            section.bodyStart <= cursor <= section.bodyEnd &&
            Flatten(PiecesUpTo(text, section.bodyStart, section.items, i)) == text[section.bodyStart..cursor]
  {
    if i > 0 {
      var start, item := section.bodyStart, section.items[i - 1];
      var cursor := Cursor(start, section.items, i - 1);
      TilesFlattenUpTo(text, section, i - 1);
      assert cursor <= item.start;
      var gap := Gap(Slice(text, cursor, item.start));
      assert gap.text == text[cursor..item.start];
      FlattenConcat(PiecesUpTo(text, start, section.items, i - 1), [gap, Fn(item.name, item.text)]);
      FlattenPair(gap, Fn(item.name, item.text));
      JoinSlices(text, start, cursor, item.start, item.end);
    }
  }

  lemma JoinSlices(text: string, a: nat, b: nat, c: nat, d: nat)
    requires a <= b <= c <= d <= |text|
    ensures text[a..b] + (text[b..c] + text[c..d]) == text[a..d]
  {
  }

  lemma FlattenPair(a: Piece, b: Piece)
    ensures Flatten([a, b]) == a.text + b.text
  {
    assert [a, b][1..] == [b];
    assert Flatten([b]) == b.text + "";
  }

  lemma PairNames(gap: Piece, fn: Piece)
    requires gap.Gap? && fn.Fn?
    ensures Names([gap, fn]) == [fn.name]
  {
    assert [gap, fn][1..] == [fn];
    assert Names([fn]) == [fn.name] + Names([]);
  }

  lemma {:induction false} PiecesNames(text: string, start: nat, items: seq<RustItem>, i: nat)
    requires i <= |items|
    ensures Names(PiecesUpTo(text, start, items, i)) == Order(Generated(items))[..i]
    ensures |PiecesUpTo(text, start, items, i)| == 2 * i
  {
    if i > 0 {
      var k := i - 1;
      var gap, fn := Gap(Slice(text, Cursor(start, items, k), items[k].start)), Fn(items[k].name, items[k].text);
      PiecesNames(text, start, items, k);
      PiecesStep(text, start, items, k, gap.text, fn);
      NamesConcat(PiecesUpTo(text, start, items, k), [gap, fn]);
      PairNames(gap, fn);
      OrderStep(items, k);
    }
  }

  lemma OrderStep(items: seq<RustItem>, k: nat)
    requires k < |items|
    ensures Order(Generated(items))[..k + 1] == Order(Generated(items))[..k] + [items[k].name]
  {
  }

  /** The segmentation alternates: its last piece is a gap, and a gap precedes its last function. */
  lemma PiecesShape(text: string, section: RustSection)
    ensures var ps := Pieces(text, section);
            |ps| == 2 * |section.items| + 1 && FnsEnd(ps) == 2 * |section.items| &&
            Names(ps) == Order(Generated(section.items)) &&
            (FnsEnd(ps) > 0 ==> ps[FnsEnd(ps) - 2].Gap?)
  {
    var n := |section.items|;
    var front := PiecesUpTo(text, section.bodyStart, section.items, n);
    PiecesNames(text, section.bodyStart, section.items, n);
    NamesConcat(front, [LastGap(text, section)]);
    assert Pieces(text, section)[..2 * n] == front;
    assert Order(Generated(section.items))[..n] == Order(Generated(section.items));
  }

  // ----- The change count ----------------------------------------------------------------

  /** What one committed piece adds to `changed`. */
  function PieceChanges(gen: seq<Item>, present: set<string>, targets: set<string>, p: Piece): nat {
    if p.Gap? then 0
    else
      |Inserts(Order(gen), present, targets, Before(p.name))| +
      (if p.name in targets && (p.name !in Order(gen) || TextOf(gen, p.name) != p.text) then 1 else 0) +
      |Inserts(Order(gen), present, targets, After(p.name))|
  }

  function Changes(gen: seq<Item>, present: set<string>, targets: set<string>, ps: seq<Piece>): nat {
    if ps == [] then 0
    else PieceChanges(gen, present, targets, ps[0]) + Changes(gen, present, targets, ps[1..])
  }

  function AllChanges(gen: seq<Item>, targets: set<string>, ps: seq<Piece>): nat {
    Changes(gen, NameSet(ps), targets, ps) + |Inserts(Order(gen), NameSet(ps), targets, Tail)|
  }

  lemma {:induction false} ChangesConcat(gen: seq<Item>, present: set<string>, targets: set<string>, a: seq<Piece>, b: seq<Piece>)
    ensures Changes(gen, present, targets, a + b) ==
            Changes(gen, present, targets, a) + Changes(gen, present, targets, b)
  {
    if a == [] {
      assert a + b == b;
    } else {
      assert (a + b)[1..] == a[1..] + b;
      ChangesConcat(gen, present, targets, a[1..], b);
    }
  }

  lemma {:induction false} NoChangesNoEffect(gen: seq<Item>, present: set<string>, targets: set<string>, ps: seq<Piece>)
    requires Changes(gen, present, targets, ps) == 0
    ensures ExpandAll(gen, present, targets, ps) == ps
  {
    if ps != [] {
      NoChangesNoEffect(gen, present, targets, ps[1..]);
      assert Expand(gen, present, targets, ps[0]) == [ps[0]];
    }
  }

  /** A change count of zero means that every piece came through as it was. */
  lemma ZeroChangesIsIdentity(gen: seq<Item>, targets: set<string>, ps: seq<Piece>)
    requires AllChanges(gen, targets, ps) == 0
    ensures Patched(gen, targets, ps) == ps
  {
    var c := FnsEnd(ps);
    assert ps == ps[..c] + ps[c..];
    ChangesConcat(gen, NameSet(ps), targets, ps[..c], ps[c..]);
    NoChangesNoEffect(gen, NameSet(ps), targets, ps[..c]);
    assert Inserts(Order(gen), NameSet(ps), targets, Tail) == [];
  }

  // ----- The result ----------------------------------------------------------------------

  /** The file with the merged body in place of the old one. */
  function PatchedText(text: string, section: RustSection, gen: seq<Item>, targets: set<string>): string
    requires section.bodyStart <= section.bodyEnd <= |text|
  {
    text[..section.bodyStart] + Flatten(Patched(gen, targets, Pieces(text, section))) + text[section.bodyEnd..]
  }

  function PatchedCount(text: string, section: RustSection, gen: seq<Item>, targets: set<string>): nat
    requires section.bodyStart <= section.bodyEnd <= |text|
  {
    if Flatten(Patched(gen, targets, Pieces(text, section))) == text[section.bodyStart..section.bodyEnd] then 0
    else AllChanges(gen, targets, Pieces(text, section))
  }
}
