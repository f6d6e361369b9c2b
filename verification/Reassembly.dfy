/** When the gaps and items of a section give its body back. */
module Reassembly {
  import opened Merge
  import opened Sections
  import opened PatchText

  /** What `parse_items` guarantees of every section: each item is a slice that starts in the body. */
  ghost predicate Sliced(text: string, section: RustSection) {
    InText(section, text) &&
    forall i :: 0 <= i < |section.items| ==> SliceAt(text, section.bodyStart, section.items[i])
  }

  ghost predicate SliceAt(text: string, bodyStart: nat, item: RustItem) {
    bodyStart <= item.start < item.end <= |text| && item.text == text[item.start..item.end]
  }

  /** The items also tile the body. */
  ghost predicate Tiled(text: string, section: RustSection) {
    Sliced(text, section) && Tiles(section.bodyStart, section.bodyEnd, section.items)
  }

  lemma ParsedIsSliced(text: string, section: RustSection, headers: seq<Header>)
    requires InText(section, text) && HeadersInBody(text, section.bodyStart, section.bodyEnd, headers)
    requires Parsed(text, section.bodyStart, section.bodyEnd, headers, section.items)
    ensures Sliced(text, section)
  {
    forall i | 0 <= i < |section.items|
      ensures SliceAt(text, section.bodyStart, section.items[i])
    {
      var h := headers[i];
      ItemFacts(text, section.bodyStart, section.bodyEnd, h, section.items[i], CodeEnd(text, h.start).value);
    }
  }

  // ----- By length -----------------------------------------------------------------------

  /** No item up to `i` starts before the end of the one before it. */
  ghost predicate Chained(start: nat, items: seq<RustItem>, i: nat)
    requires i <= |items|
  {
    i == 0 || (Chained(start, items, i - 1) && Cursor(start, items, i - 1) <= items[i - 1].start)
  }

  lemma SliceLength(text: string, a: nat, b: nat)
    requires b <= |text|
    ensures |Slice(text, a, b)| == if a < b then b - a else 0
  {
  }

  lemma StepLength(text: string, start: nat, items: seq<RustItem>, k: nat)
    requires k < |items| && SliceAt(text, start, items[k])
    ensures var item, cursor := items[k], Cursor(start, items, k);
            |Flatten(PiecesUpTo(text, start, items, k + 1))| ==
            |Flatten(PiecesUpTo(text, start, items, k))| + (if cursor < item.start then item.start - cursor else 0) + (item.end - item.start)
  {
    var gap, fn := Slice(text, Cursor(start, items, k), items[k].start), Fn(items[k].name, items[k].text);
    SliceLength(text, Cursor(start, items, k), items[k].start);
    PiecesStep(text, start, items, k, gap, fn);
    FlattenConcat(PiecesUpTo(text, start, items, k), [Gap(gap), fn]);
    FlattenPair(Gap(gap), fn);
  }

  /** What is emitted up to item `i` is at least as long as the stretch it covers, and exactly as
      long when no gap was cut off. */
  ghost predicate Measured(text: string, start: nat, items: seq<RustItem>, i: nat)
    requires i <= |items|
  {
    var emitted, covered := |Flatten(PiecesUpTo(text, start, items, i))|, Cursor(start, items, i) - start;
    0 <= covered <= emitted && (emitted == covered <==> Chained(start, items, i))
  }

  lemma MeasuredStep(text: string, start: nat, items: seq<RustItem>, k: nat)
    requires k < |items| && SliceAt(text, start, items[k]) && Measured(text, start, items, k)
    ensures Measured(text, start, items, k + 1)
  {
    StepLength(text, start, items, k);
  }

  lemma {:induction false} LengthUpTo(text: string, section: RustSection, i: nat)
    requires Sliced(text, section) && i <= |section.items|
    ensures Measured(text, section.bodyStart, section.items, i)
  {
    if i > 0 {
      LengthUpTo(text, section, i - 1);
      MeasuredStep(text, section.bodyStart, section.items, i - 1);
    }
  }

  lemma {:induction false} ChainedRises(text: string, section: RustSection, i: nat)
    requires Sliced(text, section) && i <= |section.items| && Chained(section.bodyStart, section.items, i)
    ensures forall k :: 0 <= k < i ==> section.items[k].end <= Cursor(section.bodyStart, section.items, i)
    ensures forall k :: 0 < k < i ==> section.items[k - 1].end <= section.items[k].start
  {
    if i > 0 {
      assert SliceAt(text, section.bodyStart, section.items[i - 1]);
      ChainedRises(text, section, i - 1);
    }
  }

  lemma {:induction false} TilesChained(section: RustSection, i: nat)
    requires Tiles(section.bodyStart, section.bodyEnd, section.items) && i <= |section.items|
    ensures Chained(section.bodyStart, section.items, i)
  {
    if i > 0 {
      TilesChained(section, i - 1);
    }
  }

  lemma ChainedTiles(text: string, section: RustSection)
    requires Sliced(text, section)
    ensures var items, n := section.items, |section.items|;
            Tiles(section.bodyStart, section.bodyEnd, items) <==>
            Chained(section.bodyStart, items, n) && Cursor(section.bodyStart, items, n) <= section.bodyEnd
  {
    var a, b, items, n := section.bodyStart, section.bodyEnd, section.items, |section.items|;
    if Tiles(a, b, items) {
      TilesChained(section, n);
    }
    if Chained(a, items, n) && Cursor(a, items, n) <= b {
      ChainedRises(text, section, n);
      assert forall i :: 0 <= i < n ==> SliceAt(text, a, items[i]);
    }
  }

  /** The gaps and items of a section give its body back exactly when the items tile it. */
  lemma ReassemblesIff(text: string, section: RustSection)
    requires Sliced(text, section)
    ensures Flatten(Pieces(text, section)) == text[section.bodyStart..section.bodyEnd] <==>
            Tiles(section.bodyStart, section.bodyEnd, section.items)
  {
    if Tiles(section.bodyStart, section.bodyEnd, section.items) {
      assert forall i :: 0 <= i < |section.items| ==> SliceAt(text, section.bodyStart, section.items[i]);
      TilesFlatten(text, section);
    } else {
      LongerUnlessTiled(text, section);
    }
  }

  lemma LongerUnlessTiled(text: string, section: RustSection)
    requires Sliced(text, section) && !Tiles(section.bodyStart, section.bodyEnd, section.items)
    ensures |Flatten(Pieces(text, section))| > section.bodyEnd - section.bodyStart
  {
    var a, b, items, n := section.bodyStart, section.bodyEnd, section.items, |section.items|;
    LengthUpTo(text, section, n);
    ChainedTiles(text, section);
    SliceLength(text, Cursor(a, items, n), b);
    FlattenConcat(PiecesUpTo(text, a, items, n), [LastGap(text, section)]);
    FlattenOne(LastGap(text, section));
  }
}
