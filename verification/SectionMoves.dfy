/** What `parse_items` finds in a body depends on the body alone: wherever the same body stands in
    a text, the same items are found, moved by its position. */
module SectionMoves {
  import opened Wrappers
  import opened RustLexer
  import opened ScanTheorems
  import opened Spans
  import opened Sections
  import opened Merge
  import opened PatchText

  /** The body stands in the text at position `p`. */
  ghost predicate Stands(text: string, p: nat, body: string) {
    p + |body| <= |text| && text[p..p + |body|] == body
  }

  lemma StandsAt(text: string, p: nat, body: string, k: nat, k': nat)
    requires Stands(text, p, body) && k < |body| && k' == p + k
    ensures text[k'] == body[k]
  {
    assert text[k'] == text[p..p + |body|][k];
  }

  lemma EdgeMoves(text: string, p: nat, body: string, k: nat, k': nat)
    requires Stands(text, p, body) && 0 < k <= |body| && k' == p + k
    ensures 0 < k' <= |text| && text[k' - 1] == body[k - 1]
  {
    StandsAt(text, p, body, k - 1, k' - 1);
  }

  lemma SliceOfSlice(s: string, i: nat, j: nat, a: nat, b: nat, a': nat, b': nat)
    requires i <= j <= |s| && a <= b <= j - i && a' == i + a && b' == i + b
    ensures s[i..j][a..b] == s[a'..b']
  {
    var t, u := s[i..j][a..b], s[a'..b'];
    assert |t| == |u|;
    forall k | 0 <= k < |t|
      ensures t[k] == u[k]
    {
      assert t[k] == s[i..j][a + k] == s[i + (a + k)];
      assert u[k] == s[a' + k];
    }
  }

  lemma StandsSlice(text: string, p: nat, body: string, a: nat, b: nat, a': nat, b': nat)
    requires Stands(text, p, body) && a <= b <= |body| && a' == p + a && b' == p + b
    ensures text[a'..b'] == body[a..b]
  {
    SliceOfSlice(text, p, p + |body|, a, b, a', b');
  }

  // ----- Lines above a header ------------------------------------------------------------

  lemma {:induction false} NewlineMoves(text: string, p: nat, body: string, hi: nat)
    requires Stands(text, p, body) && hi <= |body|
    ensures var r := RFindNewline(body, 0, hi);
            RFindNewline(text, p, p + hi) == if r == -1 then -1 else p + r
  {
    if hi > 0 {
      StandsAt(text, p, body, hi - 1, p + hi - 1);
      NewlineMoves(text, p, body, hi - 1);
    }
  }

  lemma PrevLineMoves(text: string, p: nat, body: string, s: nat)
    requires Stands(text, p, body) && 0 < s <= |body|
    ensures PrevLine(text, p, p + s) == p + PrevLine(body, 0, s)
  {
    NewlineMoves(text, p, body, s - 1);
  }

  lemma LeadingStep(text: string, lower: nat, s: nat, q: nat, line: string)
    requires lower < s <= |text| && q == PrevLine(text, lower, s) && line == text[q..s]
    ensures LeadingStart(text, lower, s) == if Attached(line) then LeadingStart(text, lower, q) else s
  {
  }

  lemma {:induction false} LeadingMoves(text: string, p: nat, body: string, s: nat, s': nat)
    requires Stands(text, p, body) && s <= |body| && s' == p + s
    ensures LeadingStart(text, p, s') == p + LeadingStart(body, 0, s)
    decreases s
  {
    if s > 0 {
      var q := PrevLine(body, 0, s);
      var q', line := p + q, body[q..s];
      PrevLineMoves(text, p, body, s);
      StandsSlice(text, p, body, q, s, q', s');
      LeadingStep(body, 0, s, q, line);
      LeadingStep(text, p, s', q', line);
      LeadingMoves(text, p, body, q, q');
    }
  }

  // ----- One item ------------------------------------------------------------------------

  /** A function's end depends on its own text alone. */
  lemma CodeEndMoves(text: string, s: nat, e: nat, other: string, s': nat, e': nat)
    requires CodeEnd(text, s) == Some(e) && e' == s' + (e - s) && e' <= |other| && other[s'..e'] == text[s..e]
    ensures CodeEnd(other, s') == Some(e')
  {
    var t := SignatureOf(text, s, e);
    var t' := s' + (t - s);
    ScanMoves(SignatureEnd, text, s, e, other, s', e', s, t, s', t');
    if text[t] == ';' {
      EndsAtSemicolon(other, s', t', e');
    } else {
      ScanMoves(CloseBrace, text, s, e, other, s', e', t, e - 1, t', e' - 1);
      EndsAtBrace(other, s', t', e');
    }
  }

  lemma ScanMoves(goal: Goal, text: string, s: nat, e: nat, other: string, s': nat, e': nat, i: nat, k: nat, i': nat, k': nat)
    requires e <= |text| && e' <= |other| && s <= e && e - s == e' - s' && other[s'..e'] == text[s..e]
    requires s <= i <= k < e && i' == s' + (i - s) && k' == s' + (k - s) && Scan(goal, text, i, "") == Some(k)
    ensures k' < |other| && Scan(goal, other, i', "") == Some(k') && other[k'] == text[k]
  {
    SubWindow(text, s, e, other, s', e', i, k, i', k');
    ScanIsLocal(goal, text, i, k, other, i', k');
    assert other[k'] == other[i'..k' + 1][k' - i'];
    assert text[k] == text[i..k + 1][k - i];
  }

  lemma SubWindow(text: string, s: nat, e: nat, other: string, s': nat, e': nat, a: nat, b: nat, a': nat, b': nat)
    requires e <= |text| && e' <= |other| && s <= e && e - s == e' - s' && other[s'..e'] == text[s..e]
    requires s <= a <= b < e && a' == s' + (a - s) && b' == s' + (b - s)
    ensures b' < |other| && other[a'..b' + 1] == text[a..b + 1]
  {
    SliceOfSlice(text, s, e, a - s, b + 1 - s, a, b + 1);
    SliceOfSlice(other, s', e', a - s, b + 1 - s, a', b' + 1);
  }

  function MoveItem(item: RustItem, p: nat): RustItem {
    item.(start := p + item.start, end := p + item.end)
  }

  function MoveHeader(h: Header, p: nat): Header {
    h.(start := p + h.start)
  }

  /** The same header at its new position yields the same item, moved. */
  lemma ItemMoves(text: string, p: nat, body: string, h: Header, item: RustItem)
    requires Stands(text, p, body) && 0 < h.start < |body| && body[h.start - 1] == '\n'
    requires ItemAt(body, 0, |body|, h) == Some(item)
    ensures ItemAt(text, p, p + |body|, MoveHeader(h, p)) == Some(MoveItem(item, p))
  {
    var e := CodeEnd(body, h.start).value;
    var h', e', item' := MoveHeader(h, p), p + e, MoveItem(item, p);
    ItemFacts(body, 0, |body|, h, item, e);
    EndMoves(text, p, body, h.start, e, h'.start, e');
    SpanMoves(text, p, body, p + |body|, h.start, e, item, h'.start, e', item');
    ItemIs(text, p, p + |body|, h', e', item');
  }

  /** Conversely, an item that stays in the body is the body's own. */
  lemma ItemReads(text: string, p: nat, body: string, h: Header, item: RustItem)
    requires Stands(text, p, body) && 0 < h.start < |body| && body[h.start - 1] == '\n' && item.end <= |body|
    requires ItemAt(text, p, p + |body|, MoveHeader(h, p)) == Some(MoveItem(item, p))
    ensures ItemAt(body, 0, |body|, h) == Some(item)
  {
    var e, e' := EndInBody(text, p, body, h, item);
    EndReads(text, p, body, h.start, e, p + h.start, e');
    var own := ItemOf(body, h, e);
    ItemMoves(text, p, body, h, own);
    SameMoved(own, item, p);
  }

  lemma SameMoved(one: RustItem, two: RustItem, p: nat)
    requires MoveItem(one, p) == MoveItem(two, p)
    ensures one == two
  {
  }

  lemma EndInBody(text: string, p: nat, body: string, h: Header, item: RustItem) returns (e: nat, e': nat)
    requires Stands(text, p, body) && 0 < h.start < |body| && body[h.start - 1] == '\n' && item.end <= |body|
    requires ItemAt(text, p, p + |body|, MoveHeader(h, p)) == Some(MoveItem(item, p))
    ensures e <= |body| && e' == p + e && CodeEnd(text, p + h.start) == Some(e')
  {
    EdgeMoves(text, p, body, h.start, p + h.start);
    e' := EndOf(text, p, p + |body|, MoveHeader(h, p), MoveItem(item, p));
    e := e' - p;
  }

  lemma EndOf(text: string, bodyStart: nat, bodyEnd: nat, h: Header, item: RustItem) returns (e: nat)
    requires 0 < h.start < bodyEnd <= |text| && text[h.start - 1] == '\n' && ItemAt(text, bodyStart, bodyEnd, h) == Some(item)
    ensures CodeEnd(text, h.start) == Some(e) && h.start < e <= item.end
  {
    e := CodeEnd(text, h.start).value;
    ItemParts(text, bodyStart, bodyEnd, h, item, e);
  }

  lemma EndReads(text: string, p: nat, body: string, s: nat, e: nat, s': nat, e': nat)
    requires Stands(text, p, body) && CodeEnd(text, s') == Some(e') && e <= |body| && s' == p + s && e' == p + e
    ensures CodeEnd(body, s) == Some(e)
  {
    StandsSlice(text, p, body, s, e, s', e');
    CodeEndMoves(text, s', e', body, s, e);
  }

  lemma ItemOf(text: string, h: Header, e: nat) returns (item: RustItem)
    requires h.start <= |text| && CodeEnd(text, h.start) == Some(e)
    ensures ItemAt(text, 0, |text|, h) == Some(item)
  {
    item := ItemAt(text, 0, |text|, h).value;
  }

  lemma EndMoves(text: string, p: nat, body: string, s: nat, e: nat, s': nat, e': nat)
    requires Stands(text, p, body) && CodeEnd(body, s) == Some(e) && s' == p + s && e' == p + e
    ensures CodeEnd(text, s') == Some(e')
  {
    StandsSlice(text, p, body, s, e, s', e');
    CodeEndMoves(body, s, e, text, s', e');
  }

  lemma SpanMoves(text: string, p: nat, body: string, end: nat, s: nat, e: nat, item: RustItem, s': nat, e': nat, item': RustItem)
    requires Stands(text, p, body) && SpanOf(body, 0, |body|, item, s, e)
    requires end == p + |body| && s' == p + s && e' == p + e && item' == MoveItem(item, p)
    ensures SpanOf(text, p, end, item', s', e')
  {
    EdgeMoves(text, p, body, s, s');
    EdgeMoves(text, p, body, e, e');
    SpanStartMoves(text, p, body, s, s', item.start, item'.start);
    SpanEndMoves(text, p, body, e, e', end, item.end, item'.end);
    StandsSlice(text, p, body, item.start, item.end, item'.start, item'.end);
  }

  lemma SpanStartMoves(text: string, p: nat, body: string, s: nat, s': nat, start: nat, start': nat)
    requires Stands(text, p, body) && s <= |body| && s' == p + s && start == LeadingStart(body, 0, s) && start' == p + start
    ensures start' == LeadingStart(text, p, s')
  {
    LeadingMoves(text, p, body, s, s');
  }

  lemma SpanEndMoves(text: string, p: nat, body: string, e: nat, e': nat, upper: nat, end: nat, end': nat)
    requires Stands(text, p, body) && e <= |body| && e' == p + e && upper == p + |body|
    requires end == WithNewline(body, e, |body|) && end' == p + end
    ensures end' == WithNewline(text, e', upper)
  {
    NewlineEndMoves(text, p, body, e, e', upper);
  }

  lemma ItemIs(text: string, bodyStart: nat, bodyEnd: nat, h: Header, e: nat, item: RustItem)
    requires SpanOf(text, bodyStart, bodyEnd, item, h.start, e) && CodeEnd(text, h.start) == Some(e) && item.name == h.name
    ensures ItemAt(text, bodyStart, bodyEnd, h) == Some(item)
  {
    LineStartBefore(text, h.start);
  }

  lemma NewlineEndMoves(text: string, p: nat, body: string, e: nat, e': nat, end: nat)
    requires Stands(text, p, body) && e <= |body| && e' == p + e && end == p + |body|
    ensures WithNewline(text, e', end) == p + WithNewline(body, e, |body|)
  {
    if e < |body| {
      StandsAt(text, p, body, e, e');
    }
  }

  // ----- A whole section -----------------------------------------------------------------

  function MoveItems(items: seq<RustItem>, p: nat): (moved: seq<RustItem>)
    ensures |moved| == |items| && forall i :: 0 <= i < |items| ==> moved[i] == MoveItem(items[i], p)
  {
    seq(|items|, i requires 0 <= i < |items| => MoveItem(items[i], p))
  }

  function MoveHeaders(headers: seq<Header>, p: nat): (moved: seq<Header>)
    ensures |moved| == |headers| && forall i :: 0 <= i < |headers| ==> moved[i] == MoveHeader(headers[i], p)
  {
    seq(|headers|, i requires 0 <= i < |headers| => MoveHeader(headers[i], p))
  }

  lemma HeadersMove(text: string, p: nat, body: string, headers: seq<Header>)
    requires Stands(text, p, body) && HeadersInBody(body, 0, |body|, headers)
    ensures HeadersInBody(text, p, p + |body|, MoveHeaders(headers, p))
  {
    forall i | 0 <= i < |headers|
      ensures text[p + headers[i].start - 1] == '\n'
    {
      StandsAt(text, p, body, headers[i].start - 1, p + headers[i].start - 1);
    }
  }

  lemma ItemsMove(text: string, p: nat, body: string, headers: seq<Header>, items: seq<RustItem>)
    requires Stands(text, p, body) && HeadersInBody(body, 0, |body|, headers) && Parsed(body, 0, |body|, headers, items)
    ensures Parsed(text, p, p + |body|, MoveHeaders(headers, p), MoveItems(items, p))
  {
    forall i | 0 <= i < |headers|
      ensures ItemAt(text, p, p + |body|, MoveHeader(headers[i], p)) == Some(MoveItem(items[i], p))
    {
      ItemMoves(text, p, body, headers[i], items[i]);
    }
  }

  /** The items stay in a body of length `n`; they may overlap. */
  ghost predicate Inside(n: nat, items: seq<RustItem>) {
    forall i :: 0 <= i < |items| ==> items[i].start <= items[i].end <= n
  }

  /** The items found in a text are exactly the body's own, moved, if those stay in the body. */
  lemma ItemsMoveIff(text: string, p: nat, body: string, headers: seq<Header>, items: seq<RustItem>)
    requires Stands(text, p, body) && HeadersInBody(body, 0, |body|, headers) && Inside(|body|, items)
    ensures Parsed(text, p, p + |body|, MoveHeaders(headers, p), MoveItems(items, p)) <==> Parsed(body, 0, |body|, headers, items)
  {
    if Parsed(body, 0, |body|, headers, items) {
      ItemsMove(text, p, body, headers, items);
    }
    if Parsed(text, p, p + |body|, MoveHeaders(headers, p), MoveItems(items, p)) {
      ItemsRead(text, p, body, headers, items);
    }
  }

  lemma ItemsRead(text: string, p: nat, body: string, headers: seq<Header>, items: seq<RustItem>)
    requires Stands(text, p, body) && HeadersInBody(body, 0, |body|, headers) && Inside(|body|, items)
    requires Parsed(text, p, p + |body|, MoveHeaders(headers, p), MoveItems(items, p))
    ensures Parsed(body, 0, |body|, headers, items)
  {
    forall i | 0 <= i < |headers|
      ensures ItemAt(body, 0, |body|, headers[i]) == Some(items[i])
    {
      assert MoveHeaders(headers, p)[i] == MoveHeader(headers[i], p);
      ItemReads(text, p, body, headers[i], items[i]);
    }
  }

  lemma TilesMove(items: seq<RustItem>, n: nat, p: nat)
    ensures Tiles(0, n, items) <==> Tiles(p, p + n, MoveItems(items, p))
  {
    var moved := MoveItems(items, p);
    assert forall i :: 0 <= i < |items| ==> moved[i] == MoveItem(items[i], p);
  }

  /** The section that the items of a body make, at position `p`. */
  function SectionAt(body: string, items: seq<RustItem>, p: nat): RustSection {
    RustSection(p, p + |body|, MoveItems(items, p))
  }

  function BodyPieces(body: string, items: seq<RustItem>): seq<Piece> {
    Pieces(body, RustSection(0, |body|, items))
  }

  lemma SliceMoves(text: string, p: nat, body: string, a: nat, b: nat)
    requires Stands(text, p, body) && b <= |body|
    ensures Slice(text, p + a, p + b) == Slice(body, a, b)
  {
    if a < b {
      StandsSlice(text, p, body, a, b, p + a, p + b);
    }
  }

  lemma CursorMoves(items: seq<RustItem>, p: nat, i: nat)
    requires i <= |items|
    ensures Cursor(p, MoveItems(items, p), i) == p + Cursor(0, items, i)
  {
  }

  lemma GapMoves(text: string, p: nat, body: string, items: seq<RustItem>, k: nat)
    requires Stands(text, p, body) && Inside(|body|, items) && k < |items|
    ensures var moved := MoveItems(items, p);
            Slice(text, Cursor(p, moved, k), moved[k].start) == Slice(body, Cursor(0, items, k), items[k].start)
  {
    CursorMoves(items, p, k);
    SliceMoves(text, p, body, Cursor(0, items, k), items[k].start);
  }

  lemma {:induction false} PiecesMoveUpTo(text: string, p: nat, body: string, items: seq<RustItem>, i: nat)
    requires Stands(text, p, body) && Inside(|body|, items) && i <= |items|
    ensures PiecesUpTo(text, p, MoveItems(items, p), i) == PiecesUpTo(body, 0, items, i)
  {
    if i > 0 {
      var k, moved := i - 1, MoveItems(items, p);
      var gap, fn := Slice(body, Cursor(0, items, k), items[k].start), Fn(items[k].name, items[k].text);
      PiecesMoveUpTo(text, p, body, items, k);
      GapMoves(text, p, body, items, k);
      PiecesStep(body, 0, items, k, gap, fn);
      PiecesStep(text, p, moved, k, gap, fn);
    }
  }

  lemma LastGapMoves(text: string, p: nat, body: string, items: seq<RustItem>)
    requires Stands(text, p, body)
    ensures LastGap(text, SectionAt(body, items, p)) == LastGap(body, RustSection(0, |body|, items))
  {
    CursorMoves(items, p, |items|);
    SliceMoves(text, p, body, Cursor(0, items, |items|), |body|);
  }

  /** The segmentation is the same wherever the body stands. */
  lemma PiecesMove(text: string, p: nat, body: string, items: seq<RustItem>)
    requires Stands(text, p, body) && Inside(|body|, items)
    ensures Pieces(text, SectionAt(body, items, p)) == BodyPieces(body, items)
  {
    PiecesMoveUpTo(text, p, body, items, |items|);
    LastGapMoves(text, p, body, items);
  }
}
