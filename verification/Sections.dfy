/** `parse_items`, and the exact condition under which the spans it finds tile the body. */
module Sections {
  import opened Wrappers
  import opened RustLexer
  import opened ScanTheorems
  import opened Scanners
  import opened Spans

  /** A match of the function-header pattern: the name and where the match begins. */
  datatype Header = Header(name: string, start: nat)

  datatype RustItem = RustItem(name: string, start: nat, end: nat, text: string)

  /** One past the last character of the function whose header starts at `start`. */
  function CodeEnd(text: string, start: nat): (e: Option<nat>)
    ensures e.Some? ==> start < e.value <= |text| && (text[e.value - 1] == ';' || text[e.value - 1] == '}')
  {
    var terminator := Scan(SignatureEnd, text, start, "");
    if terminator.None? then None
    else
      ScanStopsAt(SignatureEnd, text, start, terminator.value, "");
      if text[terminator.value] == ';' then Some(terminator.value + 1)
      else
        var close := Scan(CloseBrace, text, terminator.value, "");
        if close.None? then None
        else
          ScanStopsAt(CloseBrace, text, terminator.value, close.value, "");
          Some(close.value + 1)
  }

  /** `include_trailing_newline`. */
  function WithNewline(text: string, e: nat, upper: nat): nat {
    if e < upper && e < |text| && text[e] == '\n' then e + 1 else e
  }

  function ItemAt(text: string, bodyStart: nat, bodyEnd: nat, h: Header): Option<RustItem>
    requires h.start <= |text|
  {
    var e := CodeEnd(text, h.start);
    if e.None? then None
    else
      var start := LeadingStart(text, bodyStart, LineStart(text, h.start));
      var end := WithNewline(text, e.value, bodyEnd);
      LineStartBefore(text, h.start);
      Some(RustItem(h.name, start, end, text[start..end]))
  }

  lemma LineStartBefore(text: string, i: nat)
    requires i <= |text|
    ensures LineStart(text, i) <= i
    ensures i > 0 && text[i - 1] == '\n' ==> LineStart(text, i) == i
  {
  }

  /** The end of the signature, or of the block that it opens. */
  lemma SignatureOf(text: string, s: nat, e: nat) returns (t: nat)
    requires CodeEnd(text, s) == Some(e)
    ensures s <= t < e <= |text| && Scan(SignatureEnd, text, s, "") == Some(t)
    ensures text[t] == ';' ==> e == t + 1
    ensures text[t] != ';' ==> Scan(CloseBrace, text, t, "") == Some(e - 1)
  {
    t := Scan(SignatureEnd, text, s, "").value;
  }

  lemma EndsAtSemicolon(text: string, s: nat, t: nat, e: nat)
    requires Scan(SignatureEnd, text, s, "") == Some(t) && t < |text| && text[t] == ';' && e == t + 1
    ensures CodeEnd(text, s) == Some(e)
  {
  }

  lemma EndsAtBrace(text: string, s: nat, t: nat, e: nat)
    requires Scan(SignatureEnd, text, s, "") == Some(t) && t < |text| && text[t] != ';'
    requires e > 0 && Scan(CloseBrace, text, t, "") == Some(e - 1)
    ensures CodeEnd(text, s) == Some(e)
  {
  }

  /** The signature that starts at `s` has its end at `t`, and the function ends at `e`: behind the
      `;`, or behind the block that the `{` opens. */
  ghost predicate EndsVia(text: string, s: nat, t: nat, e: nat) {
    s <= t < e <= |text| && IsSignature(text[s..t + 1]) &&
    if text[t] == ';' then e == t + 1 else text[t] == '{' && IsBlock(text[t..e])
  }

  ghost predicate FunctionEnds(text: string, s: nat, e: nat) {
    exists t: nat :: EndsVia(text, s, t, e)
  }

  lemma CodeEndIs(text: string, s: nat, e: nat)
    ensures CodeEnd(text, s) == Some(e) <==> FunctionEnds(text, s, e)
  {
    if CodeEnd(text, s) == Some(e) {
      var t := SignatureOf(text, s, e);
      ScanEndsVia(text, s, t, e);
    }
    if FunctionEnds(text, s, e) {
      var t: nat :| EndsVia(text, s, t, e);
      EndsViaScan(text, s, t, e);
    }
  }

  lemma SignatureScanned(text: string, s: nat, t: nat)
    requires Scan(SignatureEnd, text, s, "") == Some(t)
    ensures s <= t < |text| && IsSignature(text[s..t + 1]) && (text[t] == '{' || text[t] == ';')
  {
    SignatureEndIs(text, s, t);
    ScanStopsAt(SignatureEnd, text, s, t, "");
  }

  lemma ScanEndsVia(text: string, s: nat, t: nat, e: nat)
    requires s <= t < e <= |text| && Scan(SignatureEnd, text, s, "") == Some(t)
    requires text[t] == ';' ==> e == t + 1
    requires text[t] != ';' ==> Scan(CloseBrace, text, t, "") == Some(e - 1)
    ensures EndsVia(text, s, t, e)
  {
    SignatureScanned(text, s, t);
    if text[t] != ';' {
      BlockScanned(text, t, e);
    }
  }

  lemma EndsViaScan(text: string, s: nat, t: nat, e: nat)
    requires EndsVia(text, s, t, e)
    ensures CodeEnd(text, s) == Some(e)
  {
    SignatureEndIs(text, s, t);
    if text[t] == ';' {
      EndsAtSemicolon(text, s, t, e);
    } else {
      BlockScanned(text, t, e);
      EndsAtBrace(text, s, t, e);
    }
  }

  method FindCodeEnd(text: string, start: nat) returns (e: Option<nat>)
    ensures e == CodeEnd(text, start)
  {
    var at := ScanForTerminator(text, start);
    if at.None? {
      return None;
    }
    if text[at.value] == ';' {
      return Some(at.value + 1);
    }
    var close := ScanForBrace(text, at.value);
    if close.None? {
      return None;
    }
    return Some(close.value + 1);
  }

  /** The item of one header match. */
  method ParseItem(text: string, bodyStart: nat, bodyEnd: nat, h: Header) returns (r: Option<RustItem>)
    requires h.start <= |text|
    ensures r == ItemAt(text, bodyStart, bodyEnd, h)
  {
    var itemStart := IncludeLeadingDocs(text, bodyStart, h.start);
    var codeEnd := FindCodeEnd(text, h.start);
    if codeEnd.None? {
      return None;
    }
    var itemEnd := WithNewline(text, codeEnd.value, bodyEnd);
    LineStartBefore(text, h.start);
    return Some(RustItem(h.name, itemStart, itemEnd, text[itemStart..itemEnd]));
  }

  /** `parse_items`: every header yields its item, or the first scan that fails aborts. */
  method ParseItems(text: string, bodyStart: nat, bodyEnd: nat, headers: seq<Header>)
    returns (r: Option<seq<RustItem>>)
    requires forall i :: 0 <= i < |headers| ==> headers[i].start <= |text|
    ensures r.Some? <==> forall i :: 0 <= i < |headers| ==> ItemAt(text, bodyStart, bodyEnd, headers[i]).Some?
    ensures r.Some? ==> Parsed(text, bodyStart, bodyEnd, headers, r.value)
  {
    var items: seq<RustItem> := [];
    for i := 0 to |headers|
      invariant |items| == i
      invariant forall j :: 0 <= j < i ==> ItemAt(text, bodyStart, bodyEnd, headers[j]) == Some(items[j])
    {
      var item := ParseItem(text, bodyStart, bodyEnd, headers[i]);
      if item.None? {
        return None;
      }
      items := items + [item.value];
    }
    return Some(items);
  }

  ghost predicate Parsed(text: string, bodyStart: nat, bodyEnd: nat, headers: seq<Header>, items: seq<RustItem>) {
    |items| == |headers| &&
    forall i :: 0 <= i < |headers| ==>
      headers[i].start <= |text| && ItemAt(text, bodyStart, bodyEnd, headers[i]) == Some(items[i])
  }

  // ----- Tiling --------------------------------------------------------------------------

  /** What the header pattern guarantees: matches stand at line starts inside the body, in order. */
  ghost predicate HeadersInBody(text: string, bodyStart: nat, bodyEnd: nat, headers: seq<Header>) {
    bodyEnd <= |text| &&
    (forall i :: 0 <= i < |headers| ==>
       bodyStart < headers[i].start < bodyEnd && text[headers[i].start - 1] == '\n') &&
    (forall i, j :: 0 <= i < j < |headers| ==> headers[i].start < headers[j].start)
  }

  ghost predicate Tiles(bodyStart: nat, bodyEnd: nat, items: seq<RustItem>) {
    (forall i :: 0 <= i < |items| ==> bodyStart <= items[i].start < items[i].end <= bodyEnd) &&
    (forall i :: 0 < i < |items| ==> items[i - 1].end <= items[i].start)
  }

  /** Between a function's end at `e` and the header at `s` some line is neither blank, doc
      comment nor attribute; the line that ends the function itself may be that line. */
  ghost predicate Fenced(text: string, bodyStart: nat, e: nat, s: nat) {
    exists q :: e <= q <= s && bodyStart < q <= |text| &&
                Boundary(text, bodyStart, q) && !LineAttached(text, bodyStart, q)
  }

  /** Two neighbouring spans are disjoint exactly when such a line stands between them. */
  lemma DisjointIff(text: string, bodyStart: nat, bodyEnd: nat, e: nat, s: nat)
    requires bodyStart < e <= s < bodyEnd <= |text| && text[e - 1] != '\n' && text[s - 1] == '\n'
    ensures WithNewline(text, e, bodyEnd) <= LeadingStart(text, bodyStart, s) <==> Fenced(text, bodyStart, e, s)
  {
    var r := LeadingStart(text, bodyStart, s);
    LeadingRunIs(text, bodyStart, r, s);
    if e <= r {
      assert !LineAttached(text, bodyStart, r);
    }
    if Fenced(text, bodyStart, e, s) {
      FencedApart(text, bodyStart, e, s, r);
    }
  }

  lemma FencedApart(text: string, bodyStart: nat, e: nat, s: nat, r: nat)
    requires bodyStart < e <= s <= |text| && text[e - 1] != '\n'
    requires LeadingRun(text, bodyStart, r, s) && Fenced(text, bodyStart, e, s)
    ensures e <= r && (r == e ==> s == e)
  {
    var q :| e <= q <= s && bodyStart < q <= |text| &&
             Boundary(text, bodyStart, q) && !LineAttached(text, bodyStart, q);
    assert q <= r;
  }

  ghost predicate Apart(text: string, bodyStart: nat, bodyEnd: nat, starts: seq<nat>, ends: seq<nat>)
    requires |starts| == |ends|
  {
    (forall i :: 0 <= i < |starts| ==> ends[i] <= bodyEnd) &&
    (forall i :: 0 < i < |starts| ==> ends[i - 1] <= starts[i] && Fenced(text, bodyStart, ends[i - 1], starts[i]))
  }

  /** The header positions and the ends the scanners find for them. */
  ghost predicate Ends(text: string, headers: seq<Header>, starts: seq<nat>, ends: seq<nat>) {
    |headers| == |starts| == |ends| &&
    forall i :: 0 <= i < |headers| ==> starts[i] == headers[i].start && CodeEnd(text, starts[i]) == Some(ends[i])
  }

  /** The item of a header at line start `s` whose function ends at `e`. */
  ghost predicate SpanOf(text: string, bodyStart: nat, bodyEnd: nat, item: RustItem, s: nat, e: nat) {
    bodyStart < s < bodyEnd <= |text| && text[s - 1] == '\n' &&
    bodyStart <= item.start <= s < e <= item.end <= |text| && text[e - 1] != '\n' &&
    item.start == LeadingStart(text, bodyStart, s) && item.end == WithNewline(text, e, bodyEnd) &&
    item.text == text[item.start..item.end]
  }

  lemma ItemFacts(text: string, bodyStart: nat, bodyEnd: nat, h: Header, item: RustItem, e: nat)
    requires bodyStart < h.start < bodyEnd <= |text| && text[h.start - 1] == '\n'
    requires ItemAt(text, bodyStart, bodyEnd, h) == Some(item) && CodeEnd(text, h.start) == Some(e)
    ensures SpanOf(text, bodyStart, bodyEnd, item, h.start, e)
  {
    ItemParts(text, bodyStart, bodyEnd, h, item, e);
    LeadingInBody(text, bodyStart, h.start);
  }

  /** What one header yields, without reference to the scanners: its name, the maximal run of doc
      lines above it, the end of its function and the newline behind that, if it is in the body. */
  ghost predicate IsItem(text: string, bodyStart: nat, bodyEnd: nat, h: Header, item: RustItem, e: nat) {
    bodyStart <= h.start < e <= |text| && FunctionEnds(text, h.start, e) && item.name == h.name &&
    LeadingRun(text, bodyStart, item.start, h.start) &&
    item.end == (if e < bodyEnd && e < |text| && text[e] == '\n' then e + 1 else e) &&
    item.text == text[item.start..item.end]
  }

  lemma ItemIff(text: string, bodyStart: nat, bodyEnd: nat, h: Header, item: RustItem)
    requires bodyStart < h.start < bodyEnd <= |text| && text[h.start - 1] == '\n'
    ensures ItemAt(text, bodyStart, bodyEnd, h) == Some(item) <==> exists e: nat :: IsItem(text, bodyStart, bodyEnd, h, item, e)
  {
    if ItemAt(text, bodyStart, bodyEnd, h) == Some(item) {
      ParsedItemIs(text, bodyStart, bodyEnd, h, item, CodeEnd(text, h.start).value);
    }
    if exists e: nat :: IsItem(text, bodyStart, bodyEnd, h, item, e) {
      var e: nat :| IsItem(text, bodyStart, bodyEnd, h, item, e);
      IsTheItem(text, bodyStart, bodyEnd, h, item, e);
    }
  }

  lemma ParsedItemIs(text: string, bodyStart: nat, bodyEnd: nat, h: Header, item: RustItem, e: nat)
    requires bodyStart < h.start < bodyEnd <= |text| && text[h.start - 1] == '\n'
    requires ItemAt(text, bodyStart, bodyEnd, h) == Some(item) && CodeEnd(text, h.start) == Some(e)
    ensures IsItem(text, bodyStart, bodyEnd, h, item, e)
  {
    CodeEndIs(text, h.start, e);
    ItemParts(text, bodyStart, bodyEnd, h, item, e);
    LeadingRunIs(text, bodyStart, item.start, h.start);
  }

  lemma IsTheItem(text: string, bodyStart: nat, bodyEnd: nat, h: Header, item: RustItem, e: nat)
    requires 0 < h.start <= |text| && text[h.start - 1] == '\n' && IsItem(text, bodyStart, bodyEnd, h, item, e)
    ensures ItemAt(text, bodyStart, bodyEnd, h) == Some(item)
  {
    CodeEndIs(text, h.start, e);
    LeadingRunIs(text, bodyStart, item.start, h.start);
    LineStartBefore(text, h.start);
  }

  lemma ItemParts(text: string, bodyStart: nat, bodyEnd: nat, h: Header, item: RustItem, e: nat)
    requires 0 < h.start < bodyEnd <= |text| && text[h.start - 1] == '\n'
    requires ItemAt(text, bodyStart, bodyEnd, h) == Some(item) && CodeEnd(text, h.start) == Some(e)
    ensures item.start == LeadingStart(text, bodyStart, h.start) && item.end == WithNewline(text, e, bodyEnd)
    ensures item.start <= item.end <= |text| && item.text == text[item.start..item.end]
  {
    LineStartBefore(text, h.start);
  }

  lemma LeadingInBody(text: string, bodyStart: nat, s: nat)
    requires bodyStart <= s <= |text|
    ensures bodyStart <= LeadingStart(text, bodyStart, s) <= s
  {
    LeadingRunIs(text, bodyStart, LeadingStart(text, bodyStart, s), s);
  }

  /** The spans tile the body exactly when no function reaches past the body or into the next
      header and a line that is neither blank, doc nor attribute keeps neighbours apart. */
  lemma TilesIff(text: string, bodyStart: nat, bodyEnd: nat, headers: seq<Header>, items: seq<RustItem>, starts: seq<nat>, ends: seq<nat>)
    requires HeadersInBody(text, bodyStart, bodyEnd, headers)
    requires Parsed(text, bodyStart, bodyEnd, headers, items) && Ends(text, headers, starts, ends)
    ensures Tiles(bodyStart, bodyEnd, items) <==> Apart(text, bodyStart, bodyEnd, starts, ends)
  {
    forall i | 0 <= i < |headers|
      ensures SpanOf(text, bodyStart, bodyEnd, items[i], starts[i], ends[i])
    {
      ItemFacts(text, bodyStart, bodyEnd, headers[i], items[i], ends[i]);
    }
    if Tiles(bodyStart, bodyEnd, items) {
      TilesApart(text, bodyStart, bodyEnd, items, starts, ends);
    } else if Apart(text, bodyStart, bodyEnd, starts, ends) {
      ApartTiles(text, bodyStart, bodyEnd, items, starts, ends);
    }
  }

  lemma NeighboursApart(text: string, bodyStart: nat, bodyEnd: nat,
                        one: RustItem, s: nat, e: nat, two: RustItem, s': nat, e': nat)
    requires SpanOf(text, bodyStart, bodyEnd, one, s, e) && SpanOf(text, bodyStart, bodyEnd, two, s', e')
    ensures one.end <= two.start <==> e <= s' && Fenced(text, bodyStart, e, s')
  {
    if e <= s' {
      DisjointIff(text, bodyStart, bodyEnd, e, s');
    }
  }

  lemma TilesApart(text: string, bodyStart: nat, bodyEnd: nat, items: seq<RustItem>, starts: seq<nat>, ends: seq<nat>)
    requires |items| == |starts| == |ends|
    requires forall i :: 0 <= i < |items| ==> SpanOf(text, bodyStart, bodyEnd, items[i], starts[i], ends[i])
    requires Tiles(bodyStart, bodyEnd, items)
    ensures Apart(text, bodyStart, bodyEnd, starts, ends)
  {
    forall i | 0 < i < |items|
      ensures ends[i - 1] <= starts[i] && Fenced(text, bodyStart, ends[i - 1], starts[i])
    {
      NeighboursApart(text, bodyStart, bodyEnd, items[i - 1], starts[i - 1], ends[i - 1], items[i], starts[i], ends[i]);
    }
  }

  lemma ApartTiles(text: string, bodyStart: nat, bodyEnd: nat, items: seq<RustItem>, starts: seq<nat>, ends: seq<nat>)
    requires |items| == |starts| == |ends|
    requires forall i :: 0 <= i < |items| ==> SpanOf(text, bodyStart, bodyEnd, items[i], starts[i], ends[i])
    requires Apart(text, bodyStart, bodyEnd, starts, ends)
    ensures Tiles(bodyStart, bodyEnd, items)
  {
    forall i | 0 < i < |items|
      ensures items[i - 1].end <= items[i].start
    {
      NeighboursApart(text, bodyStart, bodyEnd, items[i - 1], starts[i - 1], ends[i - 1], items[i], starts[i], ends[i]);
    }
  }

  /** A function whose last line starts with neither `///` nor `#[` fences itself off. */
  lemma EndingLineFences(text: string, bodyStart: nat, e: nat, s: nat, q: nat)
    requires bodyStart < e <= s <= |text| && text[s - 1] == '\n'
    requires text[e - 1] == '}' || text[e - 1] == ';'
    requires LineEnd(text, e - 1) == Some(q)
    ensures bodyStart < q <= |text|
    ensures var line := Strip(text[PrevLine(text, bodyStart, q)..q]);
            !("///" <= line) && !("#[" <= line) ==> Fenced(text, bodyStart, e, s)
  {
    FirstLineEnd(text, e - 1, q, s - 1);
    var p := PrevLine(text, bodyStart, q);
    StripKeeps(text[p..q], e - 1 - p);
    AttachedIff(text[p..q]);
    assert Boundary(text, bodyStart, q);
  }

  lemma {:induction false} FirstLineEnd(text: string, i: nat, q: nat, k: nat)
    requires LineEnd(text, i) == Some(q) && i <= k < |text| && text[k] == '\n'
    ensures i < q <= k + 1 && text[q - 1] == '\n'
    ensures forall j :: i <= j < q - 1 ==> text[j] != '\n'
    decreases k - i
  {
    if text[i] != '\n' {
      FirstLineEnd(text, i + 1, q, k);
    }
  }

  lemma {:induction false} StripKeeps(s: string, k: nat)
    requires k < |s| && !IsSpace(s[k])
    ensures Strip(s) != ""
    decreases |s|
  {
    if IsSpace(s[0]) {
      StripKeeps(s[1..], k - 1);
    } else if IsSpace(s[|s| - 1]) {
      StripKeeps(s[..|s| - 1], k);
    }
  }
}
