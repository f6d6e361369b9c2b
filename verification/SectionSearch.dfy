/** `find_section`: from the match of a section's pattern to its body and items. */
module SectionSearch {
  import opened Wrappers
  import opened RustLexer
  import opened Scanners
  import opened Spans
  import opened Sections
  import opened Merge
  import opened MergeFrame
  import opened PatchText
  import opened Reassembly
  import opened PatchTheorems

  datatype SectionError = NoSection | NoOpeningBrace | Unterminated

  /** Where the section's pattern matches. */
  datatype Match = Match(start: nat, end: nat)

  /** The opening brace is the first one of the match and the body ends at its matching brace. */
  ghost predicate Delimits(text: string, m: Match, section: RustSection) {
    m.start < section.bodyStart <= m.end && section.bodyStart <= |text| && text[section.bodyStart - 1] == '{' &&
    (forall k :: m.start <= k < section.bodyStart - 1 ==> text[k] != '{') &&
    Scan(CloseBrace, text, section.bodyStart - 1, "") == Some(section.bodyEnd)
  }

  /** `text.find("{", start, end)`. */
  method FindBrace(text: string, m: Match) returns (k: nat)
    requires m.start <= m.end <= |text|
    ensures m.start <= k <= m.end && forall i :: m.start <= i < k ==> text[i] != '{'
    ensures k < m.end ==> text[k] == '{'
  {
    k := m.start;
    while k < m.end && text[k] != '{'
      invariant m.start <= k <= m.end && forall i :: m.start <= i < k ==> text[i] != '{'
    {
      k := k + 1;
    }
  }

  /** `found` is the pattern's match, if any; `headersOf` gives the header matches in a body. */
  method FindSection(text: string, found: Option<Match>, headersOf: (nat, nat) -> seq<Header>, required: bool)
    returns (r: Result<Option<RustSection>, SectionError>)
    requires found.Some? ==> found.value.start <= found.value.end <= |text|
    requires forall a, b :: 0 < a <= b <= |text| && text[a - 1] == '{' ==> HeadersInBody(text, a, b, headersOf(a, b))
    ensures found.None? ==> r == if required then Failure(NoSection) else Success(None)
    ensures found.Some? && r.Failure? ==>
              forall section :: Delimits(text, found.value, section) ==>
                exists h :: h in headersOf(section.bodyStart, section.bodyEnd) && CodeEnd(text, h.start).None?
    ensures found.Some? && r.Success? ==>
              r.value.Some? && Delimits(text, found.value, r.value.value) && InText(r.value.value, text) &&
              Parsed(text, r.value.value.bodyStart, r.value.value.bodyEnd,
                     headersOf(r.value.value.bodyStart, r.value.value.bodyEnd), r.value.value.items)
  {
    if found.None? {
      return if required then Failure(NoSection) else Success(None);
    }
    var open := FindBrace(text, found.value);
    if open == found.value.end {
      return Failure(NoOpeningBrace);
    }
    var section := ReadSection(text, open, headersOf);
    if section.None? {
      NoOtherBrace(text, found.value, open);
      return Failure(Unterminated);
    }
    return Success(Some(section.value));
  }

  /** The body behind an opening brace and its items, or none when a scan fails. */
  method ReadSection(text: string, open: nat, headersOf: (nat, nat) -> seq<Header>) returns (r: Option<RustSection>)
    requires open < |text| && text[open] == '{'
    requires forall a, b :: 0 < a <= b <= |text| && text[a - 1] == '{' ==> HeadersInBody(text, a, b, headersOf(a, b))
    ensures r.Some? ==>
              r.value.bodyStart == open + 1 && Scan(CloseBrace, text, open, "") == Some(r.value.bodyEnd) && InText(r.value, text) &&
              Parsed(text, r.value.bodyStart, r.value.bodyEnd, headersOf(r.value.bodyStart, r.value.bodyEnd), r.value.items)
    ensures r.None? && Scan(CloseBrace, text, open, "").Some? ==>
              exists h :: h in headersOf(open + 1, Scan(CloseBrace, text, open, "").value) && CodeEnd(text, h.start).None?
  {
    var close := FindMatchingBrace(text, open);
    if close.None? {
      return None;
    }
    ScanStarts(text, open, close.value);
    var headers := headersOf(open + 1, close.value);
    assert HeadersInBody(text, open + 1, close.value, headers);
    var items := ParseItems(text, open + 1, close.value, headers);
    if items.None? {
      MissingEnd(text, open + 1, close.value, headers);
      return None;
    }
    return Some(RustSection(open + 1, close.value, items.value));
  }

  lemma ScanStarts(text: string, open: nat, close: nat)
    requires open < |text| && text[open] == '{' && Scan(CloseBrace, text, open, "") == Some(close)
    ensures open < close < |text|
  {
    ScanStopsAt(CloseBrace, text, open, close, "");
  }

  lemma NoOtherBrace(text: string, m: Match, open: nat)
    requires m.start <= open < m.end <= |text| && text[open] == '{'
    requires forall i :: m.start <= i < open ==> text[i] != '{'
    ensures forall section :: Delimits(text, m, section) ==>
              section.bodyStart == open + 1 && Scan(CloseBrace, text, open, "") == Some(section.bodyEnd)
  {
    forall section | Delimits(text, m, section)
      ensures section.bodyStart == open + 1
    {
    }
  }

  lemma MissingEnd(text: string, bodyStart: nat, bodyEnd: nat, headers: seq<Header>)
    requires HeadersInBody(text, bodyStart, bodyEnd, headers)
    requires exists i :: 0 <= i < |headers| && ItemAt(text, bodyStart, bodyEnd, headers[i]).None?
    ensures exists h :: h in headers && CodeEnd(text, h.start).None?
  {
    var i :| 0 <= i < |headers| && ItemAt(text, bodyStart, bodyEnd, headers[i]).None?;
    assert headers[i] in headers;
  }

  /** A found section's gaps and items give back its body, and all theorems about tiled sections
      apply to it, exactly when its functions stay apart. */
  lemma FoundIsTiledIff(text: string, section: RustSection, headers: seq<Header>, starts: seq<nat>, ends: seq<nat>)
    requires InText(section, text) && HeadersInBody(text, section.bodyStart, section.bodyEnd, headers)
    requires Parsed(text, section.bodyStart, section.bodyEnd, headers, section.items) && Ends(text, headers, starts, ends)
    ensures Tiled(text, section) <==> Apart(text, section.bodyStart, section.bodyEnd, starts, ends)
  {
    TilesIff(text, section.bodyStart, section.bodyEnd, headers, section.items, starts, ends);
    ParsedIsSliced(text, section, headers);
  }

  /** The same conditions for a section that was found, in terms of its functions. */
  lemma FoundKeepsIff(text: string, section: RustSection, headers: seq<Header>, starts: seq<nat>, ends: seq<nat>,
                      gen: seq<Item>, targets: set<string>)
    requires InText(section, text) && HeadersInBody(text, section.bodyStart, section.bodyEnd, headers)
    requires Parsed(text, section.bodyStart, section.bodyEnd, headers, section.items) && Ends(text, headers, starts, ends)
    ensures PatchedText(text, section, gen, {}) == text <==> Apart(text, section.bodyStart, section.bodyEnd, starts, ends)
    ensures (PatchedCount(text, section, gen, targets) == 0 <==> PatchedText(text, section, gen, targets) == text) <==>
            Apart(text, section.bodyStart, section.bodyEnd, starts, ends) || !Settled(gen, targets, Pieces(text, section))
  {
    ParsedIsSliced(text, section, headers);
    TilesIff(text, section.bodyStart, section.bodyEnd, headers, section.items, starts, ends);
    NoTargetsNoChange(text, section, gen);
    CountIsZeroIff(text, section, gen, targets);
  }

  /** The line on which a function ends starts with neither `///` nor `#[`. */
  ghost predicate EndsPlainly(text: string, bodyStart: nat, e: nat)
    requires bodyStart < e <= |text|
  {
    var q := LineEnd(text, e - 1);
    q.Some? ==>
      var line := Strip(text[PrevLine(text, bodyStart, q.value)..q.value]);
      !("///" <= line) && !("#[" <= line)
  }

  /** Functions that end inside the body and before the next header, on lines that start with
      neither `///` nor `#[`, yield items that reassemble to the body. */
  lemma PlainSectionReassembles(text: string, section: RustSection, headers: seq<Header>, starts: seq<nat>, ends: seq<nat>)
    requires InText(section, text) && HeadersInBody(text, section.bodyStart, section.bodyEnd, headers)
    requires Parsed(text, section.bodyStart, section.bodyEnd, headers, section.items) && Ends(text, headers, starts, ends)
    requires forall i :: 0 <= i < |ends| ==>
               section.bodyStart < ends[i] <= section.bodyEnd && EndsPlainly(text, section.bodyStart, ends[i])
    requires forall i :: 0 < i < |ends| ==> ends[i - 1] <= starts[i]
    ensures Tiled(text, section)
    ensures Flatten(Pieces(text, section)) == text[section.bodyStart..section.bodyEnd]
  {
    AllFramed(text, section.bodyStart, section.bodyEnd, headers, starts, ends);
    PlainlyApart(text, section.bodyStart, section.bodyEnd, starts, ends);
    FoundIsTiledIff(text, section, headers, starts, ends);
    ReassemblesIff(text, section);
  }

  /** Headers stand at line starts and functions end with a brace or a semicolon. */
  ghost predicate Framed(text: string, s: nat, e: nat) {
    0 < s < |text| && text[s - 1] == '\n' && 0 < e <= |text| && (text[e - 1] == '}' || text[e - 1] == ';')
  }

  lemma AllFramed(text: string, bodyStart: nat, bodyEnd: nat, headers: seq<Header>, starts: seq<nat>, ends: seq<nat>)
    requires HeadersInBody(text, bodyStart, bodyEnd, headers) && Ends(text, headers, starts, ends)
    ensures forall i :: 0 <= i < |ends| ==> Framed(text, starts[i], ends[i])
  {
    forall i | 0 <= i < |ends|
      ensures Framed(text, starts[i], ends[i])
    {
      assert CodeEnd(text, headers[i].start) == Some(ends[i]);
    }
  }

  lemma PlainlyApart(text: string, bodyStart: nat, bodyEnd: nat, starts: seq<nat>, ends: seq<nat>)
    requires |starts| == |ends| && bodyEnd <= |text| && forall i :: 0 <= i < |ends| ==> Framed(text, starts[i], ends[i])
    requires forall i :: 0 <= i < |ends| ==> bodyStart < ends[i] <= bodyEnd && EndsPlainly(text, bodyStart, ends[i])
    requires forall i :: 0 < i < |ends| ==> ends[i - 1] <= starts[i]
    ensures Apart(text, bodyStart, bodyEnd, starts, ends)
  {
    forall i | 0 < i < |ends|
      ensures Fenced(text, bodyStart, ends[i - 1], starts[i])
    {
      assert Framed(text, starts[i], ends[i]) && Framed(text, starts[i - 1], ends[i - 1]);
      NeighbourFences(text, bodyStart, ends[i - 1], starts[i]);
    }
  }

  lemma NeighbourFences(text: string, bodyStart: nat, e: nat, s: nat)
    requires bodyStart < e <= s <= |text| && text[s - 1] == '\n' && (text[e - 1] == '}' || text[e - 1] == ';')
    requires EndsPlainly(text, bodyStart, e)
    ensures Fenced(text, bodyStart, e, s)
  {
    HasLineEnd(text, e - 1, s - 1);
    EndingLineFences(text, bodyStart, e, s, LineEnd(text, e - 1).value);
  }

  lemma {:induction false} HasLineEnd(text: string, i: nat, k: nat)
    requires i <= k < |text| && text[k] == '\n'
    ensures LineEnd(text, i).Some?
    decreases k - i
  {
    if text[i] != '\n' {
      HasLineEnd(text, i + 1, k);
    }
  }
}
