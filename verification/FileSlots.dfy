/** A file cut into parts of which some are section bodies: where `find_section` finds a section and
    what patching it replaces, wherever the other parts have moved it. */
module FileSlots {
  import opened Wrappers
  import opened RustLexer
  import opened ScanTheorems
  import opened Sections
  import opened SectionMoves
  import opened Merge
  import opened PatchText
  import opened Reassembly
  import opened SectionSearch

  // ----- A file cut into parts -----------------------------------------------------------

  function Concat(parts: seq<string>): string {
    if parts == [] then "" else parts[0] + Concat(parts[1..])
  }

  lemma {:induction false} ConcatJoin(a: seq<string>, b: seq<string>)
    ensures Concat(a + b) == Concat(a) + Concat(b)
  {
    if a == [] {
      assert a + b == b;
    } else {
      assert (a + b)[1..] == a[1..] + b;
      ConcatJoin(a[1..], b);
      Reassociate(a[0], Concat(a[1..]), Concat(b));
    }
  }

  function Front(parts: seq<string>, k: nat): string
    requires k < |parts|
  {
    Concat(parts[..k])
  }

  function Back(parts: seq<string>, k: nat): string
    requires k < |parts|
  {
    Concat(parts[k + 1..])
  }

  lemma CutAt(parts: seq<string>, k: nat)
    requires k < |parts|
    ensures Concat(parts) == Front(parts, k) + parts[k] + Back(parts, k)
  {
    assert parts == parts[..k] + ([parts[k]] + parts[k + 1..]);
    ConcatJoin(parts[..k], [parts[k]] + parts[k + 1..]);
    assert ([parts[k]] + parts[k + 1..])[1..] == parts[k + 1..];
    Reassociate(Front(parts, k), parts[k], Back(parts, k));
  }

  lemma ReplaceKeepsRest(parts: seq<string>, k: nat, body: string)
    requires k < |parts|
    ensures Front(parts[k := body], k) == Front(parts, k) && Back(parts[k := body], k) == Back(parts, k)
  {
    assert parts[k := body][..k] == parts[..k] && parts[k := body][k + 1..] == parts[k + 1..];
  }

  // ----- Sections in their slots ---------------------------------------------------------

  /** A section: the part that is its body, and the headers and items of that body on its own. */
  datatype Slot = Slot(index: nat, headers: seq<Header>, items: seq<RustItem>)

  /** On its own the body is closed by the brace behind it, and its headers yield its items. */
  ghost predicate Reads(body: string, headers: seq<Header>, items: seq<RustItem>) {
    Scan(CloseBrace, "{" + body + "}", 0, "") == Some(|body| + 1) && HeadersInBody(body, 0, |body|, headers) &&
    Parsed(body, 0, |body|, headers, items)
  }

  lemma ReadsInside(body: string, headers: seq<Header>, items: seq<RustItem>)
    requires HeadersInBody(body, 0, |body|, headers) && Parsed(body, 0, |body|, headers, items)
    ensures Inside(|body|, items)
  {
    ParsedIsSliced(body, RustSection(0, |body|, items), headers);
    assert forall i :: 0 <= i < |items| ==> SliceAt(body, 0, items[i]);
  }

  /** The slot's part stands between an opening and a closing brace. */
  ghost predicate Braced(parts: seq<string>, k: nat) {
    0 < k < |parts| - 1 && parts[k - 1] != "" && parts[k - 1][|parts[k - 1]| - 1] == '{' &&
    parts[k + 1] != "" && parts[k + 1][0] == '}'
  }

  ghost predicate Laid(parts: seq<string>, slot: Slot) {
    Braced(parts, slot.index) && Reads(parts[slot.index], slot.headers, slot.items)
  }

  /** The section as `find_section` sees it in the whole text. */
  function SectionIn(parts: seq<string>, slot: Slot): RustSection
    requires slot.index < |parts|
  {
    SectionAt(parts[slot.index], slot.items, |Front(parts, slot.index)|)
  }

  lemma BodyStands(parts: seq<string>, k: nat)
    requires k < |parts|
    ensures Stands(Concat(parts), |Front(parts, k)|, parts[k])
  {
    CutAt(parts, k);
  }

  lemma BracesStand(parts: seq<string>, k: nat)
    requires Braced(parts, k)
    ensures var p := |Front(parts, k)|;
            p > 0 && Stands(Concat(parts), p - 1, "{" + parts[k] + "}")
  {
    CutAt(parts, k);
    LastOf(parts, k);
    FirstOf(parts, k);
    Enclose(Front(parts, k), parts[k], Back(parts, k));
  }

  lemma LastOf(parts: seq<string>, k: nat)
    requires Braced(parts, k)
    ensures var front := Front(parts, k); front != "" && front[|front| - 1] == '{'
  {
    assert parts[..k] == parts[..k - 1] + [parts[k - 1]];
    ConcatJoin(parts[..k - 1], [parts[k - 1]]);
    assert Concat([parts[k - 1]]) == parts[k - 1] + Concat([]);
  }

  lemma FirstOf(parts: seq<string>, k: nat)
    requires Braced(parts, k)
    ensures var back := Back(parts, k); back != "" && back[0] == '}'
  {
    assert parts[k + 1..][0] == parts[k + 1];
  }

  lemma Enclose(front: string, body: string, back: string)
    requires front != "" && front[|front| - 1] == '{' && back != "" && back[0] == '}'
    ensures Stands(front + body + back, |front| - 1, "{" + body + "}")
  {
  }

  /** What `find_section` checks: the opening brace is matched by the brace behind the body, and
      the headers of the body yield the items. */
  ghost predicate Found(text: string, section: RustSection, headers: seq<Header>) {
    0 < section.bodyStart <= section.bodyEnd <= |text| && text[section.bodyStart - 1] == '{' &&
    Scan(CloseBrace, text, section.bodyStart - 1, "") == Some(section.bodyEnd) &&
    HeadersInBody(text, section.bodyStart, section.bodyEnd, headers) &&
    Parsed(text, section.bodyStart, section.bodyEnd, headers, section.items)
  }

  lemma FoundAt(text: string, p: nat, end: nat, body: string, headers: seq<Header>, items: seq<RustItem>)
    requires Stands(text, p, body) && p > 0 && end == p + |body| && text[p - 1] == '{'
    requires Scan(CloseBrace, text, p - 1, "") == Some(end)
    requires HeadersInBody(body, 0, |body|, headers) && Parsed(body, 0, |body|, headers, items)
    ensures Found(text, RustSection(p, end, MoveItems(items, p)), MoveHeaders(headers, p))
  {
    HeadersMove(text, p, body, headers);
    ItemsMove(text, p, body, headers, items);
  }

  /** Wherever the other parts put it, the section is found in the whole text: its brace is matched
      behind its body and its items are the body's own, moved. */
  lemma FoundInPlace(parts: seq<string>, slot: Slot, section: RustSection)
    requires Laid(parts, slot) && section == SectionIn(parts, slot)
    ensures Found(Concat(parts), section, MoveHeaders(slot.headers, section.bodyStart))
    ensures Tiles(section.bodyStart, section.bodyEnd, section.items) <==> Tiles(0, |parts[slot.index]|, slot.items)
  {
    TilesMove(slot.items, |parts[slot.index]|, section.bodyStart);
    BodyStands(parts, slot.index);
    MatchedInPlace(parts, slot.index, section.bodyStart, section.bodyEnd);
    FoundAt(Concat(parts), section.bodyStart, section.bodyEnd, parts[slot.index], slot.headers, slot.items);
  }

  /** Its segmentation is the body's. */
  lemma PiecesInPlace(parts: seq<string>, slot: Slot)
    requires Laid(parts, slot)
    ensures Pieces(Concat(parts), SectionIn(parts, slot)) == BodyPieces(parts[slot.index], slot.items)
  {
    BodyStands(parts, slot.index);
    ReadsInside(parts[slot.index], slot.headers, slot.items);
    PiecesMove(Concat(parts), |Front(parts, slot.index)|, parts[slot.index], slot.items);
  }

  lemma MatchedInPlace(parts: seq<string>, k: nat, p: nat, end: nat)
    requires Braced(parts, k) && p == |Front(parts, k)| && end == p + |parts[k]|
    requires Scan(CloseBrace, "{" + parts[k] + "}", 0, "") == Some(|parts[k]| + 1)
    ensures var text := Concat(parts);
            0 < p <= |text| && text[p - 1] == '{' && Scan(CloseBrace, text, p - 1, "") == Some(end)
  {
    BracesStand(parts, k);
    MatchMoves(Concat(parts), p - 1, "{" + parts[k] + "}", end);
  }

  lemma MatchMoves(text: string, p: nat, window: string, end: nat)
    requires Stands(text, p, window) && window != "" && end == p + (|window| - 1)
    requires Scan(CloseBrace, window, 0, "") == Some(|window| - 1)
    ensures text[p] == window[0] && Scan(CloseBrace, text, p, "") == Some(end)
  {
    StandsAt(text, p, window, 0, p);
    assert window[0..|window| - 1 + 1] == window;
    ScanIsLocal(CloseBrace, window, 0, |window| - 1, text, p, end);
  }

  // ----- One patch -----------------------------------------------------------------------

  function MergedBody(parts: seq<string>, slot: Slot, gen: seq<Item>, targets: set<string>): string
    requires slot.index < |parts|
  {
    Flatten(Patched(gen, targets, BodyPieces(parts[slot.index], slot.items)))
  }

  /** Patching a section of the text replaces its part and nothing else. */
  lemma PatchReplaces(parts: seq<string>, slot: Slot, gen: seq<Item>, targets: set<string>)
    requires Laid(parts, slot)
    ensures var text, section := Concat(parts), SectionIn(parts, slot);
            InText(section, text) &&
            PatchedText(text, section, gen, targets) == Concat(parts[slot.index := MergedBody(parts, slot, gen, targets)])
  {
    var k, body := slot.index, MergedBody(parts, slot, gen, targets);
    PiecesInPlace(parts, slot);
    CutAt(parts, k);
    CutAt(parts[k := body], k);
    ReplaceKeepsRest(parts, k, body);
    Around(Front(parts, k), parts[k], Back(parts, k));
  }

  lemma Around(front: string, body: string, back: string)
    ensures var all := front + body + back; all[..|front|] == front && all[|front| + |body|..] == back
  {
  }

  // ----- The search ----------------------------------------------------------------------

  /** The header pattern in a body that stands behind a brace: its matches begin lines, in order. */
  ghost predicate FindsLines(headersIn: string -> seq<Header>) {
    forall body: string {:trigger headersIn(body)} :: HeadersInBody(body, 0, |body|, headersIn(body))
  }

  /** The header matches between two bounds of a text. */
  function HeadersAt(headersIn: string -> seq<Header>, text: string): (nat, nat) -> seq<Header> {
    (a: nat, b: nat) => if a <= b <= |text| then MoveHeaders(headersIn(text[a..b]), a) else []
  }

  lemma HeadersAtLines(headersIn: string -> seq<Header>, text: string)
    requires FindsLines(headersIn)
    ensures forall a, b :: 0 < a <= b <= |text| && text[a - 1] == '{' ==> HeadersInBody(text, a, b, HeadersAt(headersIn, text)(a, b))
  {
    forall a, b | 0 < a <= b <= |text| && text[a - 1] == '{'
      ensures HeadersInBody(text, a, b, HeadersAt(headersIn, text)(a, b))
    {
      HeadersMove(text, a, text[a..b], headersIn(text[a..b]));
    }
  }

  /** The first brace of the match is the one before position `p`. */
  ghost predicate OpensAt(text: string, m: Match, p: nat) {
    m.start < p <= m.end <= |text| && text[p - 1] == '{' && forall k :: m.start <= k < p - 1 ==> text[k] != '{'
  }

  /** The section's pattern matches at the slot's own brace, or nowhere when there is no slot. */
  ghost predicate MatchesSlot(found: Option<Match>, parts: seq<string>, slot: Option<Slot>) {
    if slot.None? then found.None?
    else found.Some? && slot.value.index < |parts| && OpensAt(Concat(parts), found.value, |Front(parts, slot.value.index)|)
  }

  function SlotSection(parts: seq<string>, slot: Option<Slot>): Option<RustSection>
    requires slot.Some? ==> slot.value.index < |parts|
  {
    if slot.None? then None else Some(SectionIn(parts, slot.value))
  }

  /** The section of a slot is delimited by the match that opens at the slot. */
  lemma SlotIsDelimited(parts: seq<string>, slot: Slot, m: Match)
    requires Laid(parts, slot) && OpensAt(Concat(parts), m, |Front(parts, slot.index)|)
    ensures Delimits(Concat(parts), m, SectionIn(parts, slot))
  {
    FoundInPlace(parts, slot, SectionIn(parts, slot));
  }

  /** Whatever is delimited by that match and holds the items of the slot's headers is the section
      of the slot. */
  lemma FoundIsSlot(parts: seq<string>, slot: Slot, m: Match, r: RustSection)
    requires Laid(parts, slot) && OpensAt(Concat(parts), m, |Front(parts, slot.index)|) && Delimits(Concat(parts), m, r)
    requires Parsed(Concat(parts), r.bodyStart, r.bodyEnd, MoveHeaders(slot.headers, r.bodyStart), r.items)
    ensures r == SectionIn(parts, slot)
  {
    var section := SectionIn(parts, slot);
    FoundInPlace(parts, slot, section);
    FoundIsUnique(Concat(parts), m, section, slot.headers, r);
  }

  lemma FoundIsUnique(text: string, m: Match, section: RustSection, own: seq<Header>, r: RustSection)
    requires Found(text, section, MoveHeaders(own, section.bodyStart)) && OpensAt(text, m, section.bodyStart)
    requires Delimits(text, m, r) && Parsed(text, r.bodyStart, r.bodyEnd, MoveHeaders(own, r.bodyStart), r.items)
    ensures r == section
  {
    SameOpening(text, m, section.bodyStart, r);
    SameItems(text, section.bodyStart, section.bodyEnd, MoveHeaders(own, section.bodyStart), section.items, r.items);
  }

  lemma SameOpening(text: string, m: Match, p: nat, r: RustSection)
    requires OpensAt(text, m, p) && Delimits(text, m, r)
    ensures r.bodyStart == p
  {
  }

  lemma SameItems(text: string, a: nat, b: nat, headers: seq<Header>, one: seq<RustItem>, two: seq<RustItem>)
    requires Parsed(text, a, b, headers, one) && Parsed(text, a, b, headers, two)
    ensures one == two
  {
  }

  /** The header pattern sees the slot's headers, moved. */
  lemma SlotHeaders(parts: seq<string>, slot: Slot, headersIn: string -> seq<Header>, section: RustSection)
    requires slot.index < |parts| && slot.headers == headersIn(parts[slot.index]) && section == SectionIn(parts, slot)
    ensures HeadersAt(headersIn, Concat(parts))(section.bodyStart, section.bodyEnd) == MoveHeaders(slot.headers, section.bodyStart)
  {
    BodyStands(parts, slot.index);
    HeadersAtBody(headersIn, Concat(parts), section.bodyStart, section.bodyEnd, parts[slot.index]);
  }

  lemma HeadersAtBody(headersIn: string -> seq<Header>, text: string, a: nat, b: nat, body: string)
    requires a <= b <= |text| && text[a..b] == body
    ensures HeadersAt(headersIn, text)(a, b) == MoveHeaders(headersIn(body), a)
  {
  }

  lemma ParsedEnds(text: string, a: nat, b: nat, headers: seq<Header>, items: seq<RustItem>)
    requires Parsed(text, a, b, headers, items)
    ensures forall h :: h in headers ==> CodeEnd(text, h.start).Some?
  {
  }

  /** The search cannot fail, since the slot's section is there and its functions end. */
  lemma SearchSucceeds(parts: seq<string>, slot: Slot, headersIn: string -> seq<Header>, m: Match)
    requires Laid(parts, slot) && slot.headers == headersIn(parts[slot.index])
    requires OpensAt(Concat(parts), m, |Front(parts, slot.index)|)
    ensures exists section :: Delimits(Concat(parts), m, section) &&
              forall h :: h in HeadersAt(headersIn, Concat(parts))(section.bodyStart, section.bodyEnd) ==> CodeEnd(Concat(parts), h.start).Some?
  {
    var section := SectionIn(parts, slot);
    SlotIsDelimited(parts, slot, m);
    SlotHeaders(parts, slot, headersIn, section);
    FoundInPlace(parts, slot, section);
    ParsedEnds(Concat(parts), section.bodyStart, section.bodyEnd, MoveHeaders(slot.headers, section.bodyStart), section.items);
  }

  lemma SearchFinds(parts: seq<string>, slot: Slot, headersIn: string -> seq<Header>, m: Match, r: RustSection)
    requires Laid(parts, slot) && slot.headers == headersIn(parts[slot.index])
    requires OpensAt(Concat(parts), m, |Front(parts, slot.index)|) && Delimits(Concat(parts), m, r)
    requires Parsed(Concat(parts), r.bodyStart, r.bodyEnd, HeadersAt(headersIn, Concat(parts))(r.bodyStart, r.bodyEnd), r.items)
    ensures r == SectionIn(parts, slot)
  {
    var section := SectionIn(parts, slot);
    SlotIsDelimited(parts, slot, m);
    SameOpening(Concat(parts), m, section.bodyStart, r);
    SlotHeaders(parts, slot, headersIn, section);
    FoundIsSlot(parts, slot, m, r);
  }

  /** `find_section` in the whole text finds the slot's section. */
  method FindSlot(text: string, found: Option<Match>, headersIn: string -> seq<Header>, required: bool,
                  ghost parts: seq<string>, ghost slot: Option<Slot>)
    returns (r: Result<Option<RustSection>, SectionError>)
    requires text == Concat(parts) && FindsLines(headersIn) && MatchesSlot(found, parts, slot)
    requires slot.Some? ==> Laid(parts, slot.value) && slot.value.headers == headersIn(parts[slot.value.index])
    ensures r == if slot.None? && required then Failure(NoSection) else Success(SlotSection(parts, slot))
  {
    HeadersAtLines(headersIn, text);
    if slot.Some? {
      SearchSucceeds(parts, slot.value, headersIn, found.value);
    }
    r := FindSection(text, found, HeadersAt(headersIn, text), required);
    if slot.Some? {
      SearchFinds(parts, slot.value, headersIn, found.value, r.value.value);
    }
  }
}
