/** The measured merge on one file: the sections are patched one after the other in the same text,
    and each is merged as if it stood alone, although the earlier ones have moved it. */
module MeasuredFile {
  import opened Wrappers
  import opened Selectors
  import opened Sections
  import opened SectionMoves
  import opened Merge
  import opened PatchText
  import opened Reassembly
  import opened PatchMethod
  import opened MeasuredMerge
  import opened SectionSearch
  import opened FileSlots

  // ----- The run -------------------------------------------------------------------------

  /** The sections lie in different parts with something between them. */
  ghost predicate Separate(slots: seq<Option<Slot>>) {
    forall i, j :: 0 <= i < |slots| && 0 <= j < |slots| && i != j && slots[i].Some? && slots[j].Some? ==>
      slots[i].value.index + 1 < slots[j].value.index || slots[j].value.index + 1 < slots[i].value.index
  }

  ghost predicate LaidAt(parts: seq<string>, slot: Option<Slot>) {
    slot.Some? ==> Laid(parts, slot.value)
  }

  ghost predicate AllLaid(parts: seq<string>, slots: seq<Option<Slot>>) {
    forall i {:trigger LaidAt(parts, slots[i])} :: 0 <= i < |slots| ==> LaidAt(parts, slots[i])
  }

  ghost predicate InRange(parts: seq<string>, slots: seq<Option<Slot>>) {
    forall i :: 0 <= i < |slots| && slots[i].Some? ==> slots[i].value.index < |parts|
  }

  /** The new body of a section, if there is one. */
  function NewBody(parts: seq<string>, slot: Option<Slot>, gen: Option<RustSection>, targets: set<string>): Option<string>
    requires slot.Some? ==> slot.value.index < |parts|
  {
    if slot.None? || gen.None? then None
    else Some(MergedBody(parts, slot.value, Generated(gen.value.items), targets))
  }

  /** The parts with the section's new body in place. */
  function Merged(parts: seq<string>, slot: Option<Slot>, gen: Option<RustSection>, targets: set<string>): seq<string>
    requires slot.Some? ==> slot.value.index < |parts|
  {
    var body := NewBody(parts, slot, gen, targets);
    if body.None? then parts else parts[slot.value.index := body.value]
  }

  ghost predicate IsNewBody(body: Option<string>, parts: seq<string>, slot: Option<Slot>, gen: Option<RustSection>, targets: set<string>) {
    (slot.Some? ==> slot.value.index < |parts|) && body == NewBody(parts, slot, gen, targets)
  }

  function NewBodies(parts: seq<string>, slots: seq<Option<Slot>>, gens: seq<Option<RustSection>>, targets: set<string>)
    : (bodies: seq<Option<string>>)
    requires |slots| == |gens| && InRange(parts, slots)
    ensures |bodies| == |slots| && forall i :: 0 <= i < |slots| ==> bodies[i] == NewBody(parts, slots[i], gens[i], targets)
    ensures forall i :: 0 <= i < |slots| && bodies[i].Some? ==> slots[i].Some?
  {
    seq(|slots|, i requires 0 <= i < |slots| => NewBody(parts, slots[i], gens[i], targets))
  }

  ghost predicate Fill(slots: seq<Option<Slot>>, bodies: seq<Option<string>>) {
    |bodies| == |slots| && forall i :: 0 <= i < |slots| && bodies[i].Some? ==> slots[i].Some?
  }

  /** The parts with the first `n` new bodies in place. */
  function Replaced(parts: seq<string>, slots: seq<Option<Slot>>, bodies: seq<Option<string>>, n: nat): (merged: seq<string>)
    requires n <= |slots| && InRange(parts, slots) && Fill(slots, bodies)
    ensures |merged| == |parts|
  {
    if n == 0 then parts
    else
      var prev := Replaced(parts, slots, bodies, n - 1);
      if bodies[n - 1].None? then prev else prev[slots[n - 1].value.index := bodies[n - 1].value]
  }

  /** A part that is no section's body stays as it is. */
  lemma {:induction false} PartKept(parts: seq<string>, slots: seq<Option<Slot>>, bodies: seq<Option<string>>, n: nat, k: nat)
    requires n <= |slots| && InRange(parts, slots) && Fill(slots, bodies) && k < |parts|
    requires forall m :: 0 <= m < n && bodies[m].Some? ==> slots[m].value.index != k
    ensures Replaced(parts, slots, bodies, n)[k] == parts[k]
  {
    if n > 0 {
      PartKept(parts, slots, bodies, n - 1, k);
    }
  }

  /** A section's part holds its new body, or its old one when there is none. */
  lemma {:induction false} PartReplaced(parts: seq<string>, slots: seq<Option<Slot>>, bodies: seq<Option<string>>, n: nat, i: nat)
    requires i < n <= |slots| && InRange(parts, slots) && Fill(slots, bodies) && Separate(slots) && slots[i].Some?
    ensures Replaced(parts, slots, bodies, n)[slots[i].value.index] ==
            if bodies[i].Some? then bodies[i].value else parts[slots[i].value.index]
    decreases n
  {
    if i < n - 1 {
      PartReplaced(parts, slots, bodies, n - 1, i);
    } else {
      PartKept(parts, slots, bodies, i, slots[i].value.index);
    }
  }

  lemma LaidAgain(parts: seq<string>, merged: seq<string>, slot: Slot, k: nat)
    requires Laid(parts, slot) && k == slot.index && |merged| == |parts|
    requires merged[k - 1] == parts[k - 1] && merged[k] == parts[k] && merged[k + 1] == parts[k + 1]
    ensures Laid(merged, slot)
  {
  }

  /** A section that is still to come has its first body, in its first surroundings. */
  lemma StillLaid(parts: seq<string>, slots: seq<Option<Slot>>, bodies: seq<Option<string>>, j: nat, merged: seq<string>)
    requires j < |slots| && slots[j].Some? && InRange(parts, slots) && AllLaid(parts, slots) && Separate(slots)
    requires Fill(slots, bodies) && merged == Replaced(parts, slots, bodies, j)
    ensures Laid(merged, slots[j].value) && merged[slots[j].value.index] == parts[slots[j].value.index]
  {
    var slot := slots[j].value;
    var k := slot.index;
    assert LaidAt(parts, slots[j]);
    forall m | 0 <= m < j && bodies[m].Some?
      ensures slots[m].value.index + 1 < k || k + 1 < slots[m].value.index
    {
    }
    PartKept(parts, slots, bodies, j, k - 1);
    PartKept(parts, slots, bodies, j, k);
    PartKept(parts, slots, bodies, j, k + 1);
    LaidAgain(parts, merged, slot, k);
  }

  lemma SameBody(parts: seq<string>, current: seq<string>, slot: Option<Slot>, gen: Option<RustSection>, targets: set<string>)
    requires |current| == |parts| && (slot.Some? ==> slot.value.index < |parts| && current[slot.value.index] == parts[slot.value.index])
    ensures NewBody(current, slot, gen, targets) == NewBody(parts, slot, gen, targets)
  {
  }

  // ----- The run with its searches -------------------------------------------------------

  /** A section that is required is in both files. */
  ghost predicate Present(required: bool, slot: Option<Slot>, gen: Option<RustSection>) {
    required ==> slot.Some? && gen.Some?
  }

  ghost predicate PresentUpTo(required: seq<bool>, slots: seq<Option<Slot>>, gens: seq<Option<RustSection>>, n: nat)
    requires n <= |slots| == |gens| == |required|
  {
    n == 0 || (PresentUpTo(required, slots, gens, n - 1) && Present(required[n - 1], slots[n - 1], gens[n - 1]))
  }

  lemma {:induction false} AbsentBefore(required: seq<bool>, slots: seq<Option<Slot>>, gens: seq<Option<RustSection>>, i: nat, n: nat)
    requires i < n <= |slots| == |gens| == |required| && !Present(required[i], slots[i], gens[i])
    ensures !PresentUpTo(required, slots, gens, n)
  {
    if i < n - 1 {
      AbsentBefore(required, slots, gens, i, n - 1);
    }
  }

  /** One `patch_section` call on the whole text. */
  method MergeOne(text: string, found: Option<Match>, headersIn: string -> seq<Header>, required: bool,
                  gen: Option<RustSection>, targets: seq<string>, ghost parts: seq<string>, ghost slot: Option<Slot>)
    returns (r: Result<string, SectionError>)
    requires text == Concat(parts) && FindsLines(headersIn) && MatchesSlot(found, parts, slot)
    requires slot.Some? ==> Laid(parts, slot.value) && slot.value.headers == headersIn(parts[slot.value.index])
    ensures r == if Present(required, slot, gen) then Success(Concat(Merged(parts, slot, gen, ToSet(targets)))) else Failure(NoSection)
  {
    var search := FindSlot(text, found, headersIn, required, parts, slot);
    if search.Failure? || (required && gen.None?) {
      return Failure(NoSection);
    }
    PatchMerges(parts, slot, gen, ToSet(targets));
    var patched, _ := PatchSection(text, search.value, gen, targets);
    return Success(patched);
  }

  lemma PatchMerges(parts: seq<string>, slot: Option<Slot>, gen: Option<RustSection>, targets: set<string>)
    requires slot.Some? ==> Laid(parts, slot.value)
    ensures slot.Some? ==> InText(SectionIn(parts, slot.value), Concat(parts))
    ensures slot.Some? && gen.Some? ==>
              PatchedText(Concat(parts), SectionIn(parts, slot.value), Generated(gen.value.items), targets) ==
              Concat(Merged(parts, slot, gen, targets))
  {
    if slot.Some? {
      CutAt(parts, slot.value.index);
      if gen.Some? {
        PatchReplaces(parts, slot.value, Generated(gen.value.items), targets);
      }
    }
  }

  /** Until its own turn has come, a section's pattern matches at the section's brace. */
  ghost predicate Matching(patterns: seq<string -> Option<Match>>, parts: seq<string>, slots: seq<Option<Slot>>, bodies: seq<Option<string>>)
    requires |patterns| == |slots| && InRange(parts, slots) && Fill(slots, bodies)
  {
    forall k, i :: 0 <= k <= i < |slots| ==> MatchAt(patterns[i], parts, slots, bodies, k, i)
  }

  /** After the first `k` patches the pattern matches at slot `i`. */
  ghost predicate MatchAt(pattern: string -> Option<Match>, parts: seq<string>, slots: seq<Option<Slot>>, bodies: seq<Option<string>>, k: nat, i: nat)
    requires k <= i < |slots| && InRange(parts, slots) && Fill(slots, bodies)
  {
    var current := Replaced(parts, slots, bodies, k);
    MatchesSlot(pattern(Concat(current)), current, slots[i])
  }

  ghost predicate OwnAt(headersIn: string -> seq<Header>, parts: seq<string>, slot: Option<Slot>) {
    slot.Some? ==> slot.value.index < |parts| && slot.value.headers == headersIn(parts[slot.value.index])
  }

  /** The header pattern sees each slot's headers in its body. */
  ghost predicate OwnHeaders(headersIn: string -> seq<Header>, parts: seq<string>, slots: seq<Option<Slot>>) {
    forall i {:trigger OwnAt(headersIn, parts, slots[i])} :: 0 <= i < |slots| ==> OwnAt(headersIn, parts, slots[i])
  }

  /** What the patterns are taken to do on one file. */
  ghost predicate Searchable(patterns: seq<string -> Option<Match>>, headersIn: string -> seq<Header>,
                             parts: seq<string>, slots: seq<Option<Slot>>, bodies: seq<Option<string>>)
  {
    |patterns| == |slots| && InRange(parts, slots) && AllLaid(parts, slots) && Separate(slots) && Fill(slots, bodies) &&
    FindsLines(headersIn) && OwnHeaders(headersIn, parts, slots) && Matching(patterns, parts, slots, bodies)
  }

  /** The `i`-th search meets its section in place. */
  lemma ReadyFor(patterns: seq<string -> Option<Match>>, headersIn: string -> seq<Header>,
                 parts: seq<string>, slots: seq<Option<Slot>>, bodies: seq<Option<string>>, i: nat, current: seq<string>)
    requires Searchable(patterns, headersIn, parts, slots, bodies) && i < |slots| && current == Replaced(parts, slots, bodies, i)
    ensures MatchesSlot(patterns[i](Concat(current)), current, slots[i])
    ensures slots[i].Some? ==> Laid(current, slots[i].value) && current[slots[i].value.index] == parts[slots[i].value.index] &&
                               slots[i].value.headers == headersIn(current[slots[i].value.index])
  {
    assert MatchAt(patterns[i], parts, slots, bodies, i, i) && OwnAt(headersIn, parts, slots[i]);
    if slots[i].Some? {
      StillLaid(parts, slots, bodies, i, current);
    }
  }

  /** The `i`-th turn: search, patch, and the text that the next turn sees. */
  method MergeNext(text: string, patterns: seq<string -> Option<Match>>, headersIn: string -> seq<Header>, required: bool,
                   gen: Option<RustSection>, targets: seq<string>, i: nat,
                   ghost parts: seq<string>, ghost slots: seq<Option<Slot>>, ghost bodies: seq<Option<string>>)
    returns (r: Result<string, SectionError>)
    requires Searchable(patterns, headersIn, parts, slots, bodies) && i < |slots|
    requires text == Concat(Replaced(parts, slots, bodies, i)) && IsNewBody(bodies[i], parts, slots[i], gen, ToSet(targets))
    ensures r == if Present(required, slots[i], gen) then Success(Concat(Replaced(parts, slots, bodies, i + 1))) else Failure(NoSection)
  {
    ghost var current := Replaced(parts, slots, bodies, i);
    ReadyFor(patterns, headersIn, parts, slots, bodies, i, current);
    SameBody(parts, current, slots[i], gen, ToSet(targets));
    r := MergeOne(text, patterns[i](text), headersIn, required, gen, targets, current, slots[i]);
  }

  /** The loop of `patch_section` calls on one text. */
  method MergeFile(text: string, patterns: seq<string -> Option<Match>>, headersIn: string -> seq<Header>, required: seq<bool>,
                       gens: seq<Option<RustSection>>, targets: seq<string>,
                       ghost parts: seq<string>, ghost slots: seq<Option<Slot>>, ghost bodies: seq<Option<string>>)
    returns (r: Result<string, SectionError>)
    requires text == Concat(parts) && |slots| == |gens| == |required| && Searchable(patterns, headersIn, parts, slots, bodies)
    requires forall i {:trigger IsNewBody(bodies[i], parts, slots[i], gens[i], ToSet(targets))} :: 0 <= i < |slots| ==>
               IsNewBody(bodies[i], parts, slots[i], gens[i], ToSet(targets))
    ensures r == if PresentUpTo(required, slots, gens, |slots|) then Success(Concat(Replaced(parts, slots, bodies, |slots|)))
                 else Failure(NoSection)
  {
    var merged := text;
    for i := 0 to |patterns|
      invariant PresentUpTo(required, slots, gens, i) && merged == Concat(Replaced(parts, slots, bodies, i))
    {
      r := MergeNext(merged, patterns, headersIn, required[i], gens[i], targets, i, parts, slots, bodies);
      if r.Failure? {
        AbsentBefore(required, slots, gens, i, |slots|);
        return;
      }
      merged := r.value;
    }
    return Success(merged);
  }

  // ----- All or nothing ------------------------------------------------------------------

  function OldPieces(parts: seq<string>, slots: seq<Option<Slot>>): (old': CommittedSections)
    requires InRange(parts, slots)
    ensures |old'| == |slots|
    ensures forall i :: 0 <= i < |slots| ==>
              old'[i] == if slots[i].None? then None else Some(BodyPieces(parts[slots[i].value.index], slots[i].value.items))
  {
    seq(|slots|, i requires 0 <= i < |slots| =>
      if slots[i].None? then None else Some(BodyPieces(parts[slots[i].value.index], slots[i].value.items)))
  }

  function NewItems(gens: seq<Option<RustSection>>): (new': GeneratedSections)
    ensures |new'| == |gens|
    ensures forall i :: 0 <= i < |gens| ==> new'[i] == if gens[i].None? then None else Some(Generated(gens[i].value.items))
  {
    seq(|gens|, i requires 0 <= i < |gens| => if gens[i].None? then None else Some(Generated(gens[i].value.items)))
  }

  /** Before anything is patched, the `i`-th search finds its section. */
  method FindNext(text: string, patterns: seq<string -> Option<Match>>, headersIn: string -> seq<Header>, required: bool, i: nat,
                  ghost parts: seq<string>, ghost slots: seq<Option<Slot>>, ghost bodies: seq<Option<string>>)
    returns (r: Result<Option<RustSection>, SectionError>)
    requires Searchable(patterns, headersIn, parts, slots, bodies) && i < |slots| && text == Concat(parts)
    ensures r == if slots[i].None? && required then Failure(NoSection) else Success(SlotSection(parts, slots[i]))
  {
    assert MatchAt(patterns[i], parts, slots, bodies, 0, i) && LaidAt(parts, slots[i]) && OwnAt(headersIn, parts, slots[i]);
    r := FindSlot(text, patterns[i](text), headersIn, required, parts, slots[i]);
  }

  /** The sections found in the file before anything is patched. */
  method FindAll(text: string, patterns: seq<string -> Option<Match>>, headersIn: string -> seq<Header>, required: seq<bool>,
                 ghost parts: seq<string>, ghost slots: seq<Option<Slot>>, ghost bodies: seq<Option<string>>)
    returns (r: Result<seq<Option<RustSection>>, nat>)
    requires text == Concat(parts) && |slots| == |required| && Searchable(patterns, headersIn, parts, slots, bodies)
    ensures r.Success? <==> forall i :: 0 <= i < |slots| && required[i] ==> slots[i].Some?
    ensures r.Success? ==> |r.value| == |slots| && forall i :: 0 <= i < |slots| ==> r.value[i] == SlotSection(parts, slots[i])
  {
    var sections := [];
    for i := 0 to |patterns|
      invariant |sections| == i && forall j :: 0 <= j < i ==> sections[j] == SlotSection(parts, slots[j])
      invariant forall j :: 0 <= j < i && required[j] ==> slots[j].Some?
    {
      var section := FindNext(text, patterns, headersIn, required[i], i, parts, slots, bodies);
      if section.Failure? {
        return Failure(i);
      }
      sections := sections + [section.value];
    }
    return Success(sections);
  }

  /** The segmentations of the sections found. */
  function Segmented(text: string, sections: seq<Option<RustSection>>): (old': CommittedSections)
    ensures |old'| == |sections|
    ensures forall i :: 0 <= i < |sections| ==>
              old'[i] == if sections[i].None? then None else Some(Pieces(text, sections[i].value))
  {
    seq(|sections|, i requires 0 <= i < |sections| => if sections[i].None? then None else Some(Pieces(text, sections[i].value)))
  }

  lemma SegmentedIsOld(parts: seq<string>, slots: seq<Option<Slot>>, sections: seq<Option<RustSection>>)
    requires InRange(parts, slots) && AllLaid(parts, slots) && |sections| == |slots|
    requires forall i :: 0 <= i < |slots| ==> sections[i] == SlotSection(parts, slots[i])
    ensures Segmented(Concat(parts), sections) == OldPieces(parts, slots)
  {
    forall i | 0 <= i < |slots|
      ensures Segmented(Concat(parts), sections)[i] == OldPieces(parts, slots)[i]
    {
      assert LaidAt(parts, slots[i]);
      if slots[i].Some? {
        PiecesInPlace(parts, slots[i].value);
      }
    }
  }

  /** Every section is fit to be merged. */
  ghost predicate AllFit(parts: seq<string>, slots: seq<Option<Slot>>, gens: seq<Option<RustSection>>, targets: set<string>)
    requires |slots| == |gens| == |REQUIRED| && InRange(parts, slots)
  {
    forall i :: 0 <= i < |REQUIRED| ==> Fit(REQUIRED[i], OldPieces(parts, slots)[i], NewItems(gens)[i], targets)
  }

  lemma FitIsPresent(parts: seq<string>, slots: seq<Option<Slot>>, gens: seq<Option<RustSection>>, targets: set<string>)
    requires |slots| == |gens| == |REQUIRED| && InRange(parts, slots) && AllFit(parts, slots, gens, targets)
    ensures PresentUpTo(REQUIRED, slots, gens, |slots|)
    ensures forall i :: 0 <= i < |slots| && REQUIRED[i] ==> slots[i].Some?
  {
    forall i | 0 <= i < |slots|
      ensures Present(REQUIRED[i], slots[i], gens[i])
    {
      assert Fit(REQUIRED[i], OldPieces(parts, slots)[i], NewItems(gens)[i], targets);
    }
    AllPresent(REQUIRED, slots, gens, |slots|);
  }

  lemma {:induction false} AllPresent(required: seq<bool>, slots: seq<Option<Slot>>, gens: seq<Option<RustSection>>, n: nat)
    requires n <= |slots| == |gens| == |required| && forall i :: 0 <= i < n ==> Present(required[i], slots[i], gens[i])
    ensures PresentUpTo(required, slots, gens, n)
  {
    if n > 0 {
      AllPresent(required, slots, gens, n - 1);
    }
  }

  /** `merge_measured_weights_file` on the committed file: nothing is written unless every section
      is fit; otherwise the file differs in the bodies of its sections and nowhere else. */
  method MergeMeasuredFile(names: string, text: string, patterns: seq<string -> Option<Match>>, headersIn: string -> seq<Header>,
                           gens: seq<Option<RustSection>>, ghost parts: seq<string>, ghost slots: seq<Option<Slot>>)
    returns (r: Result<string, MeasuredError>)
    requires text == Concat(parts) && |slots| == |gens| == |REQUIRED| && InRange(parts, slots)
    requires var targets := ParseSelectors(names, false);
             targets.Success? ==> Searchable(patterns, headersIn, parts, slots, NewBodies(parts, slots, gens, ToSet(targets.value)))
    ensures var targets := ParseSelectors(names, false);
            if targets.Success? && targets.value != STAR && AllFit(parts, slots, gens, ToSet(targets.value))
            then r == Success(Concat(Replaced(parts, slots, NewBodies(parts, slots, gens, ToSet(targets.value)), |slots|)))
            else r.Failure?
    ensures var targets := ParseSelectors(names, false);
            r.Success? <==> targets.Success? && targets.value != STAR && Acceptable(OldPieces(parts, slots), NewItems(gens), targets.value)
  {
    var targets := ParseSelectors(names, false);
    if targets.Failure? {
      return Failure(InvalidSelection);
    }
    if targets.value == STAR {
      return Failure(NotExplicit);
    }
    ghost var bodies := NewBodies(parts, slots, gens, ToSet(targets.value));
    AcceptableIff(OldPieces(parts, slots), NewItems(gens), targets.value);
    var found := FindAll(text, patterns, headersIn, REQUIRED, parts, slots, bodies);
    if AllFit(parts, slots, gens, ToSet(targets.value)) {
      FitIsPresent(parts, slots, gens, ToSet(targets.value));
    }
    if found.Failure? {
      return Failure(MissingSection(found.error));
    }
    SegmentedIsOld(parts, slots, found.value);
    var error := Validate(Segmented(text, found.value), NewItems(gens), ToSet(targets.value));
    if error.Some? {
      return Failure(error.value);
    }
    var merged := MergeFile(text, patterns, headersIn, REQUIRED, gens, targets.value, parts, slots, bodies);
    return Success(merged.value);
  }

  /** Each section of the new file is the merge of its own old body, as if it stood alone; without a
      generated section it is the old body. */
  lemma EachMergedAlone(parts: seq<string>, slots: seq<Option<Slot>>, gens: seq<Option<RustSection>>, targets: set<string>, i: nat)
    requires i < |slots| == |gens| && InRange(parts, slots) && Separate(slots) && AllLaid(parts, slots) && slots[i].Some?
    ensures var k, slot := slots[i].value.index, slots[i].value;
            var body := Replaced(parts, slots, NewBodies(parts, slots, gens, targets), |slots|)[k];
            (gens[i].None? ==> body == parts[k]) &&
            (gens[i].Some? || Tiles(0, |parts[k]|, slot.items) ==>
               body == Flatten(MergedSection(OldPieces(parts, slots)[i], NewItems(gens)[i], targets).value))
  {
    var bodies, slot := NewBodies(parts, slots, gens, targets), slots[i].value;
    assert LaidAt(parts, slots[i]);
    PartReplaced(parts, slots, bodies, |slots|, i);
    if gens[i].None? && Tiles(0, |parts[slot.index]|, slot.items) {
      BodyFlattens(parts[slot.index], slot);
    }
  }

  /** When something is written, each section that was there is an upsert of its own old functions. */
  lemma WrittenIsUpsert(parts: seq<string>, slots: seq<Option<Slot>>, gens: seq<Option<RustSection>>, targets: seq<string>, i: nat)
    requires i < |slots| == |gens| == 3 && InRange(parts, slots) && Separate(slots) && AllLaid(parts, slots) && slots[i].Some?
    requires Acceptable(OldPieces(parts, slots), NewItems(gens), targets)
    ensures gens[i].Some?
    ensures var slot, gen := slots[i].value, Generated(gens[i].value.items);
            var before := BodyPieces(parts[slot.index], slot.items);
            var after := Patched(gen, ToSet(targets), before);
            Replaced(parts, slots, NewBodies(parts, slots, gens, ToSet(targets)), |slots|)[slot.index] == Flatten(after) &&
            Upserted(before, after, gen, targets)
  {
    AcceptedIsUpsert(OldPieces(parts, slots), NewItems(gens), targets, i);
    EachMergedAlone(parts, slots, gens, ToSet(targets), i);
  }

  lemma BodyFlattens(body: string, slot: Slot)
    requires Reads(body, slot.headers, slot.items) && Tiles(0, |body|, slot.items)
    ensures Flatten(BodyPieces(body, slot.items)) == body
  {
    var section := RustSection(0, |body|, slot.items);
    ParsedIsSliced(body, section, slot.headers);
    ReassemblesIff(body, section);
    assert body[0..|body|] == body;
  }
}
