/** `merge_measured_weights_file`: an all-or-nothing upsert of measured functions.

    A weights file is the list of its sections in the order of `SECTION_SPECS`; a section that the
    file does not have is `None`.  `Failure` means that nothing is written.
 */
module MeasuredMerge {
  import opened Wrappers
  import opened Selectors
  import opened Merge
  import opened MergeFrame
  import opened MergeOnce
  import opened MergeOrder

  /** The trait and the runtime implementation must be there, the unit implementation may. */
  const REQUIRED := [true, true, false]

  datatype MeasuredError = InvalidSelection | NotExplicit | MissingSection(index: nat) |
                           DuplicateFunctions(index: nat) | WrongFunctions(index: nat)

  type CommittedSections = seq<Option<seq<Piece>>>
  type GeneratedSections = seq<Option<seq<Item>>>

  /** One pair of sections is fit to merge: present where they must be, and the generated one
      measures exactly the targets, each once. */
  ghost predicate Fit(required: bool, old': Option<seq<Piece>>, gen: Option<seq<Item>>, targets: set<string>) {
    (required ==> old'.Some?) && (required || old'.Some? ==> gen.Some?) &&
    (gen.Some? ==> Distinct(Order(gen.value)) && ToSet(Order(gen.value)) == targets)
  }

  // ----- What makes a generated section unfit, on its list of functions --------------------

  ghost predicate Repeats(gen: seq<Item>) {
    exists i, j :: 0 <= i < j < |gen| && gen[i].name == gen[j].name
  }

  /** Some target is not measured. */
  ghost predicate Lacks(gen: seq<Item>, targets: seq<string>) {
    exists n :: n in targets && forall i :: 0 <= i < |gen| ==> gen[i].name != n
  }

  /** Something is measured that is no target. */
  ghost predicate Adds(gen: seq<Item>, targets: seq<string>) {
    exists i :: 0 <= i < |gen| && gen[i].name !in targets
  }

  /** A section is fit exactly when it is in both files where it must be and its generated
      functions neither repeat nor lack nor add a name. */
  lemma FitIff(required: bool, old': Option<seq<Piece>>, gen: Option<seq<Item>>, targets: seq<string>)
    ensures Fit(required, old', gen, ToSet(targets)) <==>
            (required ==> old'.Some?) && (required || old'.Some? ==> gen.Some?) &&
            (gen.Some? ==> !Repeats(gen.value) && !Lacks(gen.value, targets) && !Adds(gen.value, targets))
  {
    if gen.Some? {
      DistinctIff(gen.value);
      SameNamesIff(gen.value, targets);
    }
  }

  lemma DistinctIff(gen: seq<Item>)
    ensures Distinct(Order(gen)) <==> !Repeats(gen)
  {
    var order := Order(gen);
    if Repeats(gen) {
      var i, j :| 0 <= i < j < |gen| && gen[i].name == gen[j].name;
      assert order[i] == order[j];
    }
    if !Distinct(order) {
      var i, j :| 0 <= i < j < |order| && order[i] == order[j];
      assert gen[i].name == gen[j].name;
    }
  }

  lemma SameNamesIff(gen: seq<Item>, targets: seq<string>)
    ensures ToSet(Order(gen)) == ToSet(targets) <==> !Lacks(gen, targets) && !Adds(gen, targets)
  {
    AddsIff(gen, targets);
    LacksIff(gen, targets);
  }

  lemma AddsIff(gen: seq<Item>, targets: seq<string>)
    ensures ToSet(Order(gen)) <= ToSet(targets) <==> !Adds(gen, targets)
  {
    var order := Order(gen);
    if Adds(gen, targets) {
      var i :| 0 <= i < |gen| && gen[i].name !in targets;
      assert order[i] in ToSet(order);
    }
    if !(ToSet(order) <= ToSet(targets)) {
      var n :| n in ToSet(order) && n !in ToSet(targets);
      var i :| 0 <= i < |order| && order[i] == n;
      assert gen[i].name !in targets;
    }
  }

  lemma LacksIff(gen: seq<Item>, targets: seq<string>)
    ensures ToSet(targets) <= ToSet(Order(gen)) <==> !Lacks(gen, targets)
  {
    var order := Order(gen);
    if Lacks(gen, targets) {
      var n :| n in targets && forall i :: 0 <= i < |gen| ==> gen[i].name != n;
      assert n in ToSet(targets) && n !in order;
    }
    if !(ToSet(targets) <= ToSet(order)) {
      var n :| n in ToSet(targets) && n !in ToSet(order);
      forall i | 0 <= i < |gen|
        ensures gen[i].name != n
      {
        assert order[i] in order;
      }
    }
  }

  /** What is written and what is refused, section by section: the first two sections must be in both
      files, the third in the generated one if in the committed one, and what is generated must
      neither repeat nor lack nor add a name. */
  ghost predicate Acceptable(committed: CommittedSections, generated: GeneratedSections, targets: seq<string>)
    requires |committed| == |generated| == 3
  {
    committed[0].Some? && committed[1].Some? && generated[0].Some? && generated[1].Some? &&
    (committed[2].Some? ==> generated[2].Some?) &&
    forall i :: 0 <= i < 3 && generated[i].Some? ==>
      !Repeats(generated[i].value) && !Lacks(generated[i].value, targets) && !Adds(generated[i].value, targets)
  }

  lemma AcceptableIff(committed: CommittedSections, generated: GeneratedSections, targets: seq<string>)
    requires |committed| == |generated| == |REQUIRED|
    ensures Acceptable(committed, generated, targets) <==>
            forall i :: 0 <= i < |REQUIRED| ==> Fit(REQUIRED[i], committed[i], generated[i], ToSet(targets))
  {
    forall i | 0 <= i < 3
      ensures Fit(REQUIRED[i], committed[i], generated[i], ToSet(targets)) <==>
              (REQUIRED[i] ==> committed[i].Some?) && (REQUIRED[i] || committed[i].Some? ==> generated[i].Some?) &&
              (generated[i].Some? ==> !Repeats(generated[i].value) && !Lacks(generated[i].value, targets) && !Adds(generated[i].value, targets))
    {
      FitIff(REQUIRED[i], committed[i], generated[i], targets);
    }
    assert REQUIRED[0] && REQUIRED[1] && !REQUIRED[2];
  }

  /** The section keeps every function it had, in order, gains exactly the targets it lacked, and
      names each once if it did before; targets have their generated text, all else is as it was. */
  ghost predicate Upserted(before: seq<Piece>, after: seq<Piece>, gen: seq<Item>, targets: seq<string>) {
    NameSet(after) == NameSet(before) + ToSet(targets) && Filter(Names(after), NameSet(before)) == Names(before) &&
    (Distinct(Names(before)) ==> Distinct(Names(after))) &&
    Untouched(after, ToSet(targets)) == Untouched(before, ToSet(targets)) &&
    forall q :: q in after && q.Fn? && q.name in targets ==> Item(q.name, q.text) in gen
  }

  /** Whatever is written is an upsert in every section. */
  lemma AcceptedIsUpsert(committed: CommittedSections, generated: GeneratedSections, targets: seq<string>, i: nat)
    requires |committed| == |generated| == 3 && Acceptable(committed, generated, targets) && i < 3 && committed[i].Some?
    ensures generated[i].Some?
    ensures var before, gen := committed[i].value, generated[i].value;
            Upserted(before, Patched(gen, ToSet(targets), before), gen, targets)
  {
    AcceptableIff(committed, generated, targets);
    assert Fit(REQUIRED[i], committed[i], generated[i], ToSet(targets));
    var gen, after := generated[i].value, Patched(generated[i].value, ToSet(targets), committed[i].value);
    MergedIsUpsert(gen, ToSet(targets), committed[i].value);
    forall q | q in after && q.Fn? && q.name in targets
      ensures Item(q.name, q.text) in gen
    {
      LookupIsThere(gen, q.name, q.text);
    }
  }

  lemma {:induction false} LookupIsThere(gen: seq<Item>, name: string, text: string)
    requires Lookup(gen, name) == Some(text)
    ensures Item(name, text) in gen
  {
    var last := |gen| - 1;
    if gen[last].name == name {
      assert gen[last] == Item(name, text);
    } else {
      LookupIsThere(gen[..last], name, text);
    }
  }

  function MergedSection(old': Option<seq<Piece>>, gen: Option<seq<Item>>, targets: set<string>): Option<seq<Piece>> {
    if old'.None? || gen.None? then old' else Some(Patched(gen.value, targets, old'.value))
  }

  /** The function listing has no repetition: `len(actual) == len(set(actual))`. */
  method HasDuplicates(names: seq<string>) returns (r: bool)
    ensures r <==> !Distinct(names)
  {
    var seen := {};
    for i := 0 to |names|
      invariant seen == ToSet(names[..i]) && Distinct(names[..i])
    {
      if names[i] in seen {
        var j :| 0 <= j < i && names[..i][j] == names[i];
        assert names[j] == names[i];
        return true;
      }
      assert names[..i + 1] == names[..i] + [names[i]];
      seen := seen + {names[i]};
    }
    assert names[..|names|] == names;
    return false;
  }

  /** The validation pass over all sections, before anything is merged. */
  method Validate(committed: CommittedSections, generated: GeneratedSections, expected: set<string>) returns (e: Option<MeasuredError>)
    requires |committed| == |generated| == |REQUIRED|
    ensures e.None? <==> forall i :: 0 <= i < |REQUIRED| ==> Fit(REQUIRED[i], committed[i], generated[i], expected)
  {
    for i := 0 to |REQUIRED|
      invariant forall j :: 0 <= j < i ==> Fit(REQUIRED[j], committed[j], generated[j], expected)
    {
      if REQUIRED[i] && committed[i].None? {
        return Some(MissingSection(i));
      }
      if (REQUIRED[i] || committed[i].Some?) && generated[i].None? {
        return Some(MissingSection(i));
      }
      if generated[i].None? {
        continue;
      }
      var actual := Order(generated[i].value);
      var duplicates := HasDuplicates(actual);
      if duplicates {
        return Some(DuplicateFunctions(i));
      }
      if ToSet(actual) != expected {
        return Some(WrongFunctions(i));
      }
    }
    return None;
  }

  method MergeMeasured(names: string, committed: CommittedSections, generated: GeneratedSections)
    returns (r: Result<CommittedSections, MeasuredError>)
    requires |committed| == |generated| == |REQUIRED|
    ensures var targets := ParseSelectors(names, false);
            if targets.Success? && targets.value != STAR &&
               forall i :: 0 <= i < |REQUIRED| ==> Fit(REQUIRED[i], committed[i], generated[i], ToSet(targets.value))
            then r.Success? && |r.value| == |committed| &&
                 forall i :: 0 <= i < |committed| ==>
                   r.value[i] == MergedSection(committed[i], generated[i], ToSet(targets.value))
            else r.Failure?
    ensures var targets := ParseSelectors(names, false);
            (r.Success? <==> targets.Success? && targets.value != STAR && Acceptable(committed, generated, targets.value)) &&
            (r.Success? ==> forall i :: 0 <= i < |committed| && committed[i].Some? ==>
               r.value[i].Some? && generated[i].Some? && Upserted(committed[i].value, r.value[i].value, generated[i].value, targets.value))
  {
    var targets := ParseSelectors(names, false);
    if targets.Failure? {
      return Failure(InvalidSelection);
    }
    if targets.value == STAR {
      return Failure(NotExplicit);
    }
    var expected := ToSet(targets.value);
    AcceptableIff(committed, generated, targets.value);
    var error := Validate(committed, generated, expected);
    if error.Some? {
      return Failure(error.value);
    }
    AllUpserted(committed, generated, targets.value);
    var current := MergeSections(committed, generated, expected);
    return Success(current);
  }

  /** The merge pass over all sections. */
  method MergeSections(committed: CommittedSections, generated: GeneratedSections, targets: set<string>)
    returns (current: CommittedSections)
    requires |committed| == |generated| == |REQUIRED|
    ensures |current| == |committed|
    ensures forall i :: 0 <= i < |committed| ==> current[i] == MergedSection(committed[i], generated[i], targets)
  {
    current := [];
    for i := 0 to |REQUIRED|
      invariant |current| == i
      invariant forall j :: 0 <= j < i ==> current[j] == MergedSection(committed[j], generated[j], targets)
    {
      current := current + [MergedSection(committed[i], generated[i], targets)];
    }
  }

  lemma AllUpserted(committed: CommittedSections, generated: GeneratedSections, targets: seq<string>)
    requires |committed| == |generated| == 3 && Acceptable(committed, generated, targets)
    ensures forall i :: 0 <= i < 3 && committed[i].Some? ==>
              var merged := MergedSection(committed[i], generated[i], ToSet(targets));
              merged.Some? && generated[i].Some? && Upserted(committed[i].value, merged.value, generated[i].value, targets)
  {
    forall i | 0 <= i < 3 && committed[i].Some?
      ensures var merged := MergedSection(committed[i], generated[i], ToSet(targets));
              merged.Some? && generated[i].Some? && Upserted(committed[i].value, merged.value, generated[i].value, targets)
    {
      AcceptedIsUpsert(committed, generated, targets, i);
    }
  }

  /** A merged section is an upsert: the names are the old ones and the targets, each once, the
      old ones in their old order; every target has its generated text, everything else is as it was. */
  lemma MergedIsUpsert(gen: seq<Item>, targets: set<string>, ps: seq<Piece>)
    requires Distinct(Order(gen)) && ToSet(Order(gen)) == targets
    ensures var result := Patched(gen, targets, ps);
            NameSet(result) == NameSet(ps) + targets &&
            (Distinct(Names(ps)) ==> Distinct(Names(result))) &&
            Filter(Names(result), NameSet(ps)) == Names(ps) &&
            Untouched(result, targets) == Untouched(ps, targets) &&
            forall q :: q in result && q.Fn? && q.name in targets ==> Lookup(gen, q.name) == Some(q.text)
  {
    var result := Patched(gen, targets, ps);
    PatchedNames(gen, targets, ps);
    if Distinct(Names(ps)) {
      PatchedOnce(gen, targets, ps);
    }
    CommittedOrderKept(gen, targets, ps);
    FilterAll(Names(ps), Live(gen, targets, ps));
    PatchedFrame(gen, targets, ps);
    forall q | q in result && q.Fn? && q.name in targets
      ensures Lookup(gen, q.name) == Some(q.text)
    {
      PatchedTexts(gen, targets, ps, q);
      LookupFinds(gen, q.name);
    }
  }

  lemma {:induction false} LookupFinds(gen: seq<Item>, name: string)
    requires name in Order(gen)
    ensures Lookup(gen, name).Some?
  {
    var last := |gen| - 1;
    if gen[last].name != name {
      assert Order(gen) == Order(gen[..last]) + [gen[last].name];
      LookupFinds(gen[..last], name);
    }
  }

  /** A second run with the same measurements writes the same file. */
  lemma MergedAgain(old': Option<seq<Piece>>, gen: Option<seq<Item>>, targets: set<string>)
    ensures MergedSection(MergedSection(old', gen, targets), gen, targets) == MergedSection(old', gen, targets)
  {
    if old'.Some? && gen.Some? {
      PatchedIsIdempotent(gen.value, targets, old'.value);
    }
  }
}
