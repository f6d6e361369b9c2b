/** The imperative `patch_section`: three insertion dictionaries, one pass over the old items. */
module PatchMethod {
  import opened Wrappers
  import opened Merge
  import opened MergePlaces
  import opened Sections
  import opened PatchText

  function Get(m: map<string, seq<string>>, key: string): seq<string> {
    if key in m then m[key] else []
  }

  /** The dictionary of texts by name; a later item replaces an earlier one. */
  function ByName(gen: seq<Item>): (m: map<string, string>)
    ensures forall n :: (n in m <==> Lookup(gen, n).Some?) && (n in m ==> Lookup(gen, n) == Some(m[n]))
    ensures forall n :: n in m <==> n in Order(gen)
  {
    if gen == [] then map[]
    else
      var last := gen[|gen| - 1];
      assert Order(gen) == Order(gen[..|gen| - 1]) + [last.name];
      ByName(gen[..|gen| - 1])[last.name := last.text]
  }

  /** The two anchor searches: forwards to the next live name, then backwards. */
  method FindPlace(order: seq<string>, live: set<string>, idx: nat, ghost present: set<string>)
    returns (place: Place)
    requires idx < |order| && forall n :: n in order ==> (n in live <==> n in present)
    ensures place == PlaceOf(order, present, idx)
  {
    var j := idx + 1;
    while j < |order| && order[j] !in live
      invariant idx < j <= |order|
      invariant NextIndex(order, present, idx + 1) == NextIndex(order, present, j)
    {
      j := j + 1;
    }
    if j < |order| {
      return Before(order[j]);
    }
    var k: int := idx;
    while k > 0 && order[k - 1] !in live
      invariant 0 <= k <= idx
      invariant RunStart(order, present, idx) == RunStart(order, present, k)
    {
      k := k - 1;
    }
    return if k > 0 then After(order[k - 1]) else Tail;
  }

  /** The dictionaries hold what the first `n` generated functions add. */
  ghost predicate Planned(order: seq<string>, present: set<string>, targets: set<string>, n: nat,
                          before: map<string, seq<string>>, after: map<string, seq<string>>, tail: seq<string>)
    requires n <= |order|
  {
    PlannedBefore(order, present, targets, n, before) && PlannedAfter(order, present, targets, n, after) &&
    tail == InsertsUpTo(order, present, targets, Tail, n)
  }

  ghost predicate PlannedBefore(order: seq<string>, present: set<string>, targets: set<string>, n: nat, before: map<string, seq<string>>)
    requires n <= |order|
  {
    forall a :: Get(before, a) == InsertsUpTo(order, present, targets, Before(a), n)
  }

  ghost predicate PlannedAfter(order: seq<string>, present: set<string>, targets: set<string>, n: nat, after: map<string, seq<string>>)
    requires n <= |order|
  {
    forall a :: Get(after, a) == InsertsUpTo(order, present, targets, After(a), n)
  }

  lemma PlanBefore(order: seq<string>, present: set<string>, targets: set<string>, idx: nat, before: map<string, seq<string>>)
    requires idx < |order| && PlannedBefore(order, present, targets, idx, before) && Missing(order, present, targets, idx)
    ensures var place := PlaceOf(order, present, idx);
            PlannedBefore(order, present, targets, idx + 1,
                          if place.Before? then before[place.anchor := Get(before, place.anchor) + [order[idx]]] else before)
  {
    forall a
      ensures InsertsUpTo(order, present, targets, Before(a), idx + 1) ==
              if PlaceOf(order, present, idx) == Before(a) then Get(before, a) + [order[idx]] else Get(before, a)
    {
      InsertsLast(order, present, targets, Before(a), idx);
    }
  }

  lemma PlanAfter(order: seq<string>, present: set<string>, targets: set<string>, idx: nat, after: map<string, seq<string>>)
    requires idx < |order| && PlannedAfter(order, present, targets, idx, after) && Missing(order, present, targets, idx)
    ensures var place := PlaceOf(order, present, idx);
            PlannedAfter(order, present, targets, idx + 1,
                         if place.After? then after[place.anchor := Get(after, place.anchor) + [order[idx]]] else after)
  {
    forall a
      ensures InsertsUpTo(order, present, targets, After(a), idx + 1) ==
              if PlaceOf(order, present, idx) == After(a) then Get(after, a) + [order[idx]] else Get(after, a)
    {
      InsertsLast(order, present, targets, After(a), idx);
    }
  }

  lemma PlanSkips(order: seq<string>, present: set<string>, targets: set<string>, idx: nat,
                  before: map<string, seq<string>>, after: map<string, seq<string>>, tail: seq<string>)
    requires idx < |order| && Planned(order, present, targets, idx, before, after, tail) && !Missing(order, present, targets, idx)
    ensures Planned(order, present, targets, idx + 1, before, after, tail)
  {
    forall place
      ensures InsertsUpTo(order, present, targets, place, idx + 1) == InsertsUpTo(order, present, targets, place, idx)
    {
      InsertsLast(order, present, targets, place, idx);
    }
  }

  /** Fills the three dictionaries, in generated order. */
  method PlanInserts(order: seq<string>, present: set<string>, targets: set<string>)
    returns (before: map<string, seq<string>>, after: map<string, seq<string>>, tail: seq<string>)
    ensures Planned(order, present, targets, |order|, before, after, tail)
  {
    var live := present - (targets - ToSet(order));
    before, after, tail := map[], map[], [];
    for idx := 0 to |order|
      invariant Planned(order, present, targets, idx, before, after, tail)
    {
      var name := order[idx];
      if name !in targets || name in present {
        PlanSkips(order, present, targets, idx, before, after, tail);
        continue;
      }
      var place := FindPlace(order, live, idx, present);
      PlanBefore(order, present, targets, idx, before);
      PlanAfter(order, present, targets, idx, after);
      InsertsLast(order, present, targets, Tail, idx);
      match place {
        case Before(a) => before := before[a := Get(before, a) + [name]];
        case After(a) => after := after[a := Get(after, a) + [name]];
        case Tail => tail := tail + [name];
      }
    }
  }

  lemma MadeStep(gen: seq<Item>, names: seq<string>, i: nat)
    requires i < |names|
    ensures Flatten(Made(gen, names[..i + 1])) == Flatten(Made(gen, names[..i])) + TextOf(gen, names[i])
  {
    var name := names[i];
    assert names[..i + 1] == names[..i] + [name];
    MadeConcat(gen, names[..i], [name]);
    FlattenConcat(Made(gen, names[..i]), Made(gen, [name]));
    assert Made(gen, [name]) == [Fn(name, TextOf(gen, name))] + Made(gen, []);
    assert Made(gen, [name]) == [Fn(name, TextOf(gen, name))];
    FlattenOne(Fn(name, TextOf(gen, name)));
  }

  /** Appends the generated text of each name. */
  method AppendMade(out: string, gen: seq<Item>, newByName: map<string, string>, names: seq<string>)
    returns (out': string)
    requires newByName == ByName(gen) && forall n :: n in names ==> n in newByName
    ensures out' == out + Flatten(Made(gen, names))
  {
    out' := out;
    for i := 0 to |names|
      invariant out' == out + Flatten(Made(gen, names[..i]))
    {
      assert names[i] in names;
      MadeStep(gen, names, i);
      Reassociate(out, Flatten(Made(gen, names[..i])), newByName[names[i]]);
      out' := out' + newByName[names[i]];
    }
    assert names[..|names|] == names;
  }

  lemma FlattenExpand(gen: seq<Item>, present: set<string>, targets: set<string>, p: Piece)
    requires p.Fn?
    ensures Flatten(Expand(gen, present, targets, p)) ==
            Flatten(Made(gen, Inserts(Order(gen), present, targets, Before(p.name)))) +
            Flatten(Self(gen, targets, p)) +
            Flatten(Made(gen, Inserts(Order(gen), present, targets, After(p.name))))
  {
    var before := Made(gen, Inserts(Order(gen), present, targets, Before(p.name)));
    var after := Made(gen, Inserts(Order(gen), present, targets, After(p.name)));
    var self := Self(gen, targets, p);
    FlattenConcat(before, self);
    FlattenConcat(before + self, after);
  }

  /** The committed item itself: its replacement, nothing, or its own text. */
  method PatchSelf(gen: seq<Item>, newByName: map<string, string>, targets: set<string>, item: RustItem)
    returns (text: string, changed: nat)
    requires newByName == ByName(gen)
    ensures text == Flatten(Self(gen, targets, Fn(item.name, item.text)))
    ensures changed ==
            if item.name in targets && (item.name !in Order(gen) || TextOf(gen, item.name) != item.text) then 1 else 0
  {
    text, changed := item.text, 0;
    if item.name in targets {
      if item.name in newByName {
        text := newByName[item.name];
        if text != item.text {
          changed := 1;
        }
      } else {
        text, changed := "", 1;
      }
    }
  }

  /** One turn of the main loop behind the gap: inserts, the item itself, inserts. */
  method PatchItem(out: string, gen: seq<Item>, newByName: map<string, string>, ghost present: set<string>,
                   targets: set<string>, before: map<string, seq<string>>, after: map<string, seq<string>>, item: RustItem)
    returns (out': string, changed: nat)
    requires newByName == ByName(gen)
    requires PlannedBefore(Order(gen), present, targets, |gen|, before)
    requires PlannedAfter(Order(gen), present, targets, |gen|, after)
    ensures out' == out + Flatten(Expand(gen, present, targets, Fn(item.name, item.text)))
    ensures changed == PieceChanges(gen, present, targets, Fn(item.name, item.text))
  {
    var front, back := Get(before, item.name), Get(after, item.name);
    assert front == Inserts(Order(gen), present, targets, Before(item.name));
    assert back == Inserts(Order(gen), present, targets, After(item.name));
    InsertsAreGenerated(gen, present, targets, Before(item.name));
    InsertsAreGenerated(gen, present, targets, After(item.name));
    FlattenExpand(gen, present, targets, Fn(item.name, item.text));
    out' := AppendMade(out, gen, newByName, front);
    var self, selfChanged := PatchSelf(gen, newByName, targets, item);
    out' := out' + self;
    out' := AppendMade(out', gen, newByName, back);
    changed := |front| + selfChanged + |back|;
    Regroup(out, Flatten(Made(gen, front)), self, Flatten(Made(gen, back)));
  }

  lemma Regroup(a: string, b: string, c: string, d: string)
    ensures a + b + c + d == a + (b + c + d)
  {
  }

  lemma InsertsAreGenerated(gen: seq<Item>, present: set<string>, targets: set<string>, place: Place)
    ensures forall n :: n in Inserts(Order(gen), present, targets, place) ==> n in ByName(gen)
  {
    InsertsAreMissing(Order(gen), present, targets, place, |gen|);
  }

  /** The main loop over the committed items. */
  method PatchItems(current: string, start: nat, items: seq<RustItem>, gen: seq<Item>, ghost present: set<string>,
                    targets: set<string>, before: map<string, seq<string>>, after: map<string, seq<string>>)
    returns (out: string, changed: nat, cursor: nat)
    requires PlannedBefore(Order(gen), present, targets, |gen|, before)
    requires PlannedAfter(Order(gen), present, targets, |gen|, after)
    ensures cursor == Cursor(start, items, |items|)
    ensures out == Flatten(ExpandAll(gen, present, targets, PiecesUpTo(current, start, items, |items|)))
    ensures changed == Changes(gen, present, targets, PiecesUpTo(current, start, items, |items|))
  {
    var newByName := ByName(gen);
    out, changed, cursor := "", 0, start;
    for i := 0 to |items|
      invariant cursor == Cursor(start, items, i)
      invariant out == Flatten(ExpandAll(gen, present, targets, PiecesUpTo(current, start, items, i)))
      invariant changed == Changes(gen, present, targets, PiecesUpTo(current, start, items, i))
    {
      var gap := Slice(current, cursor, items[i].start);
      out, changed := PatchNext(current, start, items, i, gap, out, changed, gen, newByName, present, targets, before, after);
      cursor := items[i].end;
    }
  }

  /** One turn of the main loop: the gap, then the item with its inserts. */
  method PatchNext(ghost current: string, ghost start: nat, items: seq<RustItem>, i: nat, gap: string, out: string, changed: nat,
                   gen: seq<Item>, newByName: map<string, string>, ghost present: set<string>, targets: set<string>,
                   before: map<string, seq<string>>, after: map<string, seq<string>>)
    returns (out': string, changed': nat)
    requires i < |items| && gap == Slice(current, Cursor(start, items, i), items[i].start) && newByName == ByName(gen)
    requires PlannedBefore(Order(gen), present, targets, |gen|, before)
    requires PlannedAfter(Order(gen), present, targets, |gen|, after)
    requires out == Flatten(ExpandAll(gen, present, targets, PiecesUpTo(current, start, items, i)))
    requires changed == Changes(gen, present, targets, PiecesUpTo(current, start, items, i))
    ensures out' == Flatten(ExpandAll(gen, present, targets, PiecesUpTo(current, start, items, i + 1)))
    ensures changed' == Changes(gen, present, targets, PiecesUpTo(current, start, items, i + 1))
  {
    PiecesGrow(current, start, items, i, gen, present, targets, gap);
    var added;
    out', added := PatchItem(out + gap, gen, newByName, present, targets, before, after, items[i]);
    changed' := changed + added;
  }

  /** One more gap and item: what they add to the text and to the count. */
  lemma PiecesGrow(current: string, start: nat, items: seq<RustItem>, i: nat, gen: seq<Item>, present: set<string>, targets: set<string>, gap: string)
    requires i < |items| && gap == Slice(current, Cursor(start, items, i), items[i].start)
    ensures var done, next := PiecesUpTo(current, start, items, i), PiecesUpTo(current, start, items, i + 1);
            var fn := Fn(items[i].name, items[i].text);
            Flatten(ExpandAll(gen, present, targets, next)) ==
            Flatten(ExpandAll(gen, present, targets, done)) + gap + Flatten(Expand(gen, present, targets, fn)) &&
            Changes(gen, present, targets, next) == Changes(gen, present, targets, done) + PieceChanges(gen, present, targets, fn)
  {
    var done, fn := PiecesUpTo(current, start, items, i), Fn(items[i].name, items[i].text);
    PiecesStep(current, start, items, i, gap, fn);
    ExpandPair(gen, present, targets, done, Gap(gap), fn);
    ChangesPair(gen, present, targets, done, Gap(gap), fn);
  }

  /** The new body and the number of changes. */
  method PatchBody(current: string, section: RustSection, gen: seq<Item>, targets: set<string>)
    returns (out: string, changed: nat)
    ensures out == Flatten(Patched(gen, targets, Pieces(current, section)))
    ensures changed == AllChanges(gen, targets, Pieces(current, section))
  {
    var present := ToSet(Order(Generated(section.items)));
    var before, after, tail := PlanInserts(Order(gen), present, targets);
    var cursor;
    out, changed, cursor := PatchItems(current, section.bodyStart, section.items, gen, present, targets, before, after);
    InsertsAreGenerated(gen, present, targets, Tail);
    out := AppendMade(out, gen, ByName(gen), tail);
    changed := changed + |tail|;
    out := out + Slice(current, cursor, section.bodyEnd);
    WholeBody(current, section, gen, targets);
  }

  /** `patch_section` on the two sections found; a missing section leaves the text alone. */
  method PatchSection(current: string, committed: Option<RustSection>, generated: Option<RustSection>, targets: seq<string>)
    returns (text: string, changed: nat)
    requires committed.Some? ==> InText(committed.value, current)
    ensures committed.None? || generated.None? ==> text == current && changed == 0
    ensures committed.Some? && generated.Some? ==>
              var gen := Generated(generated.value.items);
              text == PatchedText(current, committed.value, gen, ToSet(targets)) &&
              changed == PatchedCount(current, committed.value, gen, ToSet(targets))
  {
    if committed.None? || generated.None? {
      return current, 0;
    }
    var section, gen := committed.value, Generated(generated.value.items);
    var body, count := PatchBody(current, section, gen, ToSet(targets));
    if body == current[section.bodyStart..section.bodyEnd] {
      Reassemble(current, section.bodyStart, section.bodyEnd);
      return current, 0;
    }
    return current[..section.bodyStart] + body + current[section.bodyEnd..], count;
  }

  lemma Reassemble(text: string, a: nat, b: nat)
    requires a <= b <= |text|
    ensures text == text[..a] + text[a..b] + text[b..]
  {
  }

  lemma ExpandPair(gen: seq<Item>, present: set<string>, targets: set<string>, ps: seq<Piece>, gap: Piece, fn: Piece)
    requires gap.Gap? && fn.Fn?
    ensures Flatten(ExpandAll(gen, present, targets, ps + [gap, fn])) ==
            Flatten(ExpandAll(gen, present, targets, ps)) + gap.text + Flatten(Expand(gen, present, targets, fn))
  {
    var front, expanded := ExpandAll(gen, present, targets, ps), Expand(gen, present, targets, fn);
    ExpandConcat(gen, present, targets, ps, [gap, fn]);
    ExpandTwo(gen, present, targets, gap, fn);
    FlattenConcat(front, [gap] + expanded);
    FlattenConcat([gap], expanded);
    FlattenOne(gap);
    Reassociate(Flatten(front), gap.text, Flatten(expanded));
  }

  lemma ExpandTwo(gen: seq<Item>, present: set<string>, targets: set<string>, gap: Piece, fn: Piece)
    requires gap.Gap?
    ensures ExpandAll(gen, present, targets, [gap, fn]) == [gap] + Expand(gen, present, targets, fn)
  {
    var expanded := Expand(gen, present, targets, fn);
    assert [gap, fn][1..] == [fn] && [fn][1..] == [];
    assert ExpandAll(gen, present, targets, [fn]) == expanded + [];
    assert expanded + [] == expanded;
  }

  lemma ChangesPair(gen: seq<Item>, present: set<string>, targets: set<string>, ps: seq<Piece>, gap: Piece, fn: Piece)
    requires gap.Gap? && fn.Fn?
    ensures Changes(gen, present, targets, ps + [gap, fn]) ==
            Changes(gen, present, targets, ps) + PieceChanges(gen, present, targets, fn)
  {
    ChangesConcat(gen, present, targets, ps, [gap, fn]);
    assert [gap, fn][1..] == [fn] && [fn][1..] == [];
  }

  lemma WholeBody(text: string, section: RustSection, gen: seq<Item>, targets: set<string>)
    ensures var ps := Pieces(text, section);
            var present := ToSet(Order(Generated(section.items)));
            var front := PiecesUpTo(text, section.bodyStart, section.items, |section.items|);
            NameSet(ps) == present &&
            Flatten(Patched(gen, targets, ps)) ==
            Flatten(ExpandAll(gen, present, targets, front)) +
            Flatten(Made(gen, Inserts(Order(gen), present, targets, Tail))) + LastGap(text, section).text &&
            AllChanges(gen, targets, ps) ==
            Changes(gen, present, targets, front) + |Inserts(Order(gen), present, targets, Tail)|
  {
    var ps := Pieces(text, section);
    var present := ToSet(Order(Generated(section.items)));
    var front := PiecesUpTo(text, section.bodyStart, section.items, |section.items|);
    var made := Made(gen, Inserts(Order(gen), present, targets, Tail));
    var last := LastGap(text, section);
    PiecesShape(text, section);
    assert ps[..FnsEnd(ps)] == front && ps[FnsEnd(ps)..] == [last];
    var expanded := ExpandAll(gen, present, targets, front);
    FlattenConcat(expanded + made, [last]);
    FlattenConcat(expanded, made);
    assert Flatten([last]) == last.text;
    ChangesConcat(gen, present, targets, front, [last]);
    assert Changes(gen, present, targets, [last]) == 0;
  }
}
