/** The merge of `patch_section` on a segmentation of the section body.

    A body is a sequence of pieces: gaps of arbitrary text and functions.  `Patched` follows the
    source's insertion dictionaries; the theorems about it are in the modules that import this one.
 */
module Merge {
  import opened Wrappers

  datatype Piece = Gap(text: string) | Fn(name: string, text: string)

  /** A generated function: its name and its text. */
  datatype Item = Item(name: string, text: string)

  function Flatten(ps: seq<Piece>): string {
    if ps == [] then "" else ps[0].text + Flatten(ps[1..])
  }

  function Names(ps: seq<Piece>): seq<string> {
    if ps == [] then [] else (if ps[0].Fn? then [ps[0].name] else []) + Names(ps[1..])
  }

  function ToSet(names: seq<string>): set<string> {
    set n | n in names
  }

  function NameSet(ps: seq<Piece>): set<string> {
    ToSet(Names(ps))
  }

  function Order(gen: seq<Item>): (order: seq<string>)
    ensures |order| == |gen|
    ensures forall i :: 0 <= i < |gen| ==> order[i] == gen[i].name
  {
    seq(|gen|, i requires 0 <= i < |gen| => gen[i].name)
  }

  ghost predicate Distinct<T>(s: seq<T>) {
    forall i, j :: 0 <= i < j < |s| ==> s[i] != s[j]
  }

  function Filter(s: seq<string>, keep: set<string>): seq<string> {
    if s == [] then [] else (if s[0] in keep then [s[0]] else []) + Filter(s[1..], keep)
  }

  /** The generated text of a name: the last item that bears it, as in the source's dictionary. */
  function Lookup(gen: seq<Item>, name: string): Option<string> {
    if gen == [] then None
    else if gen[|gen| - 1].name == name then Some(gen[|gen| - 1].text)
    else Lookup(gen[..|gen| - 1], name)
  }

  function TextOf(gen: seq<Item>, name: string): string {
    var text := Lookup(gen, name);
    if text.None? then "" else text.value
  }

  function Made(gen: seq<Item>, names: seq<string>): seq<Piece> {
    if names == [] then [] else [Fn(names[0], TextOf(gen, names[0]))] + Made(gen, names[1..])
  }

  // ----- Where a missing target goes -----------------------------------------------------

  /** The first index at or after `k` whose name is present, or the length if there is none. */
  function NextIndex(order: seq<string>, present: set<string>, k: nat): (r: nat)
    requires k <= |order|
    ensures k <= r <= |order|
    ensures r < |order| ==> order[r] in present
    ensures forall i :: k <= i < r ==> order[i] !in present
    decreases |order| - k
  {
    if k == |order| || order[k] in present then k else NextIndex(order, present, k + 1)
  }

  /** One past the last index before `k` whose name is present, or zero if there is none. */
  function RunStart(order: seq<string>, present: set<string>, k: nat): (r: nat)
    requires k <= |order|
    ensures r <= k
    ensures r > 0 ==> order[r - 1] in present
    ensures forall i :: r <= i < k ==> order[i] !in present
  {
    if k == 0 || order[k - 1] in present then k else RunStart(order, present, k - 1)
  }

  datatype Place = Before(anchor: string) | After(anchor: string) | Tail

  function PlaceOf(order: seq<string>, present: set<string>, k: nat): Place
    requires k < |order|
  {
    var next := NextIndex(order, present, k + 1);
    var run := RunStart(order, present, k);
    if next < |order| then Before(order[next])
    else if run > 0 then After(order[run - 1])
    else Tail
  }

  predicate Missing(order: seq<string>, present: set<string>, targets: set<string>, k: nat)
    requires k < |order|
  {
    order[k] in targets && order[k] !in present
  }

  /** The names that the first `n` generated functions add at a place, in generated order. */
  function InsertsUpTo(order: seq<string>, present: set<string>, targets: set<string>, place: Place, n: nat): seq<string>
    requires n <= |order|
  {
    if n == 0 then []
    else
      InsertsUpTo(order, present, targets, place, n - 1) +
      (if Missing(order, present, targets, n - 1) && PlaceOf(order, present, n - 1) == place
       then [order[n - 1]] else [])
  }

  function Inserts(order: seq<string>, present: set<string>, targets: set<string>, place: Place): seq<string> {
    InsertsUpTo(order, present, targets, place, |order|)
  }

  // ----- The merge -----------------------------------------------------------------------

  /** What becomes of a committed function: kept, replaced or deleted. */
  function Self(gen: seq<Item>, targets: set<string>, p: Piece): seq<Piece>
    requires p.Fn?
  {
    if p.name !in targets then [p]
    else if p.name in Order(gen) then [Fn(p.name, TextOf(gen, p.name))]
    else []
  }

  function Expand(gen: seq<Item>, present: set<string>, targets: set<string>, p: Piece): seq<Piece> {
    if p.Gap? then [p]
    else
      Made(gen, Inserts(Order(gen), present, targets, Before(p.name))) +
      Self(gen, targets, p) +
      Made(gen, Inserts(Order(gen), present, targets, After(p.name)))
  }

  function ExpandAll(gen: seq<Item>, present: set<string>, targets: set<string>, ps: seq<Piece>): seq<Piece> {
    if ps == [] then []
    else Expand(gen, present, targets, ps[0]) + ExpandAll(gen, present, targets, ps[1..])
  }

  /** The number of pieces up to and including the last function. */
  function FnsEnd(ps: seq<Piece>): (c: nat)
    ensures c <= |ps|
    ensures c > 0 ==> ps[c - 1].Fn?
    ensures forall i :: c <= i < |ps| ==> ps[i].Gap?
  {
    if ps == [] then 0
    else if ps[|ps| - 1].Fn? then |ps|
    else FnsEnd(ps[..|ps| - 1])
  }

  function Patched(gen: seq<Item>, targets: set<string>, ps: seq<Piece>): seq<Piece> {
    var present := NameSet(ps);
    var c := FnsEnd(ps);
    ExpandAll(gen, present, targets, ps[..c]) +
    Made(gen, Inserts(Order(gen), present, targets, Tail)) +
    ps[c..]
  }

  // ----- Basic laws ----------------------------------------------------------------------

  lemma Reassociate<T>(a: seq<T>, b: seq<T>, c: seq<T>)
    ensures a + (b + c) == (a + b) + c
  {
  }

  lemma {:induction false} FilterMembers(s: seq<string>, keep: set<string>)
    ensures forall n :: n in Filter(s, keep) <==> n in s && n in keep
  {
    if s != [] {
      FilterMembers(s[1..], keep);
    }
  }

  lemma {:induction false} FilterConcat(a: seq<string>, b: seq<string>, keep: set<string>)
    ensures Filter(a + b, keep) == Filter(a, keep) + Filter(b, keep)
  {
    if a == [] {
      assert a + b == b;
    } else {
      assert (a + b)[1..] == a[1..] + b;
      FilterConcat(a[1..], b, keep);
      Reassociate(if a[0] in keep then [a[0]] else [], Filter(a[1..], keep), Filter(b, keep));
    }
  }

  lemma {:induction false} FilterTwice(a: seq<string>, keep: set<string>, keep': set<string>)
    ensures Filter(Filter(a, keep), keep') == Filter(a, keep * keep')
  {
    if a != [] {
      FilterTwice(a[1..], keep, keep');
      FilterConcat(if a[0] in keep then [a[0]] else [], Filter(a[1..], keep), keep');
      assert Filter([a[0]], keep') == if a[0] in keep' then [a[0]] else [];
    }
  }

  lemma {:induction false} FilterAgrees(a: seq<string>, keep: set<string>, keep': set<string>)
    requires forall n :: n in a ==> (n in keep <==> n in keep')
    ensures Filter(a, keep) == Filter(a, keep')
  {
    if a != [] {
      assert a[0] in a;
      FilterAgrees(a[1..], keep, keep');
    }
  }

  lemma {:induction false} FilterNone(a: seq<string>, keep: set<string>)
    requires forall n :: n in a ==> n !in keep
    ensures Filter(a, keep) == []
  {
    if a != [] {
      assert a[0] in a;
      FilterNone(a[1..], keep);
    }
  }

  lemma {:induction false} FilterAll(a: seq<string>, keep: set<string>)
    requires forall n :: n in a ==> n in keep
    ensures Filter(a, keep) == a
  {
    if a != [] {
      assert a[0] in a;
      FilterAll(a[1..], keep);
    }
  }

  lemma {:induction false} NamesConcat(a: seq<Piece>, b: seq<Piece>)
    ensures Names(a + b) == Names(a) + Names(b)
  {
    if a == [] {
      assert a + b == b;
    } else {
      assert (a + b)[1..] == a[1..] + b;
      NamesConcat(a[1..], b);
      Reassociate(if a[0].Fn? then [a[0].name] else [], Names(a[1..]), Names(b));
    }
  }

  lemma {:induction false} FlattenConcat(a: seq<Piece>, b: seq<Piece>)
    ensures Flatten(a + b) == Flatten(a) + Flatten(b)
  {
    if a == [] {
      assert a + b == b;
    } else {
      assert (a + b)[1..] == a[1..] + b;
      FlattenConcat(a[1..], b);
      Reassociate(a[0].text, Flatten(a[1..]), Flatten(b));
    }
  }

  lemma FlattenOne(p: Piece)
    ensures Flatten([p]) == p.text
  {
    assert Flatten([p]) == p.text + Flatten([]);
  }

  lemma {:induction false} MadeConcat(gen: seq<Item>, a: seq<string>, b: seq<string>)
    ensures Made(gen, a + b) == Made(gen, a) + Made(gen, b)
  {
    if a == [] {
      assert a + b == b;
    } else {
      assert (a + b)[1..] == a[1..] + b;
      MadeConcat(gen, a[1..], b);
      Reassociate([Fn(a[0], TextOf(gen, a[0]))], Made(gen, a[1..]), Made(gen, b));
    }
  }

  lemma {:induction false} MadeNames(gen: seq<Item>, names: seq<string>)
    ensures Names(Made(gen, names)) == names
  {
    if names != [] {
      MadeNames(gen, names[1..]);
      NamesConcat([Fn(names[0], TextOf(gen, names[0]))], Made(gen, names[1..]));
      assert Names([Fn(names[0], TextOf(gen, names[0]))]) == [names[0]];
    }
  }

  lemma {:induction false} MadePieces(gen: seq<Item>, names: seq<string>)
    ensures forall p :: p in Made(gen, names) <==> p.Fn? && p.name in names && p.text == TextOf(gen, p.name)
  {
    if names != [] {
      MadePieces(gen, names[1..]);
    }
  }

  lemma {:induction false} ExpandConcat(gen: seq<Item>, present: set<string>, targets: set<string>, a: seq<Piece>, b: seq<Piece>)
    ensures ExpandAll(gen, present, targets, a + b) ==
            ExpandAll(gen, present, targets, a) + ExpandAll(gen, present, targets, b)
  {
    if a == [] {
      assert a + b == b;
    } else {
      assert (a + b)[1..] == a[1..] + b;
      ExpandConcat(gen, present, targets, a[1..], b);
      Reassociate(Expand(gen, present, targets, a[0]), ExpandAll(gen, present, targets, a[1..]), ExpandAll(gen, present, targets, b));
    }
  }

  lemma {:induction false} ExpandGaps(gen: seq<Item>, present: set<string>, targets: set<string>, ps: seq<Piece>)
    requires forall p :: p in ps ==> p.Gap?
    ensures ExpandAll(gen, present, targets, ps) == ps
  {
    if ps != [] {
      assert ps[0] in ps;
      ExpandGaps(gen, present, targets, ps[1..]);
    }
  }

  /** A name with no target left to add leaves every place empty; inserts are missing targets. */
  lemma {:induction false} InsertsAreMissing(order: seq<string>, present: set<string>, targets: set<string>, place: Place, n: nat)
    requires n <= |order|
    ensures forall x :: x in InsertsUpTo(order, present, targets, place, n) <==>
                        exists k :: 0 <= k < n && order[k] == x && Missing(order, present, targets, k)
                                    && PlaceOf(order, present, k) == place
  {
    if n > 0 {
      InsertsAreMissing(order, present, targets, place, n - 1);
    }
  }
}
