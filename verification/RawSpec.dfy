/** Lists of insertions, removals and prefix removals on a raw genesis state: what any such list
    makes of each key. */
module RawSpec {
  import opened Wrappers

  type Top = map<string, string>

  datatype Op = Put(key: string, value: string) | Drop(key: string) | DropPrefix(prefix: string)

  predicate Touches(op: Op, key: string) {
    match op
    case Put(k, _) => k == key
    case Drop(k) => k == key
    case DropPrefix(p) => p <= key
  }

  function Effect(op: Op, top: Top): Top {
    match op
    case Put(k, v) => top[k := v]
    case Drop(k) => top - {k}
    case DropPrefix(p) => map k | k in top && !(p <= k) :: top[k]
  }

  function Apply(ops: seq<Op>, top: Top): Top {
    if ops == [] then top else Effect(ops[|ops| - 1], Apply(ops[..|ops| - 1], top))
  }

  /** What a list of operations makes of one key, wherever it starts from. */
  datatype Fate = Kept | Set(value: string) | Gone

  function FateOf(ops: seq<Op>, key: string): Fate {
    if ops == [] then Kept
    else
      var last := ops[|ops| - 1];
      if !Touches(last, key) then FateOf(ops[..|ops| - 1], key)
      else if last.Put? then Set(last.value)
      else Gone
  }

  function Entry(top: Top, key: string): Option<string> {
    if key in top then Some(top[key]) else None
  }

  /** The exact frame: each key ends as the last operation that touches it says, and every key
      that no operation touches keeps its entry. */
  lemma {:induction false} ApplyIs(ops: seq<Op>, top: Top, key: string)
    ensures Entry(Apply(ops, top), key) ==
            match FateOf(ops, key)
            case Kept => Entry(top, key)
            case Set(v) => Some(v)
            case Gone => None
  {
    if ops != [] {
      ApplyIs(ops[..|ops| - 1], top, key);
    }
  }

  lemma {:induction false} FateKept(ops: seq<Op>, key: string)
    ensures FateOf(ops, key).Kept? <==> forall i :: 0 <= i < |ops| ==> !Touches(ops[i], key)
  {
    if ops != [] {
      FateKept(ops[..|ops| - 1], key);
    }
  }

  lemma SameEntries(a: Top, b: Top)
    requires forall k :: Entry(a, k) == Entry(b, k)
    ensures a == b
  {
    forall k | k in a
      ensures k in b && b[k] == a[k]
    {
      assert Entry(a, k) == Entry(b, k);
    }
    forall k | k in b
      ensures k in a
    {
      assert Entry(a, k) == Entry(b, k);
    }
  }

  /** States that differ only on touched keys are patched to the same state. */
  lemma ApplyForgetsTouched(ops: seq<Op>, a: Top, b: Top)
    requires forall k :: FateOf(ops, k).Kept? ==> Entry(a, k) == Entry(b, k)
    ensures Apply(ops, a) == Apply(ops, b)
  {
    forall k
      ensures Entry(Apply(ops, a), k) == Entry(Apply(ops, b), k)
    {
      ApplyIs(ops, a, k);
      ApplyIs(ops, b, k);
    }
    SameEntries(Apply(ops, a), Apply(ops, b));
  }

  /** Any such patch is idempotent. */
  lemma ApplyIsIdempotent(ops: seq<Op>, top: Top)
    ensures Apply(ops, Apply(ops, top)) == Apply(ops, top)
  {
    forall k
      ensures Entry(Apply(ops, Apply(ops, top)), k) == Entry(Apply(ops, top), k)
    {
      ApplyIs(ops, top, k);
      ApplyIs(ops, Apply(ops, top), k);
    }
    SameEntries(Apply(ops, Apply(ops, top)), Apply(ops, top));
  }

  lemma {:induction false} FateConcat(a: seq<Op>, b: seq<Op>, key: string)
    ensures FateOf(a + b, key) == if FateOf(b, key).Kept? then FateOf(a, key) else FateOf(b, key)
  {
    if b == [] {
      assert a + b == a;
    } else {
      assert (a + b)[..|a + b| - 1] == a + b[..|b| - 1];
      FateConcat(a, b[..|b| - 1], key);
    }
  }

  /** An inserted value survives exactly when no later operation on its key says otherwise. */
  lemma PutSurvivesIff(ops: seq<Op>, i: nat, top: Top)
    requires i < |ops| && ops[i].Put?
    ensures var later := FateOf(ops[i + 1..], ops[i].key);
            Entry(Apply(ops, top), ops[i].key) == Some(ops[i].value) <==> later == Kept || later == Set(ops[i].value)
  {
    var key := ops[i].key;
    assert ops == ops[..i + 1] + ops[i + 1..];
    FateConcat(ops[..i + 1], ops[i + 1..], key);
    assert ops[..i + 1][|ops[..i + 1]| - 1] == ops[i];
    ApplyIs(ops, top, key);
  }

  /** No key under a removed prefix survives unless it is inserted again later. */
  lemma PrefixIsGone(ops: seq<Op>, i: nat, top: Top, key: string)
    requires i < |ops| && Touches(ops[i], key) && !ops[i].Put?
    requires FateOf(ops[i + 1..], key).Kept?
    ensures key !in Apply(ops, top)
  {
    assert ops == ops[..i + 1] + ops[i + 1..];
    FateConcat(ops[..i + 1], ops[i + 1..], key);
    assert ops[..i + 1][|ops[..i + 1]| - 1] == ops[i];
    ApplyIs(ops, top, key);
  }
}
