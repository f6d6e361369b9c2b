/** `clear_prefix_with_meter`: deleting a storage prefix across blocks under a weight budget. */
module PrefixClearing {
  import opened Wrappers
  import opened Weights

  const U32_MAX: nat := 0xFFFF_FFFF

  class WeightMeter {
    const limit: Weight
    var consumed: Weight

    constructor (limit: Weight)
      ensures this.limit == limit == Remaining() && consumed.AllLte(limit)
      ensures forall amount, after :: Grew(consumed, amount, after) ==> after == amount
    {
      this.limit := limit;
      consumed := ZERO;
    }

    function Remaining(): Weight
      reads this
    {
      limit.SaturatingSub(consumed)
    }

    method Consume(w: Weight)
      modifies this
      ensures consumed == old(consumed).SaturatingAdd(w)
    {
      consumed := consumed.SaturatingAdd(w);
    }
  }

  /** What a removal reports: unique keys, loop turns and whether a cursor remains. */
  datatype Removal = Removal(unique: nat, loops: nat, cursor: bool)

  /** The entries under one storage prefix. */
  class Prefix {
    var entries: seq<string>

    constructor (entries: seq<string>)
      ensures this.entries == entries
    {
      this.entries := entries;
    }

    /** Removes up to `limit` entries; a cursor remains exactly when entries do. */
    method Clear(limit: nat) returns (r: Removal)
      modifies this
      ensures var k := Min(limit, |old(entries)|);
              entries == old(entries)[k..] && r == Removal(k, k, entries != [])
    {
      var k := Min(limit, |entries|);
      entries := entries[k..];
      r := Removal(k, k, entries != []);
    }
  }

  /** One component of the division: a zero divisor stands for no constraint. */
  function Quotient(a: nat, d: nat): nat {
    if d == 0 then U64_MAX else a / d
  }

  /** `checked_div_per_component`: how often `per` fits, ignoring components that are zero. */
  function Affordable(remaining: Weight, per: Weight): Option<nat> {
    if per.refTime == 0 && per.proofSize == 0 then None
    else Some(Min(Quotient(remaining.refTime, per.refTime), Quotient(remaining.proofSize, per.proofSize)))
  }

  /** The limit handed to the removal: zero when nothing may be removed. */
  function Allowance(remaining: Weight, per: Weight): nat {
    var n := Affordable(remaining, per);
    if n.None? then 0 else Min(n.value, U32_MAX)
  }

  /** Both components have grown by the amount, without saturation. */
  ghost predicate Grew(before: Weight, amount: Weight, after: Weight) {
    after.refTime == before.refTime + amount.refTime && after.proofSize == before.proofSize + amount.proofSize
  }

  /** One call may remove `k` items: they weigh something, the budget pays for them in both components
      and a u32 counts them. */
  ghost predicate MayRemove(left: Weight, per: Weight, k: nat) {
    (per.refTime > 0 || per.proofSize > 0) && k <= 0xFFFF_FFFF && Times(per, k).AllLte(left)
  }

  /** Of `n` entries as many are removed as one call may: none when an item weighs nothing, no more
      than a u32 counts, and at least any number that one call may remove, or all. */
  ghost predicate AsManyAsPaid(removed: nat, n: nat, left: Weight, per: Weight) {
    removed <= n && (removed > 0 ==> (per.refTime > 0 || per.proofSize > 0) && removed <= 0xFFFF_FFFF) &&
    forall k: nat :: MayRemove(left, per, k) ==> k <= removed || n == removed
  }

  method ClearPrefixWithMeter(meter: WeightMeter, perItem: Weight, prefix: Prefix) returns (done: bool, ghost removed: nat)
    requires perItem.Valid() && meter.limit.Valid() && meter.consumed.AllLte(meter.limit)
    modifies meter, prefix
    ensures AsManyAsPaid(removed, |old(prefix.entries)|, old(meter.Remaining()), perItem)
    ensures prefix.entries == old(prefix.entries)[removed..]
    ensures Grew(old(meter.consumed), Times(perItem, removed), meter.consumed) && meter.consumed.AllLte(meter.limit)
    ensures done <==> prefix.entries == [] && MayRemove(old(meter.Remaining()), perItem, 1)
  {
    ghost var n, allowance := |prefix.entries|, Allowance(meter.Remaining(), perItem);
    RemovalIs(meter.Remaining(), perItem, n);
    assert prefix.entries[0..] == prefix.entries;
    removed := Min(allowance, n);
    var fits := Affordable(meter.Remaining(), perItem);
    if fits.None? {
      return false, 0;
    }
    var limit := if fits.value <= U32_MAX then fits.value else U32_MAX;
    assert limit == allowance;
    if limit == 0 {
      return false, 0;
    }
    ChargeFits(meter.limit, meter.consumed, perItem, removed);
    var result := prefix.Clear(limit);
    meter.Consume(perItem.SaturatingMul(Max(result.unique, result.loops)));
    return !result.cursor, removed;
  }

  /** `a` added `n` times. */
  function Repeated(a: nat, n: nat): nat {
    if n == 0 then 0 else Repeated(a, n - 1) + a
  }

  lemma {:induction false} RepeatedIs(a: nat, n: nat)
    ensures Repeated(a, n) == a * n
  {
    if n > 0 {
      RepeatedIs(a, n - 1);
      assert a * n == a * (n - 1) + a;
    }
  }

  lemma {:induction false} RepeatedAdds(a: nat, m: nat, n: nat)
    ensures Repeated(a, m) + Repeated(a, n) == Repeated(a, m + n)
  {
    if n > 0 {
      RepeatedAdds(a, m, n - 1);
    }
  }

  /** The weight of `n` items, without saturation. */
  function Times(w: Weight, n: nat): Weight {
    Weight(Repeated(w.refTime, n), Repeated(w.proofSize, n))
  }

  lemma TimesIs(w: Weight, n: nat)
    ensures Times(w, n) == Weight(w.refTime * n, w.proofSize * n)
  {
    RepeatedIs(w.refTime, n);
    RepeatedIs(w.proofSize, n);
  }

  /** The quotient is the floored division. */
  lemma QuotientIff(a: nat, d: nat, k: nat)
    requires d > 0
    ensures k <= Quotient(a, d) <==> d * k <= a
  {
    var q := a / d;
    assert d * q <= a < d * q + d;
    if k <= q {
      MultiplyUp(d, k, q);
    } else {
      MultiplyUp(d, q + 1, k);
      assert d * (q + 1) == d * q + d;
    }
  }

  /** The budget pays for `k` items exactly when `k` is within the affordable number. */
  lemma AffordableIff(remaining: Weight, per: Weight, k: nat)
    requires remaining.Valid() && per.Valid() && k <= U64_MAX && Affordable(remaining, per).Some?
    ensures k <= Affordable(remaining, per).value <==> Times(per, k).AllLte(remaining)
  {
    TimesIs(per, k);
    if per.refTime > 0 {
      QuotientIff(remaining.refTime, per.refTime, k);
    }
    if per.proofSize > 0 {
      QuotientIff(remaining.proofSize, per.proofSize, k);
    }
  }

  /** There is no allowance only when an item weighs nothing at all. */
  lemma AffordableNoneIff(remaining: Weight, per: Weight)
    ensures Affordable(remaining, per).None? <==> per == Weight(0, 0)
  {
  }

  /** The allowance is the largest number of items that one call may remove. */
  lemma AllowanceIff(left: Weight, per: Weight, k: nat)
    requires left.Valid() && per.Valid()
    ensures k <= Allowance(left, per) <==> k == 0 || MayRemove(left, per, k)
  {
    if per != ZERO && k <= U32_MAX {
      AffordableIff(left, per, k);
    }
  }

  lemma RemovalIs(left: Weight, per: Weight, n: nat)
    requires left.Valid() && per.Valid()
    ensures AsManyAsPaid(Min(Allowance(left, per), n), n, left, per)
    ensures Allowance(left, per) > 0 <==> MayRemove(left, per, 1)
  {
    var removed := Min(Allowance(left, per), n);
    AllowanceIff(left, per, removed);
    AllowanceIff(left, per, 1);
    forall k: nat | MayRemove(left, per, k)
      ensures k <= removed || n == removed
    {
      AllowanceIff(left, per, k);
    }
  }

  /** The number removed is the allowance, or all entries. */
  lemma RemovedIs(left: Weight, per: Weight, n: nat, k: nat)
    requires left.Valid() && per.Valid() && AsManyAsPaid(k, n, left, per) && Times(per, k).AllLte(left)
    ensures k == Min(Allowance(left, per), n) && (Allowance(left, per) > 0 <==> MayRemove(left, per, 1))
  {
    RemovalIs(left, per, n);
    AllowanceIff(left, per, k);
    AllowanceIff(left, per, Allowance(left, per));
  }

  /** No charge within the allowance saturates or passes the limit. */
  lemma ChargeFits(limit: Weight, consumed: Weight, per: Weight, k: nat)
    requires limit.Valid() && per.Valid() && consumed.AllLte(limit)
    requires k <= Allowance(limit.SaturatingSub(consumed), per)
    ensures consumed.SaturatingAdd(per.SaturatingMul(k)) == consumed.Plus(Times(per, k))
    ensures consumed.Plus(Times(per, k)).AllLte(limit)
  {
    TimesIs(per, k);
    if Affordable(limit.SaturatingSub(consumed), per).Some? {
      AffordableIff(limit.SaturatingSub(consumed), per, k);
    }
  }

  lemma TimesAdds(w: Weight, a: nat, b: nat)
    ensures Times(w, a).Plus(Times(w, b)) == Times(w, a + b)
  {
    RepeatedAdds(w.refTime, a, b);
    RepeatedAdds(w.proofSize, a, b);
  }

  // ----- Many blocks ---------------------------------------------------------------------

  /** A cleanup resumed block after block, each with a fresh meter, until it reports completion. */
  datatype Progress = Progress(remaining: nat, calls: nat, done: bool)

  /** The cleanup of `n` entries when block `i` may remove up to `caps[i]` of them. */
  function Cleanup(caps: seq<nat>, n: nat): Progress {
    if caps == [] then Progress(n, 0, false)
    else if 0 < caps[0] && n <= caps[0] then Progress(0, 1, true)
    else
      var rest := Cleanup(caps[1..], n - Min(caps[0], n));
      rest.(calls := 1 + rest.calls)
  }

  function Caps(per: Weight, limits: seq<Weight>): (caps: seq<nat>)
    ensures |caps| == |limits|
    ensures forall i :: 0 <= i < |limits| ==> caps[i] == Allowance(limits[i], per)
  {
    seq(|limits|, i requires 0 <= i < |limits| => Allowance(limits[i], per))
  }

  /** The cleanup as the blocks run it, on the storage itself: the total charge is the per-item
      weight times the number of entries removed, whatever the budgets of the blocks. */
  method RunCleanup(per: Weight, limits: seq<Weight>, prefix: Prefix)
    returns (p: Progress, charged: Weight, ghost removed: nat)
    requires per.Valid() && forall i :: 0 <= i < |limits| ==> limits[i].Valid()
    modifies prefix
    ensures p == Cleanup(Caps(per, limits), |old(prefix.entries)|)
    ensures p.remaining == |prefix.entries| && removed + |prefix.entries| == |old(prefix.entries)|
    ensures charged == Times(per, removed)
    decreases |limits|
  {
    ghost var n := |prefix.entries|;
    if limits == [] {
      return Progress(|prefix.entries|, 0, false), ZERO, 0;
    }
    var done;
    ghost var k;
    done, charged, k := RunBlock(per, limits[0], prefix);
    if done {
      CleanupFinishes(per, limits, n, k);
      return Progress(0, 1, true), charged, k;
    }
    var rest, more;
    ghost var later;
    rest, more, later := RunCleanup(per, limits[1..], prefix);
    CleanupGoesOn(per, limits, n, k, rest);
    TimesAdds(per, k, later);
    return rest.(calls := 1 + rest.calls), charged.Plus(more), k + later;
  }

  lemma CleanupFinishes(per: Weight, limits: seq<Weight>, n: nat, k: nat)
    requires limits != [] && limits[0].Valid() && per.Valid()
    requires AsManyAsPaid(k, n, limits[0], per) && Times(per, k).AllLte(limits[0]) && k == n && MayRemove(limits[0], per, 1)
    ensures Cleanup(Caps(per, limits), n) == Progress(0, 1, true)
  {
    var caps := Caps(per, limits);
    assert caps[0] == Allowance(limits[0], per);
    RemovedIs(limits[0], per, n, k);
  }

  lemma CleanupGoesOn(per: Weight, limits: seq<Weight>, n: nat, k: nat, rest: Progress)
    requires limits != [] && limits[0].Valid() && per.Valid()
    requires AsManyAsPaid(k, n, limits[0], per) && Times(per, k).AllLte(limits[0]) && !(k == n && MayRemove(limits[0], per, 1))
    requires rest == Cleanup(Caps(per, limits[1..]), n - k)
    ensures Cleanup(Caps(per, limits), n) == rest.(calls := 1 + rest.calls)
  {
    var caps := Caps(per, limits);
    assert caps[0] == Allowance(limits[0], per) && caps[1..] == Caps(per, limits[1..]);
    RemovedIs(limits[0], per, n, k);
  }

  /** One block: a fresh meter and one call. */
  method RunBlock(per: Weight, limit: Weight, prefix: Prefix) returns (done: bool, charged: Weight, ghost k: nat)
    requires per.Valid() && limit.Valid()
    modifies prefix
    ensures AsManyAsPaid(k, |old(prefix.entries)|, limit, per) && |prefix.entries| == |old(prefix.entries)| - k
    ensures charged == Times(per, k) && charged.AllLte(limit)
    ensures done <==> k == |old(prefix.entries)| && MayRemove(limit, per, 1)
  {
    var meter := new WeightMeter(limit);
    done, k := ClearPrefixWithMeter(meter, per, prefix);
    charged := meter.consumed;
    SuffixLength(old(prefix.entries), k);
  }

  lemma SuffixLength(s: seq<string>, k: nat)
    requires k <= |s|
    ensures |s[k..]| == |s| - k && (s[k..] == [] <==> k == |s|)
  {
  }

  /** The number of entries that the first `i` blocks may remove. */
  function Capacity(caps: seq<nat>, i: nat): nat
    requires i <= |caps|
  {
    if i == 0 then 0 else Capacity(caps, i - 1) + caps[i - 1]
  }

  lemma {:induction false} CapacityShifts(caps: seq<nat>, i: nat)
    requires 0 < i <= |caps|
    ensures Capacity(caps, i) == caps[0] + Capacity(caps[1..], i - 1)
  {
    if i > 1 {
      CapacityShifts(caps, i - 1);
      assert caps[1..][i - 2] == caps[i - 1];
    }
  }

  /** A block that may remove something, by which the blocks together may remove all entries. */
  ghost predicate Completes(caps: seq<nat>, n: nat, i: nat)
    requires i < |caps|
  {
    caps[i] > 0 && n <= Capacity(caps, i + 1)
  }

  /** The cleanup reports completion in the first such block and only there; then nothing remains,
      and until then every entry that may be removed has been. */
  lemma {:induction false} CleanupCompletes(caps: seq<nat>, n: nat)
    ensures var p := Cleanup(caps, n);
            p.calls <= |caps| && p.remaining == n - Min(n, Capacity(caps, p.calls)) &&
            (p.done ==> p.remaining == 0 && 0 < p.calls && Completes(caps, n, p.calls - 1) &&
                        forall i :: 0 <= i < p.calls - 1 ==> !Completes(caps, n, i)) &&
            (!p.done ==> p.calls == |caps| && forall i :: 0 <= i < |caps| ==> !Completes(caps, n, i))
  {
    if caps != [] {
      assert Capacity(caps, 1) == Capacity(caps, 0) + caps[0];
      if !(0 < caps[0] && n <= caps[0]) {
        var k := Min(caps[0], n);
        CleanupCompletes(caps[1..], n - k);
        CapacityShifts(caps, 1 + Cleanup(caps[1..], n - k).calls);
        forall i | 0 < i < |caps|
          ensures Completes(caps, n, i) <==> Completes(caps[1..], n - k, i - 1)
        {
          CompletesShifts(caps, n, i);
        }
        assert !Completes(caps, n, 0);
      }
    }
  }

  lemma CompletesShifts(caps: seq<nat>, n: nat, i: nat)
    requires 0 < i < |caps| && !Completes(caps, n, 0)
    ensures Completes(caps, n, i) <==> Completes(caps[1..], n - Min(caps[0], n), i - 1)
  {
    CapacityShifts(caps, i + 1);
    assert Capacity(caps, 1) == Capacity(caps, 0) + caps[0];
    assert caps[1..][i - 1] == caps[i];
  }

  /** The number of calls a cleanup needs when every block may remove `c` entries. */
  function CallsNeeded(n: nat, c: nat): nat
    requires c > 0
  {
    if n == 0 then 1 else (n + c - 1) / c
  }

  lemma {:induction false} UniformCapacity(caps: seq<nat>, c: nat, i: nat)
    requires i <= |caps| && forall j :: 0 <= j < |caps| ==> caps[j] == c
    ensures Capacity(caps, i) == c * i
  {
    if i > 0 {
      UniformCapacity(caps, c, i - 1);
      assert c * i == c * (i - 1) + c;
    }
  }

  lemma QuotientIs(x: nat, c: nat, k: nat)
    requires c > 0 && c * k <= x < c * k + c
    ensures x / c == k
  {
    var q := x / c;
    assert c * q <= x < c * q + c;
    if q < k {
      MultiplyUp(c, q + 1, k);
    } else if k < q {
      MultiplyUp(c, k + 1, q);
    }
  }

  lemma CallsNeededIs(n: nat, c: nat, k: nat)
    requires c > 0 && k > 0 && n <= c * k && (k > 1 ==> c * (k - 1) < n)
    ensures CallsNeeded(n, c) == k
  {
    MultiplyUp(c, 0, k - 1);
    assert c * (k - 1) == c * k - c;
    if n > 0 {
      QuotientIs(n + c - 1, c, k);
    }
  }

  /** With the same allowance `c` in every block, `n` entries take max(1, ceil(n / c)) calls. */
  lemma UniformCleanup(caps: seq<nat>, c: nat, n: nat)
    requires c > 0 && forall j :: 0 <= j < |caps| ==> caps[j] == c
    ensures var p := Cleanup(caps, n);
            (p.done <==> CallsNeeded(n, c) <= |caps|) && (p.done ==> p.calls == CallsNeeded(n, c))
  {
    var p := Cleanup(caps, n);
    CleanupCompletes(caps, n);
    if p.done {
      UniformCapacity(caps, c, p.calls);
      if p.calls > 1 {
        UniformCapacity(caps, c, p.calls - 1);
        assert !Completes(caps, n, p.calls - 2);
      }
      CallsNeededIs(n, c, p.calls);
    } else if 0 < CallsNeeded(n, c) <= |caps| {
      var k := CallsNeeded(n, c);
      UniformCapacity(caps, c, k);
      EnoughCalls(n, c);
      assert Completes(caps, n, k - 1);
    } else {
      EnoughCalls(n, c);
    }
  }

  lemma EnoughCalls(n: nat, c: nat)
    requires c > 0
    ensures CallsNeeded(n, c) > 0 && n <= c * CallsNeeded(n, c)
  {
    if n > 0 {
      var q := (n + c - 1) / c;
      assert n + c - 1 < c * q + c;
      assert q == 0 ==> c * q == 0;
    }
  }
}
