/** `get_sum_alpha_price`: the sum of the subnet prices below one, and the reads it charges. */
module AlphaPrice {
  import opened Wrappers
  import opened Sequences
  import opened Weights
  import opened Metering

  // ----- U64F64 fixed point, as its bits -------------------------------------------------

  const ONE: nat := 0x1_0000_0000_0000_0000
  const FIXED_MAX: nat := 0xFFFF_FFFF_FFFF_FFFF_FFFF_FFFF_FFFF_FFFF
  const RAO: nat := 1_000_000_000
  const EVM_FACTOR: nat := 1_000_000_000

  const ROOT: nat := 0
  const U16_MAX: nat := 65535

  function FixedAdd(a: nat, b: nat): nat {
    Min(a + b, FIXED_MAX)
  }

  /** Multiplication by a whole number: the product of the bits, held at the largest value. */
  function FixedScale(a: nat, n: nat): nat {
    Min(a * n, FIXED_MAX)
  }

  /** `saturating_to_num::<u64>`: the whole part, held at the largest u64. */
  function FixedToU64(a: nat): nat {
    Min(a / ONE, U64_MAX)
  }

  // ----- The sum -------------------------------------------------------------------------

  function NonRoot(netuids: seq<nat>): seq<nat> {
    if netuids == [] then []
    else (if netuids[0] != ROOT then [netuids[0]] else []) + NonRoot(netuids[1..])
  }

  /** The exact sum of the prices below one over the subnets that are not root. */
  function SumBelowOne(netuids: seq<nat>, price: nat -> nat): nat {
    if netuids == [] then 0
    else
      var p := price(netuids[0]);
      (if netuids[0] != ROOT && p < ONE then p else 0) + SumBelowOne(netuids[1..], price)
  }

  ghost predicate DistinctU16(netuids: seq<nat>) {
    (forall i :: 0 <= i < |netuids| ==> netuids[i] <= U16_MAX) &&
    (forall i, j :: 0 <= i < j < |netuids| ==> netuids[i] != netuids[j])
  }

  lemma {:induction false} SumOfNonRoot(netuids: seq<nat>, price: nat -> nat)
    ensures SumBelowOne(NonRoot(netuids), price) == SumBelowOne(netuids, price)
    ensures |NonRoot(netuids)| <= |netuids| && forall i :: 0 <= i < |NonRoot(netuids)| ==> NonRoot(netuids)[i] != ROOT
  {
    if netuids != [] {
      SumOfNonRoot(netuids[1..], price);
      if netuids[0] != ROOT {
        assert NonRoot(netuids)[1..] == NonRoot(netuids[1..]);
      } else {
        assert NonRoot(netuids) == NonRoot(netuids[1..]);
      }
    }
  }

  lemma {:induction false} SumSnoc(netuids: seq<nat>, x: nat, price: nat -> nat)
    ensures SumBelowOne(netuids + [x], price) == SumBelowOne(netuids, price) + SumBelowOne([x], price)
  {
    if netuids == [] {
      assert netuids + [x] == [x];
    } else {
      assert (netuids + [x])[1..] == netuids[1..] + [x];
      SumSnoc(netuids[1..], x, price);
    }
  }

  /** The sum starts at zero; one more network adds its price if it is not root and costs less than
      one, in 64 fractional bits, and nothing otherwise. */
  lemma SumGrows(netuids: seq<nat>, x: nat, price: nat -> nat)
    ensures SumBelowOne([], price) == 0
    ensures SumBelowOne(netuids + [x], price) - SumBelowOne(netuids, price) ==
            if x != 0 && price(x) < 0x1_0000_0000_0000_0000 then price(x) else 0
  {
    SumSnoc(netuids, x, price);
    assert SumBelowOne([x], price) == (if x != ROOT && price(x) < ONE then price(x) else 0) + SumBelowOne([], price);
  }

  lemma {:induction false} SumIsSmall(netuids: seq<nat>, price: nat -> nat)
    ensures SumBelowOne(netuids, price) <= |netuids| * (ONE - 1)
  {
    if netuids != [] {
      SumIsSmall(netuids[1..], price);
      assert |netuids| * (ONE - 1) == |netuids[1..]| * (ONE - 1) + (ONE - 1);
    }
  }

  // ----- At most 65536 networks ----------------------------------------------------------

  lemma {:induction false} RangeSize(n: nat, below: set<nat>)
    requires forall i :: i in below ==> i < n
    ensures |below| <= n
  {
    if n == 0 {
      assert below == {};
    } else {
      RangeSize(n - 1, below - {n - 1});
    }
  }

  lemma NetworksAreFew(netuids: seq<nat>)
    requires DistinctU16(netuids)
    ensures |netuids| <= U16_MAX + 1
  {
    DistinctSize(netuids);
    RangeSize(U16_MAX + 1, Elements(netuids));
  }

  /** Neither the sum, the scaling nor the conversion saturates: the result is the floor of the
      exact sum times a billion. */
  lemma ScalingIsExact(netuids: seq<nat>, price: nat -> nat)
    requires DistinctU16(netuids)
    ensures var sum := SumBelowOne(netuids, price);
            sum <= FIXED_MAX && sum * RAO <= FIXED_MAX && sum * RAO / ONE <= U64_MAX &&
            FixedToU64(FixedScale(sum, RAO)) == sum * RAO / ONE
  {
    var sum := SumBelowOne(netuids, price);
    SumIsSmall(netuids, price);
    NetworksAreFew(netuids);
    assert sum <= (U16_MAX + 1) * (ONE - 1);
  }

  // ----- Order does not matter -----------------------------------------------------------

  lemma {:induction false} SumRemoves(netuids: seq<nat>, price: nat -> nat, k: nat)
    requires k < |netuids|
    ensures SumBelowOne(netuids, price) ==
            SumBelowOne([netuids[k]], price) + SumBelowOne(netuids[..k] + netuids[k + 1..], price)
  {
    if k == 0 {
      assert netuids[..0] + netuids[1..] == netuids[1..];
      assert SumBelowOne([netuids[0]][1..], price) == 0;
    } else {
      var rest := netuids[1..];
      SumRemoves(rest, price, k - 1);
      assert (netuids[..k] + netuids[k + 1..])[1..] == rest[..k - 1] + rest[k..];
    }
  }

  lemma RemoveOne(s: seq<nat>, k: nat)
    requires k < |s|
    ensures multiset(s) == multiset{s[k]} + multiset(s[..k] + s[k + 1..])
  {
    assert s == s[..k] + [s[k]] + s[k + 1..];
  }

  lemma FindFirst(a: seq<nat>, b: seq<nat>) returns (k: nat)
    requires multiset(a) == multiset(b) && a != []
    ensures k < |b| && b[k] == a[0] && multiset(a[1..]) == multiset(b[..k] + b[k + 1..])
  {
    assert a[0] in multiset(a);
    k :| 0 <= k < |b| && b[k] == a[0];
    RemoveOne(a, 0);
    assert a[..0] + a[1..] == a[1..];
    RemoveOne(b, k);
    SameRest(multiset(a[1..]), multiset(b[..k] + b[k + 1..]), a[0]);
  }

  lemma SameLength(a: seq<nat>, b: seq<nat>)
    requires multiset(a) == multiset(b)
    ensures |a| == |b|
  {
    assert |a| == |multiset(a)| && |b| == |multiset(b)|;
  }

  /** The sum is the same for every order in which storage yields the same networks. */
  lemma {:induction false} SumIgnoresOrder(a: seq<nat>, b: seq<nat>, price: nat -> nat)
    requires multiset(a) == multiset(b)
    ensures SumBelowOne(a, price) == SumBelowOne(b, price)
  {
    SameLength(a, b);
    if a != [] {
      var k := FindFirst(a, b);
      SumIgnoresOrder(a[1..], b[..k] + b[k + 1..], price);
      SumRemoves(b, price, k);
      SumRemoves(a, price, 0);
      assert a[..0] + a[1..] == a[1..];
    }
  }

  lemma SameRest(p: multiset<nat>, q: multiset<nat>, x: nat)
    requires multiset{x} + p == multiset{x} + q
    ensures p == q
  {
    assert p == (multiset{x} + p) - multiset{x};
    assert q == (multiset{x} + q) - multiset{x};
  }

  // ----- The call ------------------------------------------------------------------------

  /** The storage reads the call pays for. */
  function Reads(subnetLimit: nat, networks: nat): nat {
    1 + Max(subnetLimit, 5 * networks)
  }

  /** The three charges add up to one read, then the larger of the subnet limit and five reads a
      network; a frame affords the three exactly when it affords their unsaturated sum. */
  lemma ChargesAddUp(readGas: nat, subnetLimit: nat, networks: nat, gas: nat)
    requires gas <= U64_MAX && readGas <= U64_MAX
    ensures var a, b, c := SatMul(readGas, 1), SatMul(readGas, subnetLimit), SatMul(readGas, SatSub(SatMul(networks, 5), subnetLimit));
            networks * 5 <= U64_MAX ==>
            (a + b + c <= gas <==> readGas * Reads(subnetLimit, networks) <= gas) &&
            (a + b + c <= gas ==> a + b + c == readGas * Reads(subnetLimit, networks))
  {
    if networks * 5 <= U64_MAX {
      var extra := SatSub(5 * networks, subnetLimit);
      assert SatMul(networks, 5) == 5 * networks;
      assert Reads(subnetLimit, networks) == 1 + subnetLimit + extra;
      Distribute(readGas, subnetLimit, extra);
      if readGas == 0 {
        assert readGas * subnetLimit == 0 && readGas * extra == 0;
      }
    }
  }

  lemma Distribute(g: nat, a: nat, b: nat)
    ensures g * (1 + a + b) == g + g * a + g * b
  {
  }

  /** `get_sum_alpha_price`; `added` is what iterating `NetworksAdded` yields. */
  method GetSumAlphaPrice(handle: Handle, readGas: nat, subnetLimit: nat, added: seq<nat>, price: nat -> nat)
    returns (r: Option<nat>)
    requires handle.State().Valid() && DistinctU16(added) && readGas <= U64_MAX
    modifies handle
    ensures handle.State().Valid()
    ensures var cost := readGas * (1 + Max(subnetLimit, 5 * |NonRoot(added)|));
            if old(handle.used) + cost <= handle.limit
            then r == Some(SumBelowOne(added, price) * 1_000_000_000 / 0x1_0000_0000_0000_0000 * 1_000_000_000) &&
                 handle.used == old(handle.used) + cost
            else r == None && handle.used == handle.limit
  {
    ghost var gas := handle.limit - handle.used;
    SumOfNonRoot(added, price);
    NetworksAreFew(added);
    ChargesAddUp(readGas, subnetLimit, |NonRoot(added)|, gas);
    var ok := handle.RecordDbReads(readGas, 1);
    if !ok {
      return None;
    }
    ok := handle.RecordDbReads(readGas, subnetLimit);
    if !ok {
      return None;
    }
    var netuids := NonRoot(added);
    ok := handle.RecordDbReads(readGas, SatSub(SatMul(|netuids|, 5), subnetLimit));
    if !ok {
      return None;
    }
    ScalingIsExact(added, price);
    var sum := SumPrices(netuids, price);
    var scaled := FixedToU64(FixedScale(sum, RAO));
    return Some(scaled * EVM_FACTOR);
  }

  /** The loop: saturating additions of the prices below one. */
  method SumPrices(netuids: seq<nat>, price: nat -> nat) returns (sum: nat)
    requires SumBelowOne(netuids, price) <= FIXED_MAX && forall i :: 0 <= i < |netuids| ==> netuids[i] != ROOT
    ensures sum == SumBelowOne(netuids, price)
  {
    sum := 0;
    for i := 0 to |netuids|
      invariant sum == SumBelowOne(netuids[..i], price)
    {
      var p := price(netuids[i]);
      SumSnoc(netuids[..i], netuids[i], price);
      assert netuids[..i + 1] == netuids[..i] + [netuids[i]];
      SumPrefix(netuids, price, i + 1);
      if p < ONE {
        sum := FixedAdd(sum, p);
      }
    }
    assert netuids[..|netuids|] == netuids;
  }

  lemma {:induction false} SumPrefix(netuids: seq<nat>, price: nat -> nat, i: nat)
    requires i <= |netuids|
    ensures SumBelowOne(netuids[..i], price) <= SumBelowOne(netuids, price)
  {
    if i > 0 {
      SumPrefix(netuids[1..], price, i - 1);
      assert netuids[..i][1..] == netuids[1..][..i - 1];
    }
  }
}
