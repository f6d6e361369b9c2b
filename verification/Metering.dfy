/** Gas and weight metering of a dispatch from an EVM precompile: check, reserve, dispatch,
    charge, refund.  The dispatched call is an arbitrary outcome with a reported weight. */
module Metering {
  import opened Wrappers
  import opened Weights

  // ----- Gas and weight ------------------------------------------------------------------

  /** The runtime's conversion between gas and reference time. */
  datatype Mapping = Mapping(toWeight: nat -> nat, toGas: nat -> nat)

  /** A weight that the gas on hand is worth costs no more than that gas. */
  ghost predicate Lawful(m: Mapping) {
    forall gas: nat, weight: nat :: weight <= m.toWeight(gas) ==> m.toGas(weight) <= gas
  }

  /** `FixedGasWeightMapping`: multiply with saturation, divide rounding down. */
  function Fixed(weightPerGas: nat): Mapping
    requires weightPerGas > 0
  {
    Mapping(gas => SatMul(weightPerGas, gas), weight => weight / weightPerGas)
  }

  lemma DivideBelow(weight: nat, weightPerGas: nat, gas: nat)
    requires weightPerGas > 0 && weight <= weightPerGas * gas
    ensures weight / weightPerGas <= gas
  {
    var quotient := weight / weightPerGas;
    assert weightPerGas * quotient <= weight;
    if quotient > gas {
      MultiplyUp(weightPerGas, gas + 1, quotient);
      assert false;
    }
  }

  lemma FixedIsLawful(weightPerGas: nat)
    requires weightPerGas > 0
    ensures Lawful(Fixed(weightPerGas))
  {
    var m := Fixed(weightPerGas);
    forall gas: nat, weight: nat | weight <= m.toWeight(gas)
      ensures m.toGas(weight) <= gas
    {
      DivideBelow(weight, weightPerGas, gas);
    }
  }

  // ----- The frame -----------------------------------------------------------------------

  /** An external counter with its limit; a frame without weight information has none. */
  datatype Meter = Untracked | Tracked(limit: nat, usage: nat) {
    predicate Valid() {
      Tracked? ==> usage <= limit <= U64_MAX
    }

    /** Recording past the limit fails and leaves the counter at its limit. */
    function Record(amount: nat): (Meter, bool) {
      if Untracked? then (this, true)
      else if usage + amount > limit then (Tracked(limit, limit), false)
      else (Tracked(limit, usage + amount), true)
    }

    function Refund(amount: nat): Meter {
      if Untracked? then this else Tracked(limit, SatSub(usage, amount))
    }
  }

  /** The gas and the two external counters of one precompile frame. */
  datatype Frame = Frame(limit: nat, used: nat, refTime: Meter, proofSize: Meter) {
    predicate Valid() {
      used <= limit <= U64_MAX && refTime.Valid() && proofSize.Valid()
    }

    function Remaining(): nat
      requires Valid()
    {
      limit - used
    }

    /** Charging more than remains exhausts the frame and fails. */
    function Charge(cost: nat): (Frame, bool) {
      if used + cost > limit then (this.(used := limit), false) else (this.(used := used + cost), true)
    }

    /** Reference time first, then proof size; the first failure ends the recording. */
    function Reserve(w: Weight): (Frame, bool) {
      var (r, rOk) := refTime.Record(w.refTime);
      if !rOk then (this.(refTime := r), false)
      else
        var (p, pOk) := proofSize.Record(w.proofSize);
        (this.(refTime := r, proofSize := p), pOk)
    }

    function Refund(w: Weight): Frame {
      this.(refTime := refTime.Refund(w.refTime), proofSize := proofSize.Refund(w.proofSize))
    }
  }

  // ----- A dispatch ----------------------------------------------------------------------

  /** What a call declares: its own weight and that of its extensions. */
  datatype DispatchInfo = DispatchInfo(call: Weight, extension: Weight) {
    predicate Valid() {
      call.Valid() && extension.Valid()
    }

    function Total(): Weight {
      call.SaturatingAdd(extension)
    }
  }

  /** What a dispatch does: it succeeds or fails, and may report the weight of the call. */
  datatype Outcome = Outcome(ok: bool, reported: Option<Weight>)

  /** The weight reported, extension included, or the declared one when none is reported. */
  function Reported(info: DispatchInfo, outcome: Outcome): Weight {
    (if outcome.reported.Some? then outcome.reported.value else info.call).SaturatingAdd(info.extension)
  }

  /** The weight charged: the reported one, each component capped at what was declared. */
  function Actual(info: DispatchInfo, outcome: Outcome): Weight {
    var reported, total := Reported(info, outcome), info.Total();
    Weight(Min(reported.refTime, total.refTime), Min(reported.proofSize, total.proofSize))
  }

  datatype Exit = Returned | CallFailed | OutOfGas

  predicate PassesCheck(m: Mapping, f: Frame, info: DispatchInfo)
    requires f.Valid()
  {
    info.Total().refTime <= m.toWeight(f.Remaining())
  }

  /** The frame after `dispatch_with_info`, how it exits, and whether the call was executed. */
  function Dispatched(m: Mapping, f: Frame, info: DispatchInfo, outcome: Outcome): (r: (Frame, Exit, bool))
    requires f.Valid()
    ensures r.0.Valid() && r.0.limit == f.limit
  {
    if !PassesCheck(m, f, info) then (f.Charge(f.Remaining()).0, OutOfGas, false)
    else
      var (reserved, ok) := f.Reserve(info.Total());
      if !ok then (reserved, OutOfGas, false)
      else
        var actual := Actual(info, outcome);
        var (charged, paid) := reserved.Charge(m.toGas(actual.refTime));
        if !paid then (charged, OutOfGas, true)
        else (charged.Refund(info.Total().SaturatingSub(actual)), if outcome.ok then Returned else CallFailed, true)
  }

  class Handle {
    const mapping: Mapping
    const limit: nat
    var used: nat
    var refTime: Meter
    var proofSize: Meter

    function State(): Frame
      reads this
    {
      Frame(limit, used, refTime, proofSize)
    }

    constructor (mapping: Mapping, start: Frame)
      requires start.Valid()
      ensures State() == start && this.mapping == mapping
    {
      this.mapping := mapping;
      limit, used, refTime, proofSize := start.limit, start.used, start.refTime, start.proofSize;
    }

    method RecordCost(cost: nat) returns (ok: bool)
      requires State().Valid()
      modifies this
      ensures State().Valid() && (State(), ok) == old(State()).Charge(cost)
      ensures ok <==> old(used) + cost <= limit
      ensures State() == old(State()).(used := if ok then old(used) + cost else limit)
    {
      ok := used + cost <= limit;
      used := if ok then used + cost else limit;
    }

    method RecordExternalCost(w: Weight) returns (ok: bool)
      requires State().Valid()
      modifies this`refTime, this`proofSize
      ensures State().Valid() && (State(), ok) == old(State()).Reserve(w)
      ensures ok <==> (refTime.Tracked? ==> old(refTime).usage + w.refTime <= refTime.limit) &&
                      (proofSize.Tracked? ==> old(proofSize).usage + w.proofSize <= proofSize.limit)
    {
      var r := refTime.Record(w.refTime);
      refTime := r.0;
      if !r.1 {
        return false;
      }
      var p := proofSize.Record(w.proofSize);
      proofSize := p.0;
      return p.1;
    }

    method RefundExternalCost(w: Weight)
      requires State().Valid()
      modifies this`refTime, this`proofSize
      ensures State().Valid() && State() == old(State()).Refund(w)
      ensures refTime.Tracked? ==> refTime == Tracked(refTime.limit, Max(old(refTime).usage, w.refTime) - w.refTime)
      ensures proofSize.Tracked? ==> proofSize == Tracked(proofSize.limit, Max(old(proofSize).usage, w.proofSize) - w.proofSize)
    {
      refTime := refTime.Refund(w.refTime);
      proofSize := proofSize.Refund(w.proofSize);
    }

    /** `charge_and_refund_after_dispatch`. */
    method ChargeAndRefund(info: DispatchInfo, actual: Weight) returns (ok: bool)
      requires State().Valid()
      modifies this
      ensures State().Valid()
      ensures var (charged, paid) := old(State()).Charge(mapping.toGas(actual.refTime));
              ok == paid && State() == if paid then charged.Refund(info.Total().SaturatingSub(actual)) else charged
    {
      var cost := mapping.toGas(actual.refTime);
      ok := RecordCost(cost);
      if ok {
        RefundExternalCost(info.Total().SaturatingSub(actual));
      }
    }

    /** `dispatch_with_info`; `executed` says whether the call was run. */
    method DispatchWithInfo(info: DispatchInfo, outcome: Outcome) returns (exit: Exit, executed: bool)
      requires State().Valid()
      modifies this
      ensures State().Valid() && (State(), exit, executed) == Dispatched(mapping, old(State()), info, outcome)
      ensures executed <==>
              var r, p := info.call.refTime + info.extension.refTime, info.call.proofSize + info.extension.proofSize;
              Min(r, U64_MAX) <= mapping.toWeight(limit - old(used)) &&
              (refTime.Tracked? ==> old(refTime).usage + Min(r, U64_MAX) <= refTime.limit) &&
              (proofSize.Tracked? ==> old(proofSize).usage + Min(p, U64_MAX) <= proofSize.limit)
    {
      var remaining := limit - used;
      var validWeight := mapping.toWeight(remaining);
      if info.Total().refTime > validWeight {
        var _ := RecordCost(remaining);
        return OutOfGas, false;
      }
      var reserved := RecordExternalCost(info.Total());
      if !reserved {
        return OutOfGas, false;
      }
      var paid := ChargeAndRefund(info, Actual(info, outcome));
      if !paid {
        return OutOfGas, true;
      }
      return if outcome.ok then Returned else CallFailed, true;
    }

    /** `try_dispatch_stake_exit`: a call that declares list walks first records the read of the
        list, then dispatches with the walks it cannot perform taken off its declared weight. */
    method TryDispatchStakeExit(info: DispatchInfo, walks: nat, read: Weight, unused: Weight, outcome: Outcome)
      returns (exit: Exit, executed: bool)
      requires State().Valid()
      modifies this
      ensures State().Valid()
      ensures (State(), exit, executed) == StakeExit(mapping, old(State()), info, walks, read, unused, outcome)
    {
      var sized := info;
      if walks > 0 {
        var ok := RecordExternalCost(read);
        if !ok {
          return OutOfGas, false;
        }
        sized := info.(call := info.call.SaturatingSub(unused));
      }
      exit, executed := DispatchWithInfo(sized, outcome);
    }

    /** `record_db_reads`. */
    method RecordDbReads(readGas: nat, count: nat) returns (ok: bool)
      requires State().Valid()
      modifies this
      ensures State().Valid() && (State(), ok) == old(State()).Charge(SatMul(readGas, count))
    {
      ok := RecordCost(SatMul(readGas, count));
    }
  }

  function StakeExit(m: Mapping, f: Frame, info: DispatchInfo, walks: nat, read: Weight, unused: Weight, outcome: Outcome)
    : (Frame, Exit, bool)
    requires f.Valid()
  {
    if walks == 0 then Dispatched(m, f, info, outcome)
    else
      var (recorded, ok) := f.Reserve(read);
      if !ok then (recorded, OutOfGas, false)
      else Dispatched(m, recorded, info.(call := info.call.SaturatingSub(unused)), outcome)
  }
}
