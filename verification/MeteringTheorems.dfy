/** A dispatch that has run can always be paid for, in one call and over whole frames. */
module MeteringTheorems {
  import opened Weights
  import opened Metering

  /** The net growth of an external counter. */
  ghost predicate Grew(before: Meter, after: Meter, amount: nat) {
    if before.Untracked? then after.Untracked? else after == Tracked(before.limit, before.usage + amount)
  }

  /** What is charged is the largest weight within both the declared and the reported one, so one
      component over its declaration does not raise the other; a call that reports nothing, or no
      more than it declared, is charged that. */
  lemma ActualIsCapped(info: DispatchInfo, outcome: Outcome)
    ensures Actual(info, outcome).AllLte(info.Total()) && Actual(info, outcome).AllLte(Reported(info, outcome))
    ensures forall w: Weight :: w.AllLte(info.Total()) && w.AllLte(Reported(info, outcome)) ==> w.AllLte(Actual(info, outcome))
    ensures outcome.reported.None? ==> Actual(info, outcome) == info.Total()
    ensures outcome.reported.Some? ==>
              var w, e := outcome.reported.value, info.extension;
              Actual(info, outcome).refTime == Min(Min(w.refTime, info.call.refTime) + e.refTime, U64_MAX) &&
              Actual(info, outcome).proofSize == Min(Min(w.proofSize, info.call.proofSize) + e.proofSize, U64_MAX)
    ensures outcome.reported.Some? && outcome.reported.value.AllLte(info.call) ==>
              Actual(info, outcome) == outcome.reported.value.SaturatingAdd(info.extension)
  {
  }

  /** A reservation succeeds exactly when both counters, where there are any, have room for it. */
  lemma ReservesIff(f: Frame, w: Weight)
    ensures f.Reserve(w).1 <==>
            (f.refTime.Tracked? ==> f.refTime.usage + w.refTime <= f.refTime.limit) &&
            (f.proofSize.Tracked? ==> f.proofSize.usage + w.proofSize <= f.proofSize.limit)
  {
  }

  /** What it leaves behind: both counters grown, or the first without room at its limit and the
      proof size recorded only when the reference time was. */
  lemma ReserveLeaves(f: Frame, w: Weight)
    requires f.Valid()
    ensures var g := f.Reserve(w).0;
            g.Valid() && g.limit == f.limit && g.used == f.used &&
            if f.refTime.Tracked? && f.refTime.usage + w.refTime > f.refTime.limit
            then g.refTime == Tracked(f.refTime.limit, f.refTime.limit) && g.proofSize == f.proofSize
            else Grew(f.refTime, g.refTime, w.refTime) &&
                 if f.proofSize.Tracked? && f.proofSize.usage + w.proofSize > f.proofSize.limit
                 then g.proofSize == Tracked(f.proofSize.limit, f.proofSize.limit)
                 else Grew(f.proofSize, g.proofSize, w.proofSize)
  {
  }

  /** A call is run exactly when the gas left is worth its declared reference time and both counters
      have room for what it declares. */
  lemma RunsIff(m: Mapping, f: Frame, info: DispatchInfo, outcome: Outcome)
    requires f.Valid()
    ensures Dispatched(m, f, info, outcome).2 <==>
            var r, p := info.call.refTime + info.extension.refTime, info.call.proofSize + info.extension.proofSize;
            Min(r, U64_MAX) <= m.toWeight(f.limit - f.used) &&
            (f.refTime.Tracked? ==> f.refTime.usage + Min(r, U64_MAX) <= f.refTime.limit) &&
            (f.proofSize.Tracked? ==> f.proofSize.usage + Min(p, U64_MAX) <= f.proofSize.limit)
  {
    ReservesIff(f, info.Total());
  }

  /** A stake exit is run exactly when the counters have room for the list read and, on top of it,
      for what is left of the declared weight, and the gas is worth the latter. */
  lemma StakeExitRunsIff(m: Mapping, f: Frame, info: DispatchInfo, walks: nat, read: Weight, unused: Weight, outcome: Outcome)
    requires f.Valid() && walks > 0
    ensures StakeExit(m, f, info, walks, read, unused, outcome).2 <==>
            var r := Min(SatSub(info.call.refTime, unused.refTime) + info.extension.refTime, U64_MAX);
            var p := Min(SatSub(info.call.proofSize, unused.proofSize) + info.extension.proofSize, U64_MAX);
            r <= m.toWeight(f.limit - f.used) &&
            (f.refTime.Tracked? ==> f.refTime.usage + read.refTime + r <= f.refTime.limit) &&
            (f.proofSize.Tracked? ==> f.proofSize.usage + read.proofSize + p <= f.proofSize.limit)
  {
    var g := f.Reserve(read).0;
    ReservesIff(f, read);
    ReserveLeaves(f, read);
    RunsIff(m, g, info.(call := info.call.SaturatingSub(unused)), outcome);
  }

  lemma ReserveThenRefund(f: Frame, total: Weight, actual: Weight)
    requires f.Valid() && actual.AllLte(total) && f.Reserve(total).1
    ensures var g := f.Reserve(total).0.Refund(total.SaturatingSub(actual));
            Grew(f.refTime, g.refTime, actual.refTime) && Grew(f.proofSize, g.proofSize, actual.proofSize)
  {
  }

  /** If the check fails, the rest of the frame's gas is spent, nothing runs and nothing is
      reserved.  If the call runs, its gas fits what remained for every reported weight and for
      success and failure alike, and the external counters grow by exactly the actual weight. */
  lemma DispatchIsPaidFor(m: Mapping, f: Frame, info: DispatchInfo, outcome: Outcome)
    requires Lawful(m) && f.Valid()
    ensures var (after, exit, executed) := Dispatched(m, f, info, outcome);
            after.Valid() && after.limit == f.limit &&
            (!PassesCheck(m, f, info) ==>
               !executed && exit == OutOfGas && after == f.(used := f.limit)) &&
            (PassesCheck(m, f, info) && !executed ==> exit == OutOfGas && after.used == f.used && !f.Reserve(info.Total()).1) &&
            (executed ==>
               var actual := Actual(info, outcome);
               exit == (if outcome.ok then Returned else CallFailed) &&
               after.used == f.used + m.toGas(actual.refTime) <= f.limit &&
               Grew(f.refTime, after.refTime, actual.refTime) && Grew(f.proofSize, after.proofSize, actual.proofSize))
  {
    if PassesCheck(m, f, info) && f.Reserve(info.Total()).1 {
      var actual := Actual(info, outcome);
      ActualIsCapped(info, outcome);
      assert actual.refTime <= m.toWeight(f.Remaining());
      assert m.toGas(actual.refTime) <= f.Remaining();
      ReserveThenRefund(f, info.Total(), actual);
    }
  }

  /** The stake exit: the list read is kept, the rest is as for a plain dispatch of the sized call. */
  lemma StakeExitIsPaidFor(m: Mapping, f: Frame, info: DispatchInfo, walks: nat, read: Weight, unused: Weight, outcome: Outcome)
    requires Lawful(m) && f.Valid() && walks > 0
    ensures var (after, exit, executed) := StakeExit(m, f, info, walks, read, unused, outcome);
            var sized := info.(call := info.call.SaturatingSub(unused));
            var actual := Actual(sized, outcome);
            after.Valid() && sized.Total().AllLte(info.Total()) &&
            (!f.Reserve(read).1 ==> !executed && exit == OutOfGas && after.used == f.used) &&
            (f.Reserve(read).1 && !PassesCheck(m, f, sized) ==>
               !executed && exit == OutOfGas && after.used == f.limit &&
               Grew(f.refTime, after.refTime, read.refTime) && Grew(f.proofSize, after.proofSize, read.proofSize)) &&
            (f.Reserve(read).1 && PassesCheck(m, f, sized) && !executed ==>
               exit == OutOfGas && after.used == f.used && !f.Reserve(read).0.Reserve(sized.Total()).1) &&
            (executed ==>
               exit == (if outcome.ok then Returned else CallFailed) &&
               after.used == f.used + m.toGas(actual.refTime) <= f.limit &&
               Grew(f.refTime, after.refTime, read.refTime + actual.refTime) &&
               Grew(f.proofSize, after.proofSize, read.proofSize + actual.proofSize))
  {
    var (recorded, ok) := f.Reserve(read);
    if ok {
      DispatchIsPaidFor(m, recorded, info.(call := info.call.SaturatingSub(unused)), outcome);
    }
  }

  /** Sizing a stake exit only ever lets more calls through the check. */
  lemma SizedPassesToo(m: Mapping, f: Frame, info: DispatchInfo, unused: Weight)
    requires f.Valid() && PassesCheck(m, f, info)
    ensures PassesCheck(m, f, info.(call := info.call.SaturatingSub(unused)))
  {
  }

  // ----- Whole frames --------------------------------------------------------------------

  datatype Call = Call(info: DispatchInfo, outcome: Outcome)

  /** The frame after a sequence of dispatches. */
  function Run(m: Mapping, f: Frame, calls: seq<Call>): (g: Frame)
    requires f.Valid()
    ensures g.Valid()
    decreases |calls|
  {
    if calls == [] then f else Run(m, Dispatched(m, f, calls[0].info, calls[0].outcome).0, calls[1..])
  }

  /** The weights of the calls that were executed, in order. */
  function Executed(m: Mapping, f: Frame, calls: seq<Call>): seq<Weight>
    requires f.Valid()
    decreases |calls|
  {
    if calls == [] then []
    else
      var (after, _, executed) := Dispatched(m, f, calls[0].info, calls[0].outcome);
      (if executed then [Actual(calls[0].info, calls[0].outcome)] else []) + Executed(m, after, calls[1..])
  }

  function Sum(ws: seq<Weight>): Weight {
    if ws == [] then ZERO else ws[0].Plus(Sum(ws[1..]))
  }

  function GasSum(m: Mapping, ws: seq<Weight>): nat {
    if ws == [] then 0 else m.toGas(ws[0].refTime) + GasSum(m, ws[1..])
  }

  ghost predicate AllExecuted(m: Mapping, f: Frame, calls: seq<Call>)
    requires f.Valid()
  {
    |Executed(m, f, calls)| == |calls|
  }

  lemma {:induction false} ExecutedAtMostAll(m: Mapping, f: Frame, calls: seq<Call>)
    requires f.Valid()
    ensures |Executed(m, f, calls)| <= |calls|
    decreases |calls|
  {
    if calls != [] {
      ExecutedAtMostAll(m, Dispatched(m, f, calls[0].info, calls[0].outcome).0, calls[1..]);
    }
  }

  /** Whatever the calls do, the frame never uses more gas than its limit, and what it uses covers
      at least the gas of every call that was executed. */
  lemma {:induction false} RunStaysInLimit(m: Mapping, f: Frame, calls: seq<Call>)
    requires Lawful(m) && f.Valid()
    ensures var g := Run(m, f, calls);
            g.limit == f.limit && f.used + GasSum(m, Executed(m, f, calls)) <= g.used <= f.limit
    decreases |calls|
  {
    if calls != [] {
      var (after, _, executed) := Dispatched(m, f, calls[0].info, calls[0].outcome);
      DispatchIsPaidFor(m, f, calls[0].info, calls[0].outcome);
      RunStaysInLimit(m, after, calls[1..]);
      var actual := Actual(calls[0].info, calls[0].outcome);
      if executed {
        assert ([actual] + Executed(m, after, calls[1..]))[1..] == Executed(m, after, calls[1..]);
      } else {
        assert [] + Executed(m, after, calls[1..]) == Executed(m, after, calls[1..]);
      }
    }
  }

  /** From `f` to `g` the frame was charged the gas and grew by the weights of `ws`. */
  ghost predicate SumsTo(m: Mapping, f: Frame, g: Frame, ws: seq<Weight>) {
    g.used == f.used + GasSum(m, ws) &&
    Grew(f.refTime, g.refTime, Sum(ws).refTime) && Grew(f.proofSize, g.proofSize, Sum(ws).proofSize)
  }

  lemma SumsStep(m: Mapping, f: Frame, after: Frame, g: Frame, w: Weight, rest: seq<Weight>)
    requires after.used == f.used + m.toGas(w.refTime)
    requires Grew(f.refTime, after.refTime, w.refTime) && Grew(f.proofSize, after.proofSize, w.proofSize)
    requires SumsTo(m, after, g, rest)
    ensures SumsTo(m, f, g, [w] + rest)
  {
    assert ([w] + rest)[1..] == rest;
  }

  /** When every call passes, gas used and net external cost are exactly the sums. */
  lemma {:induction false} RunIsTheSum(m: Mapping, f: Frame, calls: seq<Call>)
    requires Lawful(m) && f.Valid() && AllExecuted(m, f, calls)
    ensures SumsTo(m, f, Run(m, f, calls), Executed(m, f, calls))
    decreases |calls|
  {
    if calls != [] {
      var info, outcome := calls[0].info, calls[0].outcome;
      var (after, _, executed) := Dispatched(m, f, info, outcome);
      ExecutedAtMostAll(m, after, calls[1..]);
      DispatchIsPaidFor(m, f, info, outcome);
      RunIsTheSum(m, after, calls[1..]);
      SumsStep(m, f, after, Run(m, after, calls[1..]), Actual(info, outcome), Executed(m, after, calls[1..]));
    }
  }

  /** Rounding: the gas of a list of weights undercharges by less than one gas each. */
  lemma {:induction false} GasIsClose(weightPerGas: nat, ws: seq<Weight>)
    requires weightPerGas > 0
    ensures var gas := weightPerGas * GasSum(Fixed(weightPerGas), ws);
            gas <= Sum(ws).refTime <= gas + |ws| * (weightPerGas - 1)
  {
    if ws != [] {
      GasIsClose(weightPerGas, ws[1..]);
      CloseStep(weightPerGas, ws[0].refTime, GasSum(Fixed(weightPerGas), ws[1..]), Sum(ws[1..]).refTime, |ws| - 1);
    }
  }

  lemma CloseStep(weightPerGas: nat, w: nat, tail: nat, rest: nat, k: nat)
    requires weightPerGas > 0
    requires weightPerGas * tail <= rest <= weightPerGas * tail + k * (weightPerGas - 1)
    ensures var gas := weightPerGas * (w / weightPerGas + tail);
            gas <= w + rest <= gas + (k + 1) * (weightPerGas - 1)
  {
    var head := w / weightPerGas;
    assert weightPerGas * head <= w <= weightPerGas * head + (weightPerGas - 1);
    assert weightPerGas * (head + tail) == weightPerGas * head + weightPerGas * tail;
    assert (k + 1) * (weightPerGas - 1) == k * (weightPerGas - 1) + (weightPerGas - 1);
  }

  /** Every call passes the check in the frame it meets; its reservation may still fail. */
  ghost predicate AllPass(m: Mapping, f: Frame, calls: seq<Call>)
    requires f.Valid()
    decreases |calls|
  {
    calls == [] ||
    (PassesCheck(m, f, calls[0].info) && AllPass(m, Dispatched(m, f, calls[0].info, calls[0].outcome).0, calls[1..]))
  }

  /** The gas used is exactly that of the calls that ran; a failed reservation costs none. */
  lemma {:induction false} RunGasIsTheSum(m: Mapping, f: Frame, calls: seq<Call>)
    requires Lawful(m) && f.Valid() && AllPass(m, f, calls)
    ensures Run(m, f, calls).used == f.used + GasSum(m, Executed(m, f, calls))
    decreases |calls|
  {
    if calls != [] {
      var info, outcome := calls[0].info, calls[0].outcome;
      var (after, _, executed) := Dispatched(m, f, info, outcome);
      DispatchIsPaidFor(m, f, info, outcome);
      RunGasIsTheSum(m, after, calls[1..]);
      GasOfFirst(m, Actual(info, outcome), Executed(m, after, calls[1..]));
    }
  }

  lemma GasOfFirst(m: Mapping, w: Weight, rest: seq<Weight>)
    ensures GasSum(m, [w] + rest) == m.toGas(w.refTime) + GasSum(m, rest) && GasSum(m, [] + rest) == GasSum(m, rest)
  {
    assert ([w] + rest)[1..] == rest && [] + rest == rest;
  }

  /** In a frame where all dispatches pass the check and `k` of them run, the gas charged is worth at
      most the reference time used, and at least that minus `k * (W - 1)`. */
  lemma FrameChargeIsClose(weightPerGas: nat, f: Frame, calls: seq<Call>)
    requires weightPerGas > 0 && f.Valid() && AllPass(Fixed(weightPerGas), f, calls)
    ensures var m := Fixed(weightPerGas);
            var (g, ws) := (Run(m, f, calls), Executed(m, f, calls));
            var charged := weightPerGas * (g.used - f.used);
            g.used <= f.limit && |ws| <= |calls| && charged <= Sum(ws).refTime <= charged + |ws| * (weightPerGas - 1)
  {
    var m := Fixed(weightPerGas);
    var g, ws := Run(m, f, calls), Executed(m, f, calls);
    FixedIsLawful(weightPerGas);
    ExecutedAtMostAll(m, f, calls);
    RunStaysInLimit(m, f, calls);
    RunGasIsTheSum(m, f, calls);
    GasIsClose(weightPerGas, ws);
    assert g.used - f.used == GasSum(m, ws);
  }

  /** A call that ran has passed the check. */
  lemma {:induction false} ExecutedPass(m: Mapping, f: Frame, calls: seq<Call>)
    requires f.Valid() && AllExecuted(m, f, calls)
    ensures AllPass(m, f, calls)
    decreases |calls|
  {
    if calls != [] {
      var after := Dispatched(m, f, calls[0].info, calls[0].outcome).0;
      ExecutedAtMostAll(m, after, calls[1..]);
      ExecutedPass(m, after, calls[1..]);
    }
  }
}
