/** The shared timestamp of manual sealing: any number of callers advance one atomic counter by a
    slot with `fetch_update`, a load followed by a compare-and-swap that is retried until it wins.

    The state machine below has one action per atomic access, so its runs are the interleavings of
    the callers.  The accesses are relaxed: a load may see any value the counter has held.
 */
module TimestampSource {
  import opened Weights

  datatype Caller = Idle | Trying(seen: nat)

  /** `clock` is the counter, `past` every value it has held, `handed` the timestamps returned,
      in the order of the successful swaps. */
  datatype State = State(clock: nat, past: set<nat>, callers: map<nat, Caller>, handed: seq<nat>)

  function Init(start: nat, callers: set<nat>): State {
    State(start, {start}, map c | c in callers :: Idle, [])
  }

  datatype Action =
    | Load(caller: nat, value: nat)   // begin a call: read some value the counter has held
    | Swap(caller: nat)               // the value read is still the counter's: advance it and return
    | Retry(caller: nat, value: nat)  // the swap fails, perhaps spuriously: read again

  predicate Enabled(s: State, a: Action) {
    a.caller in s.callers &&
    match a
    case Load(c, v) => s.callers[c].Idle? && v in s.past
    case Swap(c) => s.callers[c] == Trying(s.clock)
    case Retry(c, v) => s.callers[c].Trying? && v in s.past
  }

  function Step(slot: nat, s: State, a: Action): State
    requires Enabled(s, a)
  {
    match a
    case Load(c, v) => s.(callers := s.callers[c := Trying(v)])
    case Retry(c, v) => s.(callers := s.callers[c := Trying(v)])
    case Swap(c) =>
      var previous := s.callers[c].seen;
      var next := SatAdd(previous, slot);
      State(next, s.past + {next}, s.callers[c := Idle], s.handed + [SatAdd(previous, slot)])
  }

  /** A run: every action is enabled in the state the earlier ones lead to. */
  predicate IsRun(slot: nat, s: State, run: seq<Action>)
    decreases |run|
  {
    run == [] || (Enabled(s, run[0]) && IsRun(slot, Step(slot, s, run[0]), run[1..]))
  }

  function After(slot: nat, s: State, run: seq<Action>): State
    requires IsRun(slot, s, run)
    decreases |run|
  {
    if run == [] then s else After(slot, Step(slot, s, run[0]), run[1..])
  }

  /** The `i`-th tick after the start, held at the largest u64. */
  function Tick(start: nat, slot: nat, i: nat): nat {
    if i == 0 then start else SatAdd(Tick(start, slot, i - 1), slot)
  }

  lemma {:induction false} TickIs(start: nat, slot: nat, i: nat)
    requires start <= U64_MAX
    ensures Tick(start, slot, i) == Min(start + i * slot, U64_MAX)
  {
    if i > 0 {
      TickIs(start, slot, i - 1);
      assert i * slot == (i - 1) * slot + slot;
    }
  }

  /** The timestamps handed out are the ticks, in order, and the counter stands at the last. */
  ghost predicate Ticked(start: nat, slot: nat, s: State) {
    s.clock == Tick(start, slot, |s.handed|) &&
    forall i :: 0 <= i < |s.handed| ==> s.handed[i] == Tick(start, slot, i + 1)
  }

  lemma StepTicks(start: nat, slot: nat, s: State, a: Action)
    requires Ticked(start, slot, s) && Enabled(s, a)
    ensures Ticked(start, slot, Step(slot, s, a))
  {
    if a.Swap? {
      assert Tick(start, slot, |s.handed| + 1) == SatAdd(s.clock, slot);
    }
  }

  lemma {:induction false} RunTicks(start: nat, slot: nat, s: State, run: seq<Action>)
    requires Ticked(start, slot, s) && IsRun(slot, s, run)
    ensures Ticked(start, slot, After(slot, s, run))
    decreases |run|
  {
    if run != [] {
      StepTicks(start, slot, s, run[0]);
      RunTicks(start, slot, Step(slot, s, run[0]), run[1..]);
    }
  }

  function Swaps(run: seq<Action>): nat {
    if run == [] then 0 else (if run[0].Swap? then 1 else 0) + Swaps(run[1..])
  }

  lemma {:induction false} OneStampPerSwap(slot: nat, s: State, run: seq<Action>)
    requires IsRun(slot, s, run)
    ensures |After(slot, s, run).handed| == |s.handed| + Swaps(run)
    decreases |run|
  {
    if run != [] {
      OneStampPerSwap(slot, Step(slot, s, run[0]), run[1..]);
    }
  }

  // ----- Progress --------------------------------------------------------------------------

  lemma {:induction false} RunsJoin(slot: nat, s: State, a: seq<Action>, b: seq<Action>)
    requires IsRun(slot, s, a) && IsRun(slot, After(slot, s, a), b)
    ensures IsRun(slot, s, a + b) && After(slot, s, a + b) == After(slot, After(slot, s, a), b)
    decreases |a|
  {
    if a == [] {
      assert a + b == b;
    } else {
      assert (a + b)[1..] == a[1..] + b && (a + b)[0] == a[0];
      RunsJoin(slot, Step(slot, s, a[0]), a[1..], b);
    }
  }

  /** The counter's value is among those it has held, and no caller comes or goes. */
  lemma {:induction false} RunKeeps(slot: nat, s: State, run: seq<Action>)
    requires IsRun(slot, s, run) && s.clock in s.past
    ensures var t := After(slot, s, run); t.clock in t.past && t.callers.Keys == s.callers.Keys
    decreases |run|
  {
    if run != [] {
      RunKeeps(slot, Step(slot, s, run[0]), run[1..]);
    }
  }

  /** A caller left alone: one read of the current value and the swap. */
  function Alone(s: State, c: nat): seq<Action>
    requires c in s.callers
  {
    [if s.callers[c].Idle? then Load(c, s.clock) else Retry(c, s.clock), Swap(c)]
  }

  lemma AloneAdvances(slot: nat, s: State, c: nat)
    requires c in s.callers && s.clock in s.past
    ensures IsRun(slot, s, Alone(s, c))
    ensures var t := After(slot, s, Alone(s, c));
            t.clock == Min(s.clock + slot, U64_MAX) && t.handed == s.handed + [t.clock] &&
            t.callers == s.callers[c := Idle]
  {
    var run := Alone(s, c);
    var mid := Step(slot, s, run[0]);
    assert run[1..] == [Swap(c)] && [Swap(c)][1..] == [];
    assert mid.callers[c] == Trying(mid.clock) && mid.clock == s.clock;
    assert mid.callers[c := Idle] == s.callers[c := Idle];
    assert After(slot, mid, [Swap(c)]) == Step(slot, mid, Swap(c));
  }

  /** A call may begin with any value the counter has held; with a stale one it cannot win, only read
      again. */
  lemma StaleReadMustRetry(slot: nat, s: State, c: nat, v: nat)
    requires c in s.callers && s.callers[c].Idle? && v in s.past && s.clock in s.past && v != s.clock
    ensures Enabled(s, Load(c, v))
    ensures var t := Step(slot, s, Load(c, v));
            t.clock == s.clock && t.handed == s.handed && !Enabled(t, Swap(c)) && Enabled(t, Retry(c, t.clock))
  {
  }

  /** After any run, whatever the others have done, a caller left alone returns the next tick with
      one read and one swap. */
  lemma AnyCallerCanFinish(start: nat, slot: nat, callers: set<nat>, run: seq<Action>, c: nat)
    requires IsRun(slot, Init(start, callers), run) && c in callers
    ensures var s := After(slot, Init(start, callers), run);
            c in s.callers && IsRun(slot, Init(start, callers), run + Alone(s, c)) &&
            After(slot, Init(start, callers), run + Alone(s, c)).handed == s.handed + [Min(s.clock + slot, U64_MAX)]
  {
    var init := Init(start, callers);
    RunKeeps(slot, init, run);
    var s := After(slot, init, run);
    assert c in init.callers.Keys;
    AloneAdvances(slot, s, c);
    RunsJoin(slot, init, run, Alone(s, c));
  }

  // ----- What is handed out ----------------------------------------------------------------

  /** Every interleaving hands out start + slot, start + 2 slot, ... in the order of the
      successful swaps, held at the largest u64: no update is lost, none is handed out twice. */
  lemma EveryInterleavingTicks(start: nat, slot: nat, callers: set<nat>, run: seq<Action>)
    requires start <= U64_MAX && IsRun(slot, Init(start, callers), run)
    ensures var s := After(slot, Init(start, callers), run);
            |s.handed| == Swaps(run) &&
            forall i :: 0 <= i < |s.handed| ==> s.handed[i] == Min(start + (i + 1) * slot, 0xFFFF_FFFF_FFFF_FFFF)
  {
    var s := After(slot, Init(start, callers), run);
    RunTicks(start, slot, Init(start, callers), run);
    OneStampPerSwap(slot, Init(start, callers), run);
    TicksAre(start, slot, s.handed);
  }

  lemma TicksAre(start: nat, slot: nat, handed: seq<nat>)
    requires start <= U64_MAX && forall i :: 0 <= i < |handed| ==> handed[i] == Tick(start, slot, i + 1)
    ensures forall i :: 0 <= i < |handed| ==> handed[i] == Min(start + (i + 1) * slot, U64_MAX)
  {
    forall i | 0 <= i < |handed|
      ensures handed[i] == Min(start + (i + 1) * slot, U64_MAX)
    {
      TickIs(start, slot, i + 1);
    }
  }

  ghost predicate StrictlyIncreasing(s: seq<nat>) {
    forall i, j :: 0 <= i < j < |s| ==> s[i] < s[j]
  }

  /** The timestamps are strictly increasing, so pairwise distinct, exactly until the counter
      saturates: until the last but one has reached the largest u64. */
  lemma IncreasingUntilSaturation(start: nat, slot: nat, callers: set<nat>, run: seq<Action>)
    requires start <= U64_MAX && slot > 0 && IsRun(slot, Init(start, callers), run)
    ensures var handed := After(slot, Init(start, callers), run).handed;
            StrictlyIncreasing(handed) <==> |handed| <= 1 || start + (|handed| - 1) * slot < U64_MAX
  {
    var s := After(slot, Init(start, callers), run);
    RunTicks(start, slot, Init(start, callers), run);
    TicksIncreaseIff(start, slot, s.handed);
    if |s.handed| > 1 {
      TickIs(start, slot, |s.handed| - 1);
    }
  }

  lemma {:induction false} TicksAscend(start: nat, slot: nat, i: nat, j: nat)
    requires start <= U64_MAX && i <= j
    ensures Tick(start, slot, i) <= Tick(start, slot, j) <= U64_MAX
    decreases j
  {
    if i < j {
      TicksAscend(start, slot, i, j - 1);
    } else if j > 0 {
      TicksAscend(start, slot, j - 1, j - 1);
    }
  }

  lemma TicksDiffer(start: nat, slot: nat, i: nat, j: nat)
    requires start <= U64_MAX && slot > 0 && i < j && Tick(start, slot, j - 1) < U64_MAX
    ensures Tick(start, slot, i) < Tick(start, slot, j)
  {
    TicksAscend(start, slot, i, j - 1);
  }

  lemma TicksIncreaseIff(start: nat, slot: nat, handed: seq<nat>)
    requires start <= U64_MAX && slot > 0 && forall i :: 0 <= i < |handed| ==> handed[i] == Tick(start, slot, i + 1)
    ensures StrictlyIncreasing(handed) <==> |handed| <= 1 || Tick(start, slot, |handed| - 1) < U64_MAX
  {
    var n := |handed|;
    if n > 1 {
      TicksAscend(start, slot, n - 1, n);
      if Tick(start, slot, n - 1) < U64_MAX {
        forall i, j | 0 <= i < j < n
          ensures handed[i] < handed[j]
        {
          TicksAscend(start, slot, j, n - 1);
          TicksDiffer(start, slot, i + 1, j + 1);
        }
      } else {
        assert handed[n - 2] == handed[n - 1];
      }
    }
  }
}
