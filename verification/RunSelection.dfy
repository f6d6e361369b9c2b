/** `matching_runs` and `select_latest_run`: which benchmark run a patch is taken from. */
module RunSelection {
  import opened Wrappers
  import opened Ordering

  datatype Run = Run(id: nat, event: string, title: Option<string>, repository: Option<string>, branch: string,
                     headSha: Option<string>, pullShas: seq<Option<string>>, status: string,
                     started: Option<string>, created: Option<string>)

  datatype Job = Job(name: string, status: string, conclusion: Option<string>)

  datatype SelectError = NoUniqueJob(id: nat) | StillRunning(id: nat) | NoRun

  const EVENTS := ["pull_request", "workflow_dispatch", "schedule"]
  const GATE_TITLE := "Benchmark gate only"
  const JOB_NAME := "validate-benchmarks"

  /** The run is a benchmark of exactly this source. */
  predicate Matches(run: Run, repo: string, branch: string, sha: string) {
    run.event in EVENTS && run.title != Some(GATE_TITLE) && run.repository == Some(repo) &&
    run.branch == branch && (run.headSha == Some(sha) || Some(sha) in run.pullShas)
  }

  // ----- Newest first --------------------------------------------------------------------

  /** `run_started_at or created_at or ""`: an empty text counts as absent. */
  function StartTime(run: Run): string {
    if run.started.Some? && run.started.value != "" then run.started.value
    else if run.created.Some? then run.created.value
    else ""
  }

  /** The sort key of `a` is below that of `b`. */
  predicate Older(a: Run, b: Run) {
    Less(StartTime(a), StartTime(b)) || (StartTime(a) == StartTime(b) && a.id < b.id)
  }

  lemma OlderIsTotal(a: Run, b: Run)
    ensures Older(a, b) || Older(b, a) || (StartTime(a) == StartTime(b) && a.id == b.id)
    ensures !(Older(a, b) && Older(b, a))
  {
    LessTotal(StartTime(a), StartTime(b));
    LessBothWays(StartTime(a), StartTime(b));
    LessIrreflexive(StartTime(a));
  }

  /** A run is placed by when its current attempt started, whatever its creation time. */
  lemma OlderByStart(a: Run, b: Run)
    requires a.started.Some? && a.started.value != "" && b.started.Some? && b.started.value != ""
    ensures Older(a, b) <==>
            Less(a.started.value, b.started.value) || (a.started == b.started && a.id < b.id)
  {
  }

  /** One without a start is placed by its creation, and one without either before all others. */
  lemma OlderByCreation(a: Run, b: Run)
    requires (a.started.None? || a.started.value == "") && (b.started.None? || b.started.value == "")
    ensures a.created.Some? && b.created.Some? ==>
              (Older(a, b) <==> Less(a.created.value, b.created.value) || (a.created == b.created && a.id < b.id))
    ensures a.created.None? && b.created.Some? && b.created.value != "" ==> Older(a, b)
  {
    if a.created.None? && b.created.Some? && b.created.value != "" {
      LessTotal("", b.created.value);
      LessBothWays("", b.created.value);
    }
  }

  lemma OlderIsTransitive(a: Run, b: Run, c: Run)
    requires Older(a, b) && Older(b, c)
    ensures Older(a, c)
  {
    if Less(StartTime(a), StartTime(b)) && Less(StartTime(b), StartTime(c)) {
      LessTransitive(StartTime(a), StartTime(b), StartTime(c));
    }
  }

  /** Inserts before the first run that is not newer, which keeps equal keys in place. */
  function Insert(run: Run, sorted: seq<Run>): seq<Run> {
    if sorted == [] || !Older(run, sorted[0]) then [run] + sorted
    else [sorted[0]] + Insert(run, sorted[1..])
  }

  /** `sorted(..., reverse=True)`. */
  function NewestFirst(runs: seq<Run>): seq<Run> {
    if runs == [] then [] else Insert(runs[0], NewestFirst(runs[1..]))
  }

  lemma {:induction false} InsertMembers(run: Run, sorted: seq<Run>)
    ensures forall r :: r in Insert(run, sorted) <==> r == run || r in sorted
  {
    if sorted != [] && Older(run, sorted[0]) {
      InsertMembers(run, sorted[1..]);
      assert forall r :: r in sorted <==> r == sorted[0] || r in sorted[1..];
    }
  }

  /** No run is followed by a newer one; runs with the same key may repeat. */
  ghost predicate NotRising(runs: seq<Run>) {
    forall i, j :: 0 <= i < j < |runs| ==> !Older(runs[i], runs[j])
  }

  lemma NotOlderChains(a: Run, b: Run, c: Run)
    requires !Older(a, b) && !Older(b, c)
    ensures !Older(a, c)
  {
    OlderIsTotal(a, b);
    if Older(a, c) && Older(b, a) {
      OlderIsTransitive(b, a, c);
    }
  }

  lemma {:induction false} InsertKeepsOrder(run: Run, sorted: seq<Run>)
    requires NotRising(sorted)
    ensures NotRising(Insert(run, sorted))
  {
    if sorted != [] {
      if Older(run, sorted[0]) {
        var rest := Insert(run, sorted[1..]);
        InsertKeepsOrder(run, sorted[1..]);
        InsertMembers(run, sorted[1..]);
        OlderIsTotal(run, sorted[0]);
        forall j | 0 <= j < |rest|
          ensures !Older(sorted[0], rest[j])
        {
          assert rest[j] in rest;
        }
      } else {
        forall j | 0 < j < |sorted|
          ensures !Older(run, sorted[j])
        {
          NotOlderChains(run, sorted[0], sorted[j]);
        }
      }
    }
  }

  predicate SameKey(a: Run, b: Run) {
    StartTime(a) == StartTime(b) && a.id == b.id
  }

  /** The runs with the sort key of `k`, in order. */
  function WithKey(runs: seq<Run>, k: Run): seq<Run> {
    if runs == [] then [] else (if SameKey(runs[0], k) then [runs[0]] else []) + WithKey(runs[1..], k)
  }

  lemma {:induction false} InsertIsStable(run: Run, sorted: seq<Run>, k: Run)
    ensures WithKey(Insert(run, sorted), k) == WithKey([run], k) + WithKey(sorted, k)
  {
    assert ([run] + sorted)[1..] == sorted && WithKey([run], k) == if SameKey(run, k) then [run] else [];
    if sorted != [] && Older(run, sorted[0]) {
      InsertIsStable(run, sorted[1..], k);
      OlderIsTotal(run, run);
      assert !(SameKey(run, k) && SameKey(sorted[0], k));
    }
  }

  /** Runs with equal keys stay in the order in which they are listed. */
  lemma {:induction false} NewestFirstIsStable(runs: seq<Run>, k: Run)
    ensures WithKey(NewestFirst(runs), k) == WithKey(runs, k)
  {
    if runs != [] {
      NewestFirstIsStable(runs[1..], k);
      InsertIsStable(runs[0], NewestFirst(runs[1..]), k);
      assert WithKey([runs[0]], k) == if SameKey(runs[0], k) then [runs[0]] else [];
    }
  }

  /** Sorting keeps the runs and puts no run behind an older one. */
  lemma {:induction false} NewestFirstSorts(runs: seq<Run>)
    ensures NotRising(NewestFirst(runs))
    ensures forall r :: r in NewestFirst(runs) <==> r in runs
  {
    if runs != [] {
      var rest := NewestFirst(runs[1..]);
      NewestFirstSorts(runs[1..]);
      InsertMembers(runs[0], rest);
      InsertKeepsOrder(runs[0], rest);
    }
  }

  /** Two listed runs with the same key are the same run, listed twice. */
  ghost predicate OneRunPerKey(runs: seq<Run>) {
    forall a, b :: a in runs && b in runs && SameKey(a, b) ==> a == b
  }

  // ----- matching_runs -------------------------------------------------------------------

  /** The runs of exactly this source, as listed. */
  function Eligible(runs: seq<Run>, repo: string, branch: string, sha: string): seq<Run> {
    if runs == [] then []
    else
      var last := runs[|runs| - 1];
      Eligible(runs[..|runs| - 1], repo, branch, sha) + (if Matches(last, repo, branch, sha) then [last] else [])
  }

  lemma {:induction false} EligibleAre(runs: seq<Run>, repo: string, branch: string, sha: string)
    ensures forall r :: r in Eligible(runs, repo, branch, sha) <==> r in runs && Matches(r, repo, branch, sha)
  {
    if runs != [] {
      var init, last := runs[..|runs| - 1], runs[|runs| - 1];
      EligibleAre(init, repo, branch, sha);
      assert runs == init + [last];
    }
  }

  method MatchingRuns(runs: seq<Run>, repo: string, branch: string, sha: string) returns (matches: seq<Run>)
    ensures matches == NewestFirst(Eligible(runs, repo, branch, sha))
    ensures forall r :: r in matches <==> r in runs && Matches(r, repo, branch, sha)
    ensures NotRising(matches)
  {
    var found := [];
    for i := 0 to |runs|
      invariant found == Eligible(runs[..i], repo, branch, sha)
    {
      var run := runs[i];
      var sourceShas := [run.headSha] + run.pullShas;
      assert runs[..i + 1][..i] == runs[..i];
      if run.event in EVENTS && run.title != Some(GATE_TITLE) && run.repository == Some(repo) &&
         run.branch == branch && Some(sha) in sourceShas {
        found := found + [run];
      }
    }
    assert runs[..|runs|] == runs;
    EligibleAre(runs, repo, branch, sha);
    NewestFirstSorts(found);
    matches := NewestFirst(found);
  }

  // ----- select_latest_run ---------------------------------------------------------------

  function BenchmarkJobs(jobs: seq<Job>): seq<Job> {
    if jobs == [] then []
    else (if jobs[0].name == JOB_NAME then [jobs[0]] else []) + BenchmarkJobs(jobs[1..])
  }

  /** The run only passed the gate: its one benchmark job was skipped. */
  predicate Skipped(jobs: seq<Job>) {
    |BenchmarkJobs(jobs)| == 1 && BenchmarkJobs(jobs)[0].conclusion == Some("skipped")
  }

  /** The run measured something and has finished. */
  predicate Finished(run: Run, jobs: seq<Job>) {
    |BenchmarkJobs(jobs)| == 1 && BenchmarkJobs(jobs)[0].conclusion != Some("skipped") &&
    run.status == "completed" && BenchmarkJobs(jobs)[0].status == "completed"
  }

  /** What a run that was not skipped decides, for better or worse. */
  function Verdict(run: Run, jobs: seq<Job>): Result<Run, SelectError> {
    if Finished(run, jobs) then Success(run)
    else if |BenchmarkJobs(jobs)| != 1 then Failure(NoUniqueJob(run.id))
    else Failure(StillRunning(run.id))
  }

  /** The first run that was not skipped decides. */
  function Decide(matches: seq<Run>, jobsFor: Run -> seq<Job>): Result<Run, SelectError> {
    if matches == [] then Failure(NoRun)
    else if Skipped(jobsFor(matches[0])) then Decide(matches[1..], jobsFor)
    else Verdict(matches[0], jobsFor(matches[0]))
  }

  /** The early-exit loop over the candidates, newest first. */
  method SelectLatestRun(runs: seq<Run>, repo: string, branch: string, sha: string, jobsFor: Run -> seq<Job>)
    returns (r: Result<Run, SelectError>)
    ensures r == Decide(NewestFirst(Eligible(runs, repo, branch, sha)), jobsFor)
    ensures r.Success? ==> r.value in runs && Matches(r.value, repo, branch, sha) && Finished(r.value, jobsFor(r.value))
    ensures r.Success? ==>
              forall other :: other in runs && Matches(other, repo, branch, sha) && Older(r.value, other) ==>
                Skipped(jobsFor(other))
  {
    var ordered := MatchingRuns(runs, repo, branch, sha);
    for i := 0 to |ordered|
      invariant Decide(ordered, jobsFor) == Decide(ordered[i..], jobsFor)
    {
      var run := ordered[i];
      var jobs := BenchmarkJobs(jobsFor(run));
      assert run in ordered;
      assert ordered[i..][1..] == ordered[i + 1..];
      if |jobs| != 1 {
        return Failure(NoUniqueJob(run.id));
      }
      var job := jobs[0];
      if job.conclusion == Some("skipped") {
        continue;
      }
      if run.status != "completed" || job.status != "completed" {
        return Failure(StillRunning(run.id));
      }
      NeverFallsBack(ordered, jobsFor, run);
      return Success(run);
    }
    return Failure(NoRun);
  }

  /** The newest run that was not skipped decides. */
  lemma {:induction false} NewestDecides(matches: seq<Run>, jobsFor: Run -> seq<Job>) returns (run: Run)
    requires NotRising(matches) && exists r :: r in matches && !Skipped(jobsFor(r))
    ensures run in matches && !Skipped(jobsFor(run)) && Decide(matches, jobsFor) == Verdict(run, jobsFor(run))
    ensures forall other :: other in matches && Older(run, other) ==> Skipped(jobsFor(other))
  {
    run := matches[0];
    OlderIsTotal(run, run);
    assert forall other :: other in matches <==> other == matches[0] || other in matches[1..];
    if Skipped(jobsFor(run)) {
      run := NewestDecides(matches[1..], jobsFor);
    }
  }

  /** Selection never falls back past a real attempt: every run newer than the selected one was
      skipped, whether or not a run is listed more than once. */
  lemma NeverFallsBack(matches: seq<Run>, jobsFor: Run -> seq<Job>, run: Run)
    requires NotRising(matches) && Decide(matches, jobsFor) == Success(run)
    ensures run in matches && Finished(run, jobsFor(run))
    ensures forall other :: other in matches && Older(run, other) ==> Skipped(jobsFor(other))
  {
    NoRunIff(matches, jobsFor);
    var newest := NewestDecides(matches, jobsFor);
  }

  /** A run is selected exactly when it matches, has finished, and every newer matching run was
      skipped. */
  lemma SelectedIff(matches: seq<Run>, jobsFor: Run -> seq<Job>, run: Run)
    requires NotRising(matches) && OneRunPerKey(matches)
    ensures Decide(matches, jobsFor) == Success(run) <==>
            run in matches && Finished(run, jobsFor(run)) &&
            forall other :: other in matches && Older(run, other) ==> Skipped(jobsFor(other))
  {
    if Decide(matches, jobsFor) == Success(run) {
      NeverFallsBack(matches, jobsFor, run);
    } else if run in matches && Finished(run, jobsFor(run)) {
      var newest := NewestDecides(matches, jobsFor);
      OlderIsTotal(run, newest);
      assert newest != run;
    }
  }

  /** What `select_latest_run` returns, from the listing to the result: the newest run of one of three
      events, for this repository and branch, with this commit as its head or a pull request's,
      that is not titled as gate-only and whose one benchmark job was not skipped; run and job must be
      completed. */
  lemma SelectionIs(runs: seq<Run>, repo: string, branch: string, sha: string, jobsFor: Run -> seq<Job>, run: Run)
    requires OneRunPerKey(runs)
    ensures Decide(NewestFirst(Eligible(runs, repo, branch, sha)), jobsFor) == Success(run) <==>
            run in runs && IsBenchmark(run, repo, branch, sha) && OneJob(jobsFor(run)) && !OnlySkipped(jobsFor(run)) &&
            run.status == "completed" && AllCompleted(jobsFor(run)) &&
            forall other :: other in runs && IsBenchmark(other, repo, branch, sha) && Older(run, other) ==>
              OneJob(jobsFor(other)) && OnlySkipped(jobsFor(other))
  {
    var found := Eligible(runs, repo, branch, sha);
    EligibleAre(runs, repo, branch, sha);
    NewestFirstSorts(found);
    SelectedIff(NewestFirst(found), jobsFor, run);
    forall r: Run
      ensures Matches(r, repo, branch, sha) <==> IsBenchmark(r, repo, branch, sha)
      ensures Skipped(jobsFor(r)) <==> OneJob(jobsFor(r)) && OnlySkipped(jobsFor(r))
      ensures Finished(r, jobsFor(r)) <==>
              OneJob(jobsFor(r)) && !OnlySkipped(jobsFor(r)) && r.status == "completed" && AllCompleted(jobsFor(r))
    {
      JobsAre(jobsFor(r));
    }
  }

  ghost predicate IsBenchmark(run: Run, repo: string, branch: string, sha: string) {
    (run.event == "pull_request" || run.event == "workflow_dispatch" || run.event == "schedule") &&
    run.title != Some("Benchmark gate only") && run.repository == Some(repo) && run.branch == branch &&
    (run.headSha == Some(sha) || exists i :: 0 <= i < |run.pullShas| && run.pullShas[i] == Some(sha))
  }

  ghost predicate IsValidation(jobs: seq<Job>, i: int) {
    0 <= i < |jobs| && jobs[i].name == "validate-benchmarks"
  }

  /** Exactly one of the jobs is the benchmark job. */
  ghost predicate OneJob(jobs: seq<Job>) {
    exists i :: IsValidation(jobs, i) && forall j :: IsValidation(jobs, j) ==> j == i
  }

  ghost predicate OnlySkipped(jobs: seq<Job>) {
    forall i :: IsValidation(jobs, i) ==> jobs[i].conclusion == Some("skipped")
  }

  ghost predicate AllCompleted(jobs: seq<Job>) {
    forall i :: IsValidation(jobs, i) ==> jobs[i].status == "completed"
  }

  lemma JobsAre(jobs: seq<Job>)
    ensures |BenchmarkJobs(jobs)| == 1 <==> OneJob(jobs)
    ensures |BenchmarkJobs(jobs)| == 1 ==>
              (BenchmarkJobs(jobs)[0].conclusion == Some("skipped") <==> OnlySkipped(jobs)) &&
              (BenchmarkJobs(jobs)[0].status == "completed" <==> AllCompleted(jobs))
  {
    var found := BenchmarkJobs(jobs);
    NoJobs(jobs);
    if found != [] {
      var i := FirstJob(jobs);
      if |found| > 1 {
        var j := FirstJob(jobs[i + 1..]);
        assert IsValidation(jobs, i) && IsValidation(jobs, i + 1 + j);
      } else {
        NoJobs(jobs[i + 1..]);
        forall j | IsValidation(jobs, j)
          ensures j == i
        {
          assert j > i ==> IsValidation(jobs[i + 1..], j - i - 1);
        }
      }
    }
  }

  lemma {:induction false} NoJobs(jobs: seq<Job>)
    ensures BenchmarkJobs(jobs) == [] <==> forall i :: !IsValidation(jobs, i)
  {
    if jobs != [] {
      NoJobs(jobs[1..]);
      assert forall i :: IsValidation(jobs[1..], i) ==> IsValidation(jobs, i + 1);
      assert forall i :: i > 0 && IsValidation(jobs, i) ==> IsValidation(jobs[1..], i - 1);
      assert IsValidation(jobs, 0) <==> jobs[0].name == JOB_NAME;
    }
  }

  lemma {:induction false} FirstJob(jobs: seq<Job>) returns (i: nat)
    requires BenchmarkJobs(jobs) != []
    ensures IsValidation(jobs, i) && BenchmarkJobs(jobs) == [jobs[i]] + BenchmarkJobs(jobs[i + 1..])
    ensures forall j :: j < i ==> !IsValidation(jobs, j)
  {
    i := 0;
    if jobs[0].name != JOB_NAME {
      i := FirstJob(jobs[1..]);
      assert jobs[1..][i + 1..] == jobs[i + 2..];
      assert forall j :: 0 < j && IsValidation(jobs, j) ==> IsValidation(jobs[1..], j - 1);
      i := i + 1;
    }
  }

  /** Nothing is selected for want of a run exactly when every matching run was skipped. */
  lemma {:induction false} NoRunIff(matches: seq<Run>, jobsFor: Run -> seq<Job>)
    ensures Decide(matches, jobsFor) == Failure(NoRun) <==> forall run :: run in matches ==> Skipped(jobsFor(run))
  {
    if matches != [] {
      NoRunIff(matches[1..], jobsFor);
      assert matches[0] in matches;
    }
  }

  /** Neither the order in which the runs are listed nor their repetition matters. */
  lemma ListingOrderIsIrrelevant(runs: seq<Run>, runs': seq<Run>, repo: string, branch: string, sha: string, jobsFor: Run -> seq<Job>)
    requires OneRunPerKey(runs) && forall r :: r in runs <==> r in runs'
    ensures Decide(NewestFirst(Eligible(runs, repo, branch, sha)), jobsFor) ==
            Decide(NewestFirst(Eligible(runs', repo, branch, sha)), jobsFor)
  {
    var found, found' := Eligible(runs, repo, branch, sha), Eligible(runs', repo, branch, sha);
    EligibleAre(runs, repo, branch, sha);
    EligibleAre(runs', repo, branch, sha);
    NewestFirstSorts(found);
    NewestFirstSorts(found');
    SameMembersDecide(NewestFirst(found), NewestFirst(found'), jobsFor);
  }

  lemma SameMembersDecide(a: seq<Run>, b: seq<Run>, jobsFor: Run -> seq<Job>)
    requires NotRising(a) && NotRising(b) && OneRunPerKey(a) && forall r :: r in a <==> r in b
    ensures Decide(a, jobsFor) == Decide(b, jobsFor)
  {
    NoRunIff(a, jobsFor);
    NoRunIff(b, jobsFor);
    if exists r :: r in a && !Skipped(jobsFor(r)) {
      var one := NewestDecides(a, jobsFor);
      var two := NewestDecides(b, jobsFor);
      NewestIsUnique(a, one, two);
    }
  }

  lemma NewestIsUnique(runs: seq<Run>, one: Run, two: Run)
    requires OneRunPerKey(runs) && one in runs && two in runs && !Older(one, two) && !Older(two, one)
    ensures one == two
  {
    OlderIsTotal(one, two);
  }
}
