/** The tallies that `run_tests` keeps while it collects results (test.py), and its exit code. */
module TestReport {
  import opened Totals
  import opened WorkerPool

  datatype Status = INTERRUPTED | SKIP | PASS | FAIL | VALGR | CRASH

  function StatusOf(job: Job): Status {
    if job.isBreak then INTERRUPTED
    else if job.isSkip then SKIP
    else match job.outcome.returncode
      case 0 => PASS
      case 1 => FAIL
      case 2 => VALGR
      case _ => CRASH
  }

  ghost function HasStatus(status: Status): Job -> int {
    (job: Job) => if StatusOf(job) == status then 1 else 0
  }

  ghost function Count(results: seq<Job>, status: Status): int {
    Total(results, HasStatus(status))
  }

  /** The return code alone makes a job a failed one. */
  predicate FailedByCode(job: Job) {
    !job.isBreak && !job.isSkip && job.outcome.returncode != 0
  }

  /** A suite is failed by the XML file it leaves, or by leaving none. */
  predicate FailedByXml(job: Job) {
    && !job.isBreak && !job.isSkip && !job.isExample
    && (job.outcome.returncode !in {0, 1, 2} || job.outcome.xmlResult !in {"PASS", "SKIP"})
  }

  /** How often a result is put on the list of failed jobs and left there. */
  function Reports(job: Job): nat {
    (if FailedByCode(job) then 1 else 0) + if FailedByXml(job) then 1 else 0
  }

  /** The list of failed jobs that is left after collecting `results`. */
  ghost function FailedJobs(results: seq<Job>): seq<Job> {
    if results == [] then [] else
      var last := results[|results| - 1];
      FailedJobs(results[..|results| - 1])
      + (if FailedByCode(last) then [last] else [])
      + (if FailedByXml(last) then [last] else [])
  }

  /** A job that was not interrupted and was skipped or returned 0. */
  predicate IsFine(job: Job) {
    !job.isBreak && (job.isSkip || job.outcome.returncode == 0)
  }

  /** The positions of results that are neither interrupted nor skipped, with this return code. */
  ghost function Returned(results: seq<Job>, returncode: int): set<int> {
    set i | 0 <= i < |results| && !results[i].isBreak && !results[i].isSkip && results[i].outcome.returncode == returncode
  }

  /** Which jobs each tally counts, by their own fields. */
  lemma TalliesCount(results: seq<Job>)
    ensures Count(results, INTERRUPTED) == |set i | 0 <= i < |results| && results[i].isBreak|
    ensures Count(results, SKIP) == |set i | 0 <= i < |results| && !results[i].isBreak && results[i].isSkip|
    ensures Count(results, PASS) == |Returned(results, 0)|
    ensures Count(results, FAIL) == |Returned(results, 1)|
    ensures Count(results, VALGR) == |Returned(results, 2)|
    ensures Count(results, CRASH) ==
            |set i | 0 <= i < |results| && !results[i].isBreak && !results[i].isSkip
                     && results[i].outcome.returncode !in {0, 1, 2}|
  {
    CountIsSize(results, INTERRUPTED);
    CountIsSize(results, SKIP);
    CountIsSize(results, PASS);
    CountIsSize(results, FAIL);
    CountIsSize(results, VALGR);
    CountIsSize(results, CRASH);
    assert (set i | 0 <= i < |results| && results[i].isBreak) == With(results, INTERRUPTED);
    assert (set i | 0 <= i < |results| && !results[i].isBreak && results[i].isSkip) == With(results, SKIP);
    assert Returned(results, 0) == With(results, PASS);
    assert Returned(results, 1) == With(results, FAIL);
    assert Returned(results, 2) == With(results, VALGR);
    assert (set i | 0 <= i < |results| && !results[i].isBreak && !results[i].isSkip
                    && results[i].outcome.returncode !in {0, 1, 2}) == With(results, CRASH);
  }

  ghost function With(results: seq<Job>, status: Status): set<int> {
    set i | 0 <= i < |results| && StatusOf(results[i]) == status
  }

  lemma CountIsSize(results: seq<Job>, status: Status)
    ensures Count(results, status) == |With(results, status)|
  {
    TotalIsCount(results, HasStatus(status));
    assert Ones(results, HasStatus(status)) == With(results, status);
  }

  class Report {
    var passed: nat
    var skipped: nat
    var failed: nat
    var valgrindErrors: nat
    var crashed: nat
    var failedJobs: seq<Job>

    ghost predicate Tallies(results: seq<Job>)
      reads this
    {
      && passed == Count(results, PASS)
      && skipped == Count(results, SKIP)
      && failed == Count(results, FAIL)
      && valgrindErrors == Count(results, VALGR)
      && crashed == Count(results, CRASH)
      && failedJobs == FailedJobs(results)
    }

    constructor ()
      ensures Tallies([])
    {
      passed, skipped, failed, valgrindErrors, crashed, failedJobs := 0, 0, 0, 0, 0, [];
    }

    /** The body of the collecting loop, for one result. */
    method Collect(job: Job, ghost results: seq<Job>)
      requires Tallies(results)
      modifies this
      ensures Tallies(results + [job])
    {
      SnocEverything(results, job);
      if job.isBreak {
        return;
      }
      CollectStatus(job);
      if !job.isExample && !job.isSkip {
        CollectXml(job);
      }
    }

    /** Count the result; a job is listed as failed first and taken off again if it passed. */
    method CollectStatus(job: Job)
      requires !job.isBreak
      modifies this
      ensures skipped == old(skipped) + if job.isSkip then 1 else 0
      ensures passed == old(passed) + if !job.isSkip && job.outcome.returncode == 0 then 1 else 0
      ensures failed == old(failed) + if !job.isSkip && job.outcome.returncode == 1 then 1 else 0
      ensures valgrindErrors == old(valgrindErrors) + if !job.isSkip && job.outcome.returncode == 2 then 1 else 0
      ensures crashed == old(crashed) + if !job.isSkip && job.outcome.returncode !in {0, 1, 2} then 1 else 0
      ensures failedJobs == old(failedJobs) + if !job.isSkip && job.outcome.returncode != 0 then [job] else []
    {
      if job.isSkip {
        skipped := skipped + 1;
      } else {
        failedJobs := failedJobs + [job];
        if job.outcome.returncode == 0 {
          passed := passed + 1;
          failedJobs := failedJobs[..|failedJobs| - 1];
        } else if job.outcome.returncode == 1 {
          failed := failed + 1;
        } else if job.outcome.returncode == 2 {
          valgrindErrors := valgrindErrors + 1;
        } else {
          crashed := crashed + 1;
        }
      }
    }

    /** List a suite as failed and take it off again if its XML file says that it did not fail. */
    method CollectXml(job: Job)
      requires !job.isBreak && !job.isExample && !job.isSkip
      modifies `failedJobs
      ensures var cleared := job.outcome.returncode in {0, 1, 2} && job.outcome.xmlResult in {"PASS", "SKIP"};
              failedJobs == old(failedJobs) + if cleared then [] else [job]
    {
      failedJobs := failedJobs + [job];
      if job.outcome.returncode == 0 || job.outcome.returncode == 1 || job.outcome.returncode == 2 {
        if job.outcome.xmlResult == "PASS" || job.outcome.xmlResult == "SKIP" {
          failedJobs := failedJobs[..|failedJobs| - 1];
        }
      }
    }

    method CollectAll(results: seq<Job>)
      requires Tallies([])
      modifies this
      ensures Tallies(results)
    {
      for i := 0 to |results|
        invariant Tallies(results[..i])
      {
        Collect(results[i], results[..i]);
        assert results[..i + 1] == results[..i] + [results[i]];
      }
      assert results[..|results|] == results;
    }

    /** 0 for success, 1 for anything else; `totalTests` is the number of dispatched jobs. */
    method ExitCode(totalTests: nat, ghost results: seq<Job>) returns (code: int)
      requires Tallies(results) && totalTests == |results|
      ensures code == 0 || code == 1
      ensures code == 0 <==> forall i | 0 <= i < |results| :: IsFine(results[i])
    {
      AllPassedOrSkipped(results);
      return if passed + skipped == totalTests then 0 else 1;
    }
  }

  lemma SnocEverything(results: seq<Job>, job: Job)
    ensures forall st :: Count(results + [job], st) == Count(results, st) + if StatusOf(job) == st then 1 else 0
    ensures FailedJobs(results + [job]) ==
            FailedJobs(results) + (if FailedByCode(job) then [job] else []) + (if FailedByXml(job) then [job] else [])
  {
    assert (results + [job])[..|results|] == results;
    forall st
      ensures Count(results + [job], st) == Count(results, st) + if StatusOf(job) == st then 1 else 0
    {
      TotalSnoc(results, job, HasStatus(st));
    }
  }

  /** Nothing collected is left out of the tallies, and nothing is counted twice. */
  lemma {:induction false} TalliesAddUp(results: seq<Job>)
    ensures Count(results, INTERRUPTED) + Count(results, SKIP) + Count(results, PASS)
            + Count(results, FAIL) + Count(results, VALGR) + Count(results, CRASH) == |results|
  {
    if results != [] {
      TalliesAddUp(results[..|results| - 1]);
    }
  }

  lemma {:induction false} AllPassedOrSkipped(results: seq<Job>)
    ensures Count(results, PASS) + Count(results, SKIP) <= |results|
    ensures Count(results, PASS) + Count(results, SKIP) == |results| <==>
            forall i | 0 <= i < |results| :: IsFine(results[i])
  {
    if results != [] {
      var front, last := results[..|results| - 1], results[|results| - 1];
      AllPassedOrSkipped(front);
      assert results == front + [last];
    }
  }

  /** The failed jobs are those with a return code other than 0 and the suites whose XML file
      does not say PASS or SKIP.  A suite that fails both ways is listed twice. */
  lemma ListedOnceOrTwice(results: seq<Job>, it: Job)
    ensures var counts := !it.isBreak && !it.isSkip;
            var byCode := counts && it.outcome.returncode != 0;
            var byXml := counts && !it.isExample
                         && (it.outcome.returncode !in {0, 1, 2} || it.outcome.xmlResult !in {"PASS", "SKIP"});
            multiset(FailedJobs(results))[it] ==
            multiset(results)[it] * if byCode && byXml then 2 else if byCode || byXml then 1 else 0
  {
    ListedByReports(results, it);
  }

  /** The list follows the order of the results. */
  lemma {:induction false} FailedJobsConcat(a: seq<Job>, b: seq<Job>)
    ensures FailedJobs(a + b) == FailedJobs(a) + FailedJobs(b)
  {
    if b == [] {
      assert a + b == a;
    } else {
      var front, last := b[..|b| - 1], b[|b| - 1];
      assert (a + b)[..|a + b| - 1] == a + front;
      FailedJobsConcat(a, front);
    }
  }

  lemma {:induction false} ListedByReports(results: seq<Job>, it: Job)
    ensures multiset(FailedJobs(results))[it] == multiset(results)[it] * Reports(it)
  {
    hide FailedJobs, Reports;
    if results == [] {
      NothingListed();
    } else {
      var front, last := results[..|results| - 1], results[|results| - 1];
      ListedByReports(front, it);
      assert results == front + [last];
      OneMoreListed(front, last, it);
      OneMore(multiset(front)[it], Reports(it));
    }
  }

  lemma NothingListed()
    ensures FailedJobs([]) == []
  {
  }

  lemma OneMoreListed(front: seq<Job>, last: Job, it: Job)
    ensures multiset(FailedJobs(front + [last]))[it] ==
            multiset(FailedJobs(front))[it] + if last == it then Reports(it) else 0
  {
    hide FailedByCode, FailedByXml;
    assert (front + [last])[..|front|] == front;
    var byCode := FailedJobs(front) + if FailedByCode(last) then [last] else [];
    Appended(FailedJobs(front), FailedByCode(last), last, it);
    Appended(byCode, FailedByXml(last), last, it);
  }

  lemma Appended(s: seq<Job>, b: bool, x: Job, it: Job)
    ensures multiset(s + if b then [x] else [])[it] == multiset(s)[it] + if b && x == it then 1 else 0
  {
    if !b {
      assert s + [] == s;
    }
  }

  lemma OneMore(m: int, n: int)
    ensures (m + 1) * n == m * n + n
  {
  }

  /** The whole of `run_tests`: in every finished run the tallies and the interrupted jobs add
      up to the dispatched jobs, and the run counts as a success exactly when no job came back
      interrupted and every job passed or was skipped. */
  lemma FinishedRun(plan: seq<Job>, processors: nat, schedule: seq<Action>)
    requires (processors > 0 || plan == []) && Dispatchable(plan)
    requires Possible(Init(plan, processors), schedule)
    requires After(Init(plan, processors), schedule).main.Done?
    ensures var results := After(Init(plan, processors), schedule).collected;
            && Count(results, INTERRUPTED) + Count(results, SKIP) + Count(results, PASS)
               + Count(results, FAIL) + Count(results, VALGR) + Count(results, CRASH) == |plan|
            && (Count(results, PASS) + Count(results, SKIP) == |plan| <==>
                forall i | 0 <= i < |results| :: IsFine(results[i]))
            && (Interrupt !in schedule ==>
                && Count(results, INTERRUPTED) == 0
                && Count(results, SKIP) == Total(plan, OfResult(Skipped())))
            && ((exists i: nat :: InterruptedFirst(Init(plan, processors), schedule, i)) ==>
                Count(results, INTERRUPTED) == |plan|)
  {
    hide Possible, After, InterruptedFirst, Dispatchable;
    var s0 := Init(plan, processors);
    var results := After(s0, schedule).collected;
    EveryRunCompletes(plan, processors, schedule);
    TalliesAddUp(results);
    AllPassedOrSkipped(results);
    if Interrupt !in schedule {
      NoInterruptNoBreak(plan, processors, schedule);
      CollectedWeighsTheSame(plan, processors, schedule, Skipped());
      SkipsAreSkips(results);
    }
    if i: nat :| InterruptedFirst(s0, schedule, i) {
      AllBroken(plan, processors, schedule, i);
      AllInterrupted(results);
    }
  }

  lemma {:induction false} AllInterrupted(results: seq<Job>)
    requires forall k | 0 <= k < |results| :: results[k].isBreak
    ensures Count(results, INTERRUPTED) == |results|
  {
    if results != [] {
      AllInterrupted(results[..|results| - 1]);
    }
  }

  ghost function Skipped(): Job -> int {
    (job: Job) => if job.isSkip then 1 else 0
  }

  lemma {:induction false} SkipsAreSkips(results: seq<Job>)
    requires forall i | 0 <= i < |results| :: !results[i].isBreak
    ensures Count(results, INTERRUPTED) == 0
    ensures Count(results, SKIP) == Total(results, OfResult(Skipped()))
  {
    if results != [] {
      var last := results[|results| - 1];
      SkipsAreSkips(results[..|results| - 1]);
      assert !last.isBreak;
      assert last.Origin().isSkip == last.isSkip;
      assert StatusOf(last) != INTERRUPTED;
      assert StatusOf(last) == SKIP <==> last.isSkip;
    }
  }
}
