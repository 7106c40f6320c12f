/**
 The channel-test worker pool: a feeder, `workers` test workers, a closer and a
 collector that talk over two unbuffered channels, with cancellation.

 The goroutines become one transition system. A rendezvous on an unbuffered
 channel is one joint step of sender and receiver. `run` is an oracle indexed by
 list position: since no entry is ever run twice, this loses no behaviour.
 */
module ChannelTestPool {
  import opened Basics

  // ---------------------------------------------------------------- summaries

  datatype Summary = Summary(tested: int, succeeded: int, failed: int, disabled: int, enabled: int)

  const ZERO := Summary(0, 0, 0, 0, 0)

  function Add(a: Summary, b: Summary): Summary {
    Summary(a.tested + b.tested, a.succeeded + b.succeeded, a.failed + b.failed,
            a.disabled + b.disabled, a.enabled + b.enabled)
  }

  predicate Balanced(s: Summary) {
    && s.tested == s.succeeded + s.failed
    && 0 <= s.succeeded
    && 0 <= s.disabled <= s.failed
    && 0 <= s.enabled
    && s.disabled + s.enabled <= s.tested
  }

  datatype Status = Enabled | ManuallyDisabled | AutoDisabled

  /** What one health check observes: the error returned, whether it is one that bans, the
      response time and the settings consulted. */
  datatype Observation = Observation(
    cancelled: bool, gatewayError: bool, banningError: bool, localError: bool,
    milliseconds: int, threshold: int, status: Status, allowDisable: bool, autoBan: bool,
    automaticDisable: bool, automaticEnable: bool)

  /** One health check's summary: a check cut short by cancellation counts nothing; any other
      check is tested once, and succeeds or fails, and disables only what failed. */
  method HealthCheck(o: Observation) returns (summary: Summary)
    ensures Balanced(summary)
    ensures summary.tested == (if o.cancelled then 0 else 1)
    ensures summary.failed == 1 <==>
            !o.cancelled && (o.gatewayError || (o.automaticDisable && o.milliseconds > o.threshold))
    ensures summary.disabled == 1 <==>
            && summary.failed == 1 && o.allowDisable && o.status.Enabled? && o.autoBan && o.automaticDisable
            && ((o.gatewayError && o.banningError) || o.milliseconds > o.threshold)
    ensures summary.enabled == 1 <==>
            && summary.succeeded == 1 && !o.localError && o.automaticEnable && o.status.AutoDisabled?
  {
    summary := ZERO;
    if o.cancelled {
      return;
    }
    summary := summary.(tested := summary.tested + 1);
    var shouldBan := false;
    var failed := o.gatewayError;
    if failed {
      shouldBan := o.automaticDisable && o.banningError;
    }
    if o.automaticDisable && !shouldBan && o.milliseconds > o.threshold {
      failed := true;
      shouldBan := true;
    }
    if !failed {
      summary := summary.(succeeded := summary.succeeded + 1);
    } else {
      summary := summary.(failed := summary.failed + 1);
    }
    if o.allowDisable && o.status.Enabled? && shouldBan && o.autoBan {
      summary := summary.(disabled := summary.disabled + 1);
    }
    if !o.localError && !o.status.Enabled? && o.automaticEnable && !failed && o.status.AutoDisabled? {
      summary := summary.(enabled := summary.enabled + 1);
    }
  }

  // ------------------------------------------------------------ configuration

  const DEFAULT_CONCURRENCY := 1
  const MAX_CONCURRENCY := 32

  function NormalizeConcurrency(concurrency: int): (r: int)
    ensures 1 <= r <= 32
    ensures 1 <= concurrency <= 32 ==> r == concurrency
    ensures concurrency < 1 ==> r == 1
    ensures concurrency > 32 ==> r == 32
  {
    if concurrency < 1 then DEFAULT_CONCURRENCY
    else if concurrency > MAX_CONCURRENCY then MAX_CONCURRENCY
    else concurrency
  }

  /** One list entry: `runnable` is false for a nil or manually disabled channel; `verdict`
      is what an uncancelled run of this entry returns. */
  datatype Job = Job(runnable: bool, verdict: Summary)

  datatype Config = Config(jobs: seq<Job>, concurrency: int, paced: bool)

  ghost predicate ValidConfig(cfg: Config) {
    forall j :: 0 <= j < |cfg.jobs| ==> Balanced(cfg.jobs[j].verdict)
  }

  function WorkerCount(cfg: Config): nat {
    var n := NormalizeConcurrency(cfg.concurrency);
    if n < |cfg.jobs| then n else |cfg.jobs|
  }

  function Verdict(cfg: Config, j: nat): Summary
    requires j < |cfg.jobs|
  {
    if cfg.jobs[j].runnable then cfg.jobs[j].verdict else ZERO
  }

  /** Results a worker can hold for entry j: the verdict, or nothing once cancelled. */
  predicate Possible(cfg: Config, cancelled: bool, j: nat, r: Summary) {
    j < |cfg.jobs| && (r == Verdict(cfg, j) || (cancelled && r == ZERO))
  }

  // ------------------------------------------------------------------- states

  datatype Worker = Idle | Running(job: nat) | Sending(sent: nat, result: Summary) | Pausing | Exited

  datatype Collector = Receiving | Holding(held: nat, value: Summary) | Returned

  datatype Pool = Pool(
    workers: seq<Worker>,
    next: nat,                          // feeder: first entry not yet handed out
    jobsClosed: bool,
    resultsClosed: bool,
    collector: Collector,
    cancelled: bool,
    summary: Summary,
    processed: nat,
    reports: seq<nat>,                  // progress values passed to report
    collected: seq<(nat, Summary)>)     // history: entries accounted for, in order

  function Start(cfg: Config): Pool {
    if cfg.jobs == [] then
      Pool([], 0, true, true, Returned, false, ZERO, 0, [0], [])
    else
      Pool(seq(WorkerCount(cfg), _ => Idle), 0, false, false, Receiving, false, ZERO, 0, [0], [])
  }

  /** The pool has returned and left no goroutine behind. */
  predicate Done(s: Pool) {
    && s.collector.Returned? && s.jobsClosed && s.resultsClosed
    && forall w :: 0 <= w < |s.workers| ==> s.workers[w].Exited?
  }

  // -------------------------------------------------------------- transitions

  datatype Step =
    | Deliver(w: nat)                   // feeder hands the next entry to an idle worker
    | FeederFinishes                    // every entry handed out: close(jobs)
    | FeederCancelled                   // ctx.Done chosen by the feeder: close(jobs)
    | RunReturns(w: nat, r: Summary)
    | HandOver(w: nat)                  // results <- result, received by the collector
    | Account                           // collector adds the result and reports
    | PauseEnds(w: nat)
    | PauseCancelled(w: nat)
    | ExitOnClose(w: nat)
    | ExitOnCancel(w: nat)
    | CloseResults                      // workers.Wait() returned
    | CollectorReturns
    | Cancel                            // the environment cancels ctx

  predicate At(s: Pool, w: nat) { w < |s.workers| }

  predicate CanStep(cfg: Config, s: Pool, step: Step) {
    match step
    case Deliver(w) => At(s, w) && s.workers[w].Idle? && !s.jobsClosed && s.next < |cfg.jobs|
    case FeederFinishes => !s.jobsClosed && s.next == |cfg.jobs|
    case FeederCancelled => !s.jobsClosed && s.next < |cfg.jobs| && s.cancelled
    case RunReturns(w, r) => At(s, w) && s.workers[w].Running? && Possible(cfg, s.cancelled, s.workers[w].job, r)
    case HandOver(w) => At(s, w) && s.workers[w].Sending? && s.collector.Receiving? && !s.resultsClosed
    case Account => s.collector.Holding?
    case PauseEnds(w) => At(s, w) && s.workers[w].Pausing?
    case PauseCancelled(w) => At(s, w) && s.workers[w].Pausing? && s.cancelled
    case ExitOnClose(w) => At(s, w) && s.workers[w].Idle? && s.jobsClosed
    case ExitOnCancel(w) => At(s, w) && s.workers[w].Idle? && s.cancelled
    case CloseResults => !s.resultsClosed && forall w :: 0 <= w < |s.workers| ==> s.workers[w].Exited?
    case CollectorReturns => s.collector.Receiving? && s.resultsClosed
    case Cancel => !s.cancelled
  }

  function Apply(cfg: Config, s: Pool, step: Step): Pool
    requires CanStep(cfg, s, step)
  {
    match step
    case Deliver(w) => s.(workers := s.workers[w := Running(s.next)], next := s.next + 1)
    case FeederFinishes => s.(jobsClosed := true)
    case FeederCancelled => s.(jobsClosed := true)
    case RunReturns(w, r) => s.(workers := s.workers[w := Sending(s.workers[w].job, r)])
    case HandOver(w) =>
      s.(workers := s.workers[w := if cfg.paced then Pausing else Idle],
         collector := Holding(s.workers[w].sent, s.workers[w].result))
    case Account =>
      s.(collector := Receiving,
         summary := Add(s.summary, s.collector.value),
         processed := s.processed + 1,
         reports := if s.cancelled then s.reports else s.reports + [s.processed + 1],
         collected := s.collected + [(s.collector.held, s.collector.value)])
    case PauseEnds(w) => s.(workers := s.workers[w := Idle])
    case PauseCancelled(w) => s.(workers := s.workers[w := Exited])
    case ExitOnClose(w) => s.(workers := s.workers[w := Exited])
    case ExitOnCancel(w) => s.(workers := s.workers[w := Exited])
    case CloseResults => s.(resultsClosed := true)
    case CollectorReturns => s.(collector := Returned)
    case Cancel => s.(cancelled := true)
  }

  /** Schedules: step sequences the pool can take from its start. */
  predicate Legal(cfg: Config, steps: seq<Step>)
    decreases |steps|, 0
  {
    steps == [] ||
    var p := steps[..|steps| - 1];
    Legal(cfg, p) && CanStep(cfg, After(cfg, p), steps[|steps| - 1])
  }

  function After(cfg: Config, steps: seq<Step>): Pool
    requires Legal(cfg, steps)
    decreases |steps|, 1
  {
    if steps == [] then Start(cfg)
    else Apply(cfg, After(cfg, steps[..|steps| - 1]), steps[|steps| - 1])
  }

  // ------------------------------------------------ where every entry is found

  /** What is counted along the way: entries, one given entry, or one column of the summary. */
  datatype Tally = Entries | Entry(j: nat) | Column(i: nat)

  function Part(i: nat, s: Summary): int {
    match i
    case 0 => s.tested
    case 1 => s.succeeded
    case 2 => s.failed
    case 3 => s.disabled
    case _ => s.enabled
  }

  /** The contribution of entry j carrying value v. */
  function Unit(k: Tally, j: nat, v: Summary): int {
    match k
    case Entries => 1
    case Entry(e) => if e == j then 1 else 0
    case Column(i) => Part(i, v)
  }

  function VerdictOf(cfg: Config, j: nat): Summary {
    if j < |cfg.jobs| then Verdict(cfg, j) else ZERO
  }

  function Carried(cfg: Config, k: Tally, w: Worker): int {
    match w
    case Running(j) => Unit(k, j, VerdictOf(cfg, j))
    case Sending(j, v) => Unit(k, j, v)
    case _ => 0
  }

  function InFlight(cfg: Config, k: Tally, ws: seq<Worker>): int {
    if ws == [] then 0 else Carried(cfg, k, ws[0]) + InFlight(cfg, k, ws[1..])
  }

  function HeldBy(k: Tally, c: Collector): int {
    if c.Holding? then Unit(k, c.held, c.value) else 0
  }

  function Collected(k: Tally, c: seq<(nat, Summary)>): int {
    if c == [] then 0 else Collected(k, c[..|c| - 1]) + Unit(k, c[|c| - 1].0, c[|c| - 1].1)
  }

  function Handed(cfg: Config, k: Tally, n: nat): int {
    if n == 0 then 0 else Handed(cfg, k, n - 1) + Unit(k, n - 1, VerdictOf(cfg, n - 1))
  }

  function Total(c: seq<(nat, Summary)>): Summary {
    if c == [] then ZERO else Add(Total(c[..|c| - 1]), c[|c| - 1].1)
  }

  function SumOfVerdicts(cfg: Config, n: nat): Summary {
    if n == 0 then ZERO else Add(SumOfVerdicts(cfg, n - 1), VerdictOf(cfg, n - 1))
  }

  function UpTo(n: nat): (r: seq<nat>)
    ensures |r| == n && forall i :: 0 <= i < n ==> r[i] == i
  {
    seq(n, i requires 0 <= i < n => i)
  }

  /** The conservation law: what was handed out is in flight, held or collected. Summary columns
      are conserved only until cancellation, when a run may return nothing. */
  predicate Conserved(cfg: Config, k: Tally, s: Pool) {
    (k.Column? && s.cancelled) ||
    InFlight(cfg, k, s.workers) + HeldBy(k, s.collector) + Collected(k, s.collected) == Handed(cfg, k, s.next)
  }

  lemma {:induction false} InFlightUpdate(cfg: Config, k: Tally, ws: seq<Worker>, i: nat, w: Worker)
    requires i < |ws|
    ensures InFlight(cfg, k, ws[i := w]) == InFlight(cfg, k, ws) - Carried(cfg, k, ws[i]) + Carried(cfg, k, w)
  {
    if i == 0 {
      assert ws[0 := w][1..] == ws[1..];
    } else {
      InFlightUpdate(cfg, k, ws[1..], i - 1, w);
      assert ws[i := w][1..] == ws[1..][i - 1 := w];
    }
  }

  lemma {:induction false} NothingInFlight(cfg: Config, k: Tally, ws: seq<Worker>)
    requires forall w :: 0 <= w < |ws| ==> ws[w].Exited? || ws[w].Idle?
    ensures InFlight(cfg, k, ws) == 0
  {
    if ws != [] {
      NothingInFlight(cfg, k, ws[1..]);
    }
  }

  lemma {:induction false} InFlightNonNegative(cfg: Config, k: Tally, ws: seq<Worker>)
    requires !k.Column?
    ensures 0 <= InFlight(cfg, k, ws)
  {
    if ws != [] {
      InFlightNonNegative(cfg, k, ws[1..]);
    }
  }

  /** Every step moves an entry from one place to the next and never copies or drops it. */
  lemma ConservedStep(cfg: Config, k: Tally, s: Pool, step: Step)
    requires Conserved(cfg, k, s) && CanStep(cfg, s, step)
    ensures Conserved(cfg, k, Apply(cfg, s, step))
  {
    var t := Apply(cfg, s, step);
    if step.Account? {
      assert t.collected[..|t.collected| - 1] == s.collected;
    } else if Moves(step) {
      InFlightUpdate(cfg, k, s.workers, step.w, t.workers[step.w]);
      assert t.workers == s.workers[step.w := t.workers[step.w]];
    }
  }

  /** Steps in which one worker changes its position. */
  predicate Moves(step: Step) {
    step.Deliver? || step.RunReturns? || step.HandOver? || step.PauseEnds? || step.PauseCancelled?
    || step.ExitOnClose? || step.ExitOnCancel?
  }

  lemma {:induction false} Conservation(cfg: Config, k: Tally, steps: seq<Step>)
    requires Legal(cfg, steps)
    ensures Conserved(cfg, k, After(cfg, steps))
    decreases |steps|
  {
    if steps == [] {
      NothingInFlight(cfg, k, Start(cfg).workers);
    } else {
      Conservation(cfg, k, steps[..|steps| - 1]);
      ConservedStep(cfg, k, After(cfg, steps[..|steps| - 1]), steps[|steps| - 1]);
    }
  }

  // ---------------------------------------------------------------- invariant

  ghost predicate WorkerOk(cfg: Config, s: Pool, w: Worker) {
    match w
    case Running(j) => j < |cfg.jobs|
    case Sending(j, r) => Possible(cfg, s.cancelled, j, r)
    case Exited => s.jobsClosed || s.cancelled
    case _ => true
  }

  ghost predicate Control(cfg: Config, s: Pool) {
    && |s.workers| == WorkerCount(cfg)
    && s.next <= |cfg.jobs|
    && (s.jobsClosed ==> s.next == |cfg.jobs| || s.cancelled)
    && (s.resultsClosed ==> forall w :: 0 <= w < |s.workers| ==> s.workers[w].Exited?)
    && (s.collector.Returned? ==> s.resultsClosed)
    && (forall w :: 0 <= w < |s.workers| ==> WorkerOk(cfg, s, s.workers[w]))
    && (s.collector.Holding? ==> Possible(cfg, s.cancelled, s.collector.held, s.collector.value))
  }

  ghost predicate Ledger(cfg: Config, s: Pool) {
    && (forall i :: 0 <= i < |s.collected| ==> Possible(cfg, s.cancelled, s.collected[i].0, s.collected[i].1))
    && s.summary == Total(s.collected)
    && s.processed == |s.collected|
  }

  ghost predicate Progress(s: Pool) {
    && |s.reports| >= 1 && s.reports[0] == 0
    && (forall i, j :: 0 <= i < j < |s.reports| ==> s.reports[i] < s.reports[j])
    && (forall i :: 0 <= i < |s.reports| ==> s.reports[i] <= s.processed)
    && (!s.cancelled ==> s.reports == UpTo(s.processed + 1))
  }

  lemma ControlStep(cfg: Config, s: Pool, step: Step)
    requires Control(cfg, s) && CanStep(cfg, s, step)
    ensures Control(cfg, Apply(cfg, s, step))
  {
  }

  lemma LedgerStep(cfg: Config, s: Pool, step: Step)
    requires Control(cfg, s) && Ledger(cfg, s) && CanStep(cfg, s, step)
    ensures Ledger(cfg, Apply(cfg, s, step))
  {
    if step.Account? {
      var t := Apply(cfg, s, step);
      assert t.collected[..|t.collected| - 1] == s.collected;
    }
  }

  lemma ProgressStep(cfg: Config, s: Pool, step: Step)
    requires Progress(s) && CanStep(cfg, s, step)
    ensures Progress(Apply(cfg, s, step))
  {
    if step.Account? {
      ProgressAccount(s, Apply(cfg, s, step));
    }
  }

  lemma ProgressAccount(s: Pool, t: Pool)
    requires Progress(s)
    requires t.processed == s.processed + 1 && t.cancelled == s.cancelled
    requires t.reports == if s.cancelled then s.reports else s.reports + [s.processed + 1]
    ensures Progress(t)
  {
    assert UpTo(s.processed + 2) == UpTo(s.processed + 1) + [s.processed + 1];
  }

  lemma {:induction false} Reachable(cfg: Config, steps: seq<Step>)
    requires Legal(cfg, steps)
    ensures Control(cfg, After(cfg, steps))
    ensures Ledger(cfg, After(cfg, steps))
    ensures Progress(After(cfg, steps))
    decreases |steps|
  {
    if steps == [] {
      assert UpTo(1) == [0];
    } else {
      var p := steps[..|steps| - 1];
      Reachable(cfg, p);
      ControlStep(cfg, After(cfg, p), steps[|steps| - 1]);
      LedgerStep(cfg, After(cfg, p), steps[|steps| - 1]);
      ProgressStep(cfg, After(cfg, p), steps[|steps| - 1]);
    }
  }

  // -------------------------------------------------- safety over every schedule

  lemma {:induction false} TotalBalanced(cfg: Config, cancelled: bool, c: seq<(nat, Summary)>)
    requires ValidConfig(cfg)
    requires forall i :: 0 <= i < |c| ==> Possible(cfg, cancelled, c[i].0, c[i].1)
    ensures Balanced(Total(c))
  {
    if c != [] {
      TotalBalanced(cfg, cancelled, c[..|c| - 1]);
    }
  }

  lemma {:induction false} HandedOnce(cfg: Config, j: nat, n: nat)
    ensures Handed(cfg, Entry(j), n) == if j < n then 1 else 0
    ensures Handed(cfg, Entries, n) == n
  {
    if n > 0 {
      HandedOnce(cfg, j, n - 1);
    }
  }

  lemma {:induction false} CollectedAll(c: seq<(nat, Summary)>)
    ensures Collected(Entries, c) == |c|
  {
    if c != [] {
      CollectedAll(c[..|c| - 1]);
    }
  }

  /** No entry is ever run, held or collected twice, nor invented: with cancellation at any point,
      the entries handed out are exactly the first `next`, each found in exactly one place. */
  lemma ExactlyOnce(cfg: Config, steps: seq<Step>, j: nat)
    requires Legal(cfg, steps)
    ensures
      var s := After(cfg, steps);
      InFlight(cfg, Entry(j), s.workers) + HeldBy(Entry(j), s.collector) + Collected(Entry(j), s.collected)
      == if j < s.next then 1 else 0
  {
    Conservation(cfg, Entry(j), steps);
    HandedOnce(cfg, j, After(cfg, steps).next);
  }

  lemma ProcessedBound(cfg: Config, steps: seq<Step>)
    requires Legal(cfg, steps)
    ensures After(cfg, steps).processed <= After(cfg, steps).next <= |cfg.jobs|
  {
    var s := After(cfg, steps);
    Reachable(cfg, steps);
    Conservation(cfg, Entries, steps);
    HandedOnce(cfg, 0, s.next);
    CollectedAll(s.collected);
    InFlightNonNegative(cfg, Entries, s.workers);
  }

  /** With cancellation at any point, the summary is the sum over exactly the collected entries and
      stays balanced. */
  lemma SummarySafety(cfg: Config, steps: seq<Step>)
    requires ValidConfig(cfg) && Legal(cfg, steps)
    ensures After(cfg, steps).summary == Total(After(cfg, steps).collected)
    ensures Balanced(After(cfg, steps).summary)
  {
    Reachable(cfg, steps);
    LedgerBalanced(cfg, After(cfg, steps));
  }

  lemma LedgerBalanced(cfg: Config, s: Pool)
    requires ValidConfig(cfg) && Ledger(cfg, s)
    ensures Balanced(s.summary)
  {
    TotalBalanced(cfg, s.cancelled, s.collected);
  }

  /** Reported progress strictly increases and never passes the total. */
  lemma ProgressSafety(cfg: Config, steps: seq<Step>, i: nat, j: nat)
    requires Legal(cfg, steps)
    requires i < j < |After(cfg, steps).reports|
    ensures After(cfg, steps).reports[i] < After(cfg, steps).reports[j] <= |cfg.jobs|
  {
    Reachable(cfg, steps);
    ProcessedBound(cfg, steps);
  }

  /** While some worker still runs or wants to send, the results channel is open and its closer
      cannot close it; and never are more than `workerCount` entries run at once. */
  lemma NoSendOnClosed(cfg: Config, steps: seq<Step>, w: nat)
    requires Legal(cfg, steps)
    requires w < |After(cfg, steps).workers|
    requires After(cfg, steps).workers[w].Running? || After(cfg, steps).workers[w].Sending?
    ensures !After(cfg, steps).resultsClosed
    ensures !CanStep(cfg, After(cfg, steps), CloseResults)
    ensures |After(cfg, steps).workers| == WorkerCount(cfg) <= MAX_CONCURRENCY
  {
    Reachable(cfg, steps);
  }

  // ------------------------------------------------- deadlock freedom, termination

  function Rank(w: Worker): nat {
    match w
    case Running(_) => 5
    case Sending(_, _) => 4
    case Pausing => 2
    case Idle => 1
    case Exited => 0
  }

  function Ranks(ws: seq<Worker>): nat {
    if ws == [] then 0 else Rank(ws[0]) + Ranks(ws[1..])
  }

  /** Strictly decreases on every step; bounds the length of every schedule. */
  function Measure(cfg: Config, s: Pool): int {
    5 * (|cfg.jobs| - s.next) + Ranks(s.workers)
    + (if s.collector.Holding? then 2 else if s.collector.Receiving? then 1 else 0)
    + (if s.jobsClosed then 0 else 1) + (if s.resultsClosed then 0 else 1) + (if s.cancelled then 0 else 1)
  }

  lemma {:induction false} RanksUpdate(ws: seq<Worker>, i: nat, w: Worker)
    requires i < |ws|
    ensures Ranks(ws[i := w]) == Ranks(ws) - Rank(ws[i]) + Rank(w)
  {
    if i == 0 {
      assert ws[0 := w][1..] == ws[1..];
    } else {
      RanksUpdate(ws[1..], i - 1, w);
      assert ws[i := w][1..] == ws[1..][i - 1 := w];
    }
  }

  lemma MeasureDecreases(cfg: Config, s: Pool, step: Step)
    requires s.next <= |cfg.jobs| && CanStep(cfg, s, step)
    ensures 0 <= Measure(cfg, Apply(cfg, s, step)) < Measure(cfg, s)
  {
    if Moves(step) {
      var t := Apply(cfg, s, step);
      RanksUpdate(s.workers, step.w, t.workers[step.w]);
      assert t.workers == s.workers[step.w := t.workers[step.w]];
    }
  }

  /** No schedule is longer than the measure of the start state. */
  lemma {:induction false} Terminates(cfg: Config, steps: seq<Step>)
    requires Legal(cfg, steps)
    ensures 0 <= Measure(cfg, After(cfg, steps)) <= Measure(cfg, Start(cfg)) - |steps|
    decreases |steps|
  {
    if steps == [] {
    } else {
      var p := steps[..|steps| - 1];
      Terminates(cfg, p);
      Reachable(cfg, p);
      MeasureDecreases(cfg, After(cfg, p), steps[|steps| - 1]);
    }
  }

  /** In every reachable state that is not finished, some goroutine can move on its own. */
  lemma NoDeadlock(cfg: Config, steps: seq<Step>) returns (step: Step)
    requires Legal(cfg, steps) && !Done(After(cfg, steps))
    ensures !step.Cancel? && CanStep(cfg, After(cfg, steps), step)
  {
    Reachable(cfg, steps);
    var s := After(cfg, steps);
    if s.collector.Holding? {
      return Account;
    }
    if w: nat :| w < |s.workers| && s.workers[w].Running? {
      return RunReturns(w, Verdict(cfg, s.workers[w].job));
    }
    if w: nat :| w < |s.workers| && s.workers[w].Sending? {
      return HandOver(w);
    }
    if w: nat :| w < |s.workers| && s.workers[w].Pausing? {
      return PauseEnds(w);
    }
    if !s.jobsClosed {
      if s.next == |cfg.jobs| {
        return FeederFinishes;
      } else if s.cancelled {
        return FeederCancelled;
      } else {
        return Deliver(0);
      }
    }
    if w: nat :| w < |s.workers| && s.workers[w].Idle? {
      return ExitOnClose(w);
    }
    if !s.resultsClosed {
      return CloseResults;
    }
    return CollectorReturns;
  }

  // ------------------------------------------------------ totals of a finished run

  lemma {:induction false} CollectedColumn(i: nat, c: seq<(nat, Summary)>)
    ensures Collected(Column(i), c) == Part(i, Total(c))
  {
    if c != [] {
      CollectedColumn(i, c[..|c| - 1]);
    }
  }

  lemma {:induction false} HandedColumn(cfg: Config, i: nat, n: nat)
    ensures Handed(cfg, Column(i), n) == Part(i, SumOfVerdicts(cfg, n))
  {
    if n > 0 {
      HandedColumn(cfg, i, n - 1);
    }
  }

  /** In a finished pool every entry handed out has been collected; uncancelled, column by column,
      the summary is the sum of the verdicts. */
  lemma FinishedColumn(cfg: Config, steps: seq<Step>, i: nat)
    requires Legal(cfg, steps) && Done(After(cfg, steps)) && !After(cfg, steps).cancelled
    ensures Part(i, After(cfg, steps).summary) == Part(i, SumOfVerdicts(cfg, |cfg.jobs|))
  {
    var s := After(cfg, steps);
    Reachable(cfg, steps);
    Conservation(cfg, Column(i), steps);
    NothingInFlight(cfg, Column(i), s.workers);
    CollectedColumn(i, s.collected);
    HandedColumn(cfg, i, s.next);
  }

  /** A schedule nobody can continue has finished, and each entry handed out was collected exactly
      once. Uncancelled, that is the whole list; the summary is the sum over the whole list whatever
      the schedule was, and the reports were 0, 1, ..., total. */
  lemma Completion(cfg: Config, steps: seq<Step>)
    requires Legal(cfg, steps)
    requires forall step: Step :: CanStep(cfg, After(cfg, steps), step) ==> step.Cancel?
    ensures Done(After(cfg, steps))
    ensures forall j: nat ::
              Collected(Entry(j), After(cfg, steps).collected) == if j < After(cfg, steps).next then 1 else 0
    ensures
      var s := After(cfg, steps);
      !s.cancelled ==>
        && s.next == s.processed == |cfg.jobs|
        && s.summary == SumOfVerdicts(cfg, |cfg.jobs|)
        && s.reports == UpTo(|cfg.jobs| + 1)
  {
    var s := After(cfg, steps);
    if !Done(s) {
      var step := NoDeadlock(cfg, steps);
      assert false;
    }
    Reachable(cfg, steps);
    forall j: nat
      ensures Collected(Entry(j), s.collected) == if j < s.next then 1 else 0
    {
      ExactlyOnce(cfg, steps, j);
      NothingInFlight(cfg, Entry(j), s.workers);
    }
    if !s.cancelled {
      Conservation(cfg, Entries, steps);
      NothingInFlight(cfg, Entries, s.workers);
      HandedOnce(cfg, 0, s.next);
      CollectedAll(s.collected);
      FinishedColumn(cfg, steps, 0);
      FinishedColumn(cfg, steps, 1);
      FinishedColumn(cfg, steps, 2);
      FinishedColumn(cfg, steps, 3);
      FinishedColumn(cfg, steps, 4);
    }
  }

  /** The sum of one figure over the entries that are run; the others count nothing. */
  function SumOf(jobs: seq<Job>, figure: Summary -> int): int {
    if jobs == [] then 0
    else SumOf(jobs[..|jobs| - 1], figure) + if jobs[|jobs| - 1].runnable then figure(jobs[|jobs| - 1].verdict) else 0
  }

  lemma {:induction false} SumOfColumn(cfg: Config, i: nat, n: nat, figure: Summary -> int)
    requires n <= |cfg.jobs| && figure(ZERO) == 0 && forall s :: Part(i, s) == figure(s)
    ensures Part(i, SumOfVerdicts(cfg, n)) == SumOf(cfg.jobs[..n], figure)
  {
    if n > 0 {
      SumOfColumn(cfg, i, n - 1, figure);
      assert cfg.jobs[..n][..n - 1] == cfg.jobs[..n - 1];
    }
  }

  lemma WholeColumn(cfg: Config, i: nat, figure: Summary -> int)
    requires figure(ZERO) == 0 && forall s :: Part(i, s) == figure(s)
    ensures Part(i, SumOfVerdicts(cfg, |cfg.jobs|)) == SumOf(cfg.jobs, figure)
  {
    SumOfColumn(cfg, i, |cfg.jobs|, figure);
    assert cfg.jobs[..|cfg.jobs|] == cfg.jobs;
  }

  /** A schedule that nobody can continue and nobody cancelled. */
  ghost predicate RanThrough(cfg: Config, steps: seq<Step>) {
    && Legal(cfg, steps) && !After(cfg, steps).cancelled
    && forall step: Step :: CanStep(cfg, After(cfg, steps), step) ==> step.Cancel?
  }

  /** Then each figure of the summary is the sum over the entries that are neither nil nor manually
      disabled, of what running them returned. */
  lemma Totals(cfg: Config, steps: seq<Step>)
    requires RanThrough(cfg, steps)
    ensures
      var s := After(cfg, steps).summary;
      && s.tested == SumOf(cfg.jobs, (v: Summary) => v.tested)
      && s.succeeded == SumOf(cfg.jobs, (v: Summary) => v.succeeded)
      && s.failed == SumOf(cfg.jobs, (v: Summary) => v.failed)
      && s.disabled == SumOf(cfg.jobs, (v: Summary) => v.disabled)
      && s.enabled == SumOf(cfg.jobs, (v: Summary) => v.enabled)
  {
    Completion(cfg, steps);
    WholeColumn(cfg, 0, (v: Summary) => v.tested);
    WholeColumn(cfg, 1, (v: Summary) => v.succeeded);
    WholeColumn(cfg, 2, (v: Summary) => v.failed);
    WholeColumn(cfg, 3, (v: Summary) => v.disabled);
    WholeColumn(cfg, 4, (v: Summary) => v.enabled);
  }

  /** The lists differ at most in what running the entries that are not run would return. */
  ghost predicate SameRuns(jobs: seq<Job>, others: seq<Job>) {
    |jobs| == |others| && forall j :: 0 <= j < |jobs| ==>
      jobs[j].runnable == others[j].runnable && (jobs[j].runnable ==> jobs[j].verdict == others[j].verdict)
  }

  lemma {:induction false} SameSum(jobs: seq<Job>, others: seq<Job>, figure: Summary -> int)
    requires SameRuns(jobs, others)
    ensures SumOf(jobs, figure) == SumOf(others, figure)
  {
    if jobs != [] {
      SameSum(jobs[..|jobs| - 1], others[..|jobs| - 1], figure);
    }
  }

  /** Such lists finish alike, whatever the schedules and the concurrency. */
  lemma SkippedDoNotMatter(cfg: Config, steps: seq<Step>, other: Config, otherSteps: seq<Step>)
    requires RanThrough(cfg, steps) && RanThrough(other, otherSteps) && SameRuns(cfg.jobs, other.jobs)
    ensures After(cfg, steps).summary == After(other, otherSteps).summary
  {
    Totals(cfg, steps);
    Totals(other, otherSteps);
    SameSum(cfg.jobs, other.jobs, (v: Summary) => v.tested);
    SameSum(cfg.jobs, other.jobs, (v: Summary) => v.succeeded);
    SameSum(cfg.jobs, other.jobs, (v: Summary) => v.failed);
    SameSum(cfg.jobs, other.jobs, (v: Summary) => v.disabled);
    SameSum(cfg.jobs, other.jobs, (v: Summary) => v.enabled);
  }

  function RunnableUpTo(jobs: seq<Job>, n: nat): set<nat>
    requires n <= |jobs|
  {
    set j: nat | j < n && jobs[j].runnable
  }

  lemma {:induction false} CountRunnable(jobs: seq<Job>, n: nat, figure: Summary -> int)
    requires n <= |jobs| && forall j :: 0 <= j < |jobs| && jobs[j].runnable ==> figure(jobs[j].verdict) == 1
    ensures SumOf(jobs[..n], figure) == |RunnableUpTo(jobs, n)|
  {
    if n > 0 {
      CountRunnable(jobs, n - 1, figure);
      assert jobs[..n][..n - 1] == jobs[..n - 1];
      assert RunnableUpTo(jobs, n) == RunnableUpTo(jobs, n - 1) + if jobs[n - 1].runnable then {n - 1} else {};
    }
  }

  /** When every check that ran was tested once, as many were tested as there are entries to run. */
  lemma TestedOnceEach(cfg: Config, steps: seq<Step>)
    requires RanThrough(cfg, steps)
    requires forall j :: 0 <= j < |cfg.jobs| && cfg.jobs[j].runnable ==> cfg.jobs[j].verdict.tested == 1
    ensures After(cfg, steps).summary.tested == |set j: nat | j < |cfg.jobs| && cfg.jobs[j].runnable|
  {
    Totals(cfg, steps);
    CountRunnable(cfg.jobs, |cfg.jobs|, (v: Summary) => v.tested);
    assert cfg.jobs[..|cfg.jobs|] == cfg.jobs;
  }

  /** There are as many workers as asked for, but no more than entries. */
  lemma WorkersExact(cfg: Config, steps: seq<Step>)
    requires Legal(cfg, steps)
    ensures |After(cfg, steps).workers| == Min(NormalizeConcurrency(cfg.concurrency), |cfg.jobs|)
  {
    Reachable(cfg, steps);
  }

  /** Once cancelled, no progress is reported any more. */
  lemma {:induction false} NoReportAfterCancel(cfg: Config, steps: seq<Step>, k: nat)
    requires Legal(cfg, steps) && k <= |steps| && Legal(cfg, steps[..k]) && After(cfg, steps[..k]).cancelled
    ensures After(cfg, steps).cancelled && After(cfg, steps).reports == After(cfg, steps[..k]).reports
    decreases |steps|
  {
    if k == |steps| {
      assert steps[..k] == steps;
    } else {
      var p := steps[..|steps| - 1];
      assert p[..k] == steps[..k];
      NoReportAfterCancel(cfg, p, k);
    }
  }
}
