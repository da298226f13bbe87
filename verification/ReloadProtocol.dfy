/** The hot-reload protocol between the main lcore and the workers, as atomic steps: the barrier flag,
    the pause counter, the two rule-table pointers and the flow-table pointer
    (include/dpdk/spi/spi_pipeline.cpp). */
module ReloadProtocol {
  import opened Machine

  /** Where a worker is in its loop. A burst remembers which generation of each table it has loaded. */
  datatype Worker =
    | LoopTop
    | InBurst(spi: Option<nat>, dpi: Option<nat>, flow: Option<nat>)
    | AfterBurst
    | Counting   // saw the barrier, has not incremented the counter yet
    | Spinning   // counted, waiting for the barrier to drop
    | Leaving    // left the wait, still counted
    | Exited
  {
    predicate Parked() { Spinning? || Leaving? }
  }

  /** Where the main lcore is in `MaybeReload`; `c` is the configuration being published. */
  datatype Main =
    | Idle
    | Compiling(c: nat)  // loading and compiling; workers are not disturbed yet
    | Waiting(c: nat)
    | Checked(c: nat)
    | Swapping(c: nat)
    | SpiDone(c: nat)
    | DpiDone(c: nat)
    | Lowering(c: nat)
    | Cancelling
  {
    /** From the moment the wait has succeeded until the barrier drops. */
    predicate Publishing() { Checked? || Swapping? || SpiDone? || DpiDone? || Lowering? }
    /** No barrier is up. */
    predicate Apart() { Idle? || Compiling? }
  }

  datatype System = System(
    main: Main,
    workers: seq<Worker>,
    barrier: bool,
    paused: int,
    spi: nat, dpi: nat, flow: nat,
    mainQuit: bool, workerQuit: bool)

  // ---------------------------------------------------------------- steps

  /** What worker code in position `w` can do next. */
  ghost predicate WorkerMoves(s: System, w: Worker, w': Worker) {
    match w
    case LoopTop => w' == if s.workerQuit then Exited else InBurst(None, None, None)
    case InBurst(_, _, _) =>
      || w' == w.(spi := Some(s.spi))
      || w' == w.(dpi := Some(s.dpi))
      || w' == w.(flow := Some(s.flow))
      || w' == AfterBurst
    case AfterBurst => w' == if s.barrier && !s.workerQuit then Counting else LoopTop
    case Counting => w' == Spinning
    case Spinning => w' == if s.barrier && !s.workerQuit then Spinning else Leaving
    case Leaving => w' == LoopTop
    case Exited => false
  }

  /** `fetch_add` on entering the wait, `fetch_sub` on leaving it. */
  function CounterChange(w: Worker): int {
    if w.Counting? then 1 else if w.Leaving? then -1 else 0
  }

  ghost predicate WorkerStep(s: System, s': System, i: nat) {
    && i < |s.workers|
    && |s'.workers| == |s.workers|
    && WorkerMoves(s, s.workers[i], s'.workers[i])
    && s' == s.(workers := s.workers[i := s'.workers[i]], paused := s.paused + CounterChange(s.workers[i]))
  }

  ghost predicate Raise(s: System, s': System) {
    s.main.Compiling? && !s.mainQuit && s' == s.(main := Waiting(s.main.c), barrier := true)
  }

  /** Loading, compiling and link resolution can fail, and then nothing else happens. The pause wait is
      skipped with fewer than two workers; otherwise it ends when the counter reaches the worker count, on a
      quit request, or on a timeout (any time). */
  ghost predicate MainStep(s: System, s': System) {
    match s.main
    case Idle => !s.mainQuit && s'.main.Compiling? && s' == s.(main := s'.main)
    case Compiling(c) => Raise(s, s') || s' == s.(main := Idle)
    case Waiting(c) =>
      || (s' == s.(main := Checked(c)) && (|s.workers| <= 1 || s.paused >= |s.workers|))
      || s' == s.(main := Cancelling)
    case Checked(c) =>
      || (s' == s.(main := Swapping(c)) && !s.mainQuit)
      || s' == s.(main := Cancelling)
    case Swapping(c) => s' == s.(main := SpiDone(c), spi := c)
    case SpiDone(c) => s' == s.(main := DpiDone(c), dpi := c)
    case DpiDone(c) => s' == s.(main := Lowering(c)) || s' == s.(main := Lowering(c), flow := c)
    case Lowering(_) => s' == s.(main := Idle, barrier := false)
    case Cancelling => s' == s.(main := Idle, barrier := false)
  }

  ghost predicate QuitStep(s: System, s': System) {
    s' == s.(mainQuit := true) || s' == s.(workerQuit := true)
  }

  ghost predicate Step(s: System, s': System) {
    MainStep(s, s') || QuitStep(s, s') || exists i :: WorkerStep(s, s', i)
  }

  // ---------------------------------------------------------------- counting

  function ParkedCount(ws: seq<Worker>): nat {
    if ws == [] then 0 else (if ws[0].Parked() then 1 else 0) + ParkedCount(ws[1..])
  }

  lemma {:induction false} ParkedAfterUpdate(ws: seq<Worker>, i: nat, w: Worker)
    requires i < |ws|
    ensures ParkedCount(ws[i := w]) ==
            ParkedCount(ws) - (if ws[i].Parked() then 1 else 0) + (if w.Parked() then 1 else 0)
  {
    if i > 0 {
      assert ws[i := w][1..] == ws[1..][i - 1 := w];
      ParkedAfterUpdate(ws[1..], i - 1, w);
    } else {
      assert ws[0 := w][1..] == ws[1..];
    }
  }

  lemma {:induction false} ParkedBound(ws: seq<Worker>)
    ensures ParkedCount(ws) <= |ws|
    ensures ParkedCount(ws) == |ws| <==> forall i :: 0 <= i < |ws| ==> ws[i].Parked()
    ensures ParkedCount(ws) == 0 <==> forall i :: 0 <= i < |ws| ==> !ws[i].Parked()
  {
    if ws != [] {
      ParkedBound(ws[1..]);
      assert forall i :: 1 <= i < |ws| ==> ws[i] == ws[1..][i - 1];
      assert forall i :: 0 <= i < |ws[1..]| ==> ws[1..][i] == ws[i + 1];
    }
  }

  // ---------------------------------------------------------------- safety

  /** No worker is between leaving the wait and decrementing the counter. */
  ghost predicate Settled(s: System) {
    forall i :: 0 <= i < |s.workers| ==> !s.workers[i].Leaving?
  }

  ghost predicate Quiescent(s: System) {
    forall i :: 0 <= i < |s.workers| ==> !s.workers[i].InBurst?
  }

  /** Safe positions while tables are being published. */
  ghost predicate OutOfTheWay(s: System, w: Worker) {
    w.Spinning? || (s.workerQuit && (w.Leaving? || w.LoopTop? || w.Exited?))
  }

  /** What a burst has loaded is still what is active. */
  ghost predicate Current(s: System, w: Worker) {
    w.InBurst? ==>
      && (w.spi.Some? ==> w.spi.value == s.spi)
      && (w.dpi.Some? ==> w.dpi.value == s.dpi)
      && (w.flow.Some? ==> w.flow.value == s.flow)
  }

  ghost predicate Invariant(s: System) {
    && s.paused == ParkedCount(s.workers)
    && (s.barrier <==> !s.main.Apart())
    && (s.barrier ==> forall i :: 0 <= i < |s.workers| && s.workers[i].Leaving? ==> s.workerQuit)
    && (s.main.Publishing() ==> forall i :: 0 <= i < |s.workers| ==> OutOfTheWay(s, s.workers[i]))
    && (if s.main.SpiDone? then s.spi == s.main.c else s.spi == s.dpi)
    && (forall i :: 0 <= i < |s.workers| ==> Current(s, s.workers[i]))
  }

  lemma WorkerStepKeeps(s: System, s': System, i: nat)
    requires Invariant(s) && WorkerStep(s, s', i)
    ensures Invariant(s')
  {
    ParkedAfterUpdate(s.workers, i, s'.workers[i]);
  }

  lemma MainStepKeeps(s: System, s': System)
    requires Invariant(s) && MainStep(s, s') && |s.workers| >= 2
    requires Raise(s, s') ==> Settled(s)
    ensures Invariant(s')
  {
    hide ParkedCount;
    match s.main {
      case Waiting(c) => ParkedBound(s.workers);
      case _ =>
    }
  }

  /** Every step keeps the invariant, provided the barrier is only raised when no worker is still
      on its way out of the previous wait. */
  lemma StepKeeps(s: System, s': System)
    requires Invariant(s) && Step(s, s') && |s.workers| >= 2
    requires Raise(s, s') ==> Settled(s)
    ensures Invariant(s') && |s'.workers| == |s.workers|
  {
    if MainStep(s, s') {
      MainStepKeeps(s, s');
    } else if i :| WorkerStep(s, s', i) {
      WorkerStepKeeps(s, s', i);
    }
  }

  // ---------------------------------------------------------------- runs

  ghost predicate IsRun(run: seq<System>) {
    |run| > 0 && forall i :: 0 <= i < |run| - 1 ==> Step(run[i], run[i + 1])
  }

  /** The hypothesis on a run: the barrier is only raised when no worker is on its way out. */
  ghost predicate RaisedWhenSettled(run: seq<System>) {
    forall i :: 0 <= i < |run| - 1 && Raise(run[i], run[i + 1]) ==> Settled(run[i])
  }

  /** A counter that is back to zero is enough. */
  lemma DrainedIsSettled(s: System)
    requires Invariant(s) && s.paused == 0
    ensures Settled(s)
  {
    ParkedBound(s.workers);
  }

  ghost predicate Initial(s: System) {
    && s.main.Idle? && !s.barrier && s.paused == 0 && s.spi == s.dpi
    && forall i :: 0 <= i < |s.workers| ==> s.workers[i].LoopTop?
  }

  lemma InitialInvariant(s: System)
    requires Initial(s)
    ensures Invariant(s)
  {
    ParkedBound(s.workers);
  }

  lemma {:induction false} RunKeeps(run: seq<System>, n: nat)
    requires IsRun(run) && RaisedWhenSettled(run) && Invariant(run[0]) && |run[0].workers| >= 2 && n < |run|
    ensures Invariant(run[n]) && |run[n].workers| == |run[0].workers|
  {
    if n > 0 {
      RunKeeps(run, n - 1);
      assert Step(run[n - 1], run[n - 1 + 1]);
      StepKeeps(run[n - 1], run[n]);
    }
  }

  /** Reload quiescence and all-or-nothing publication, over every run of any number (two or more) of
      workers and any number of reloads, cancellations and quit requests: no worker is in a burst
      while the main lcore publishes; whenever a worker is in a burst the SPI and DPI tables come
      from one configuration and everything it has loaded is still active; and outside
      `MaybeReload` the barrier is down. */
  lemma ReloadIsSafe(run: seq<System>, n: nat)
    requires IsRun(run) && RaisedWhenSettled(run) && Initial(run[0]) && |run[0].workers| >= 2 && n < |run|
    ensures var s := run[n];
            && (s.main.Publishing() ==> Quiescent(s))
            && (forall i :: 0 <= i < |s.workers| && s.workers[i].InBurst? ==>
                s.spi == s.dpi && Current(s, s.workers[i]))
            && (s.main.Apart() <==> !s.barrier)
  {
    InitialInvariant(run[0]);
    RunKeeps(run, n);
  }

  // ---------------------------------------------------------------- all or nothing

  ghost predicate SameTables(s: System, t: System) {
    s.spi == t.spi && s.dpi == t.dpi && s.flow == t.flow
  }

  /** The reload under way since `run[a]` has passed all its checks for configuration `c`. */
  ghost predicate Committed(run: seq<System>, a: nat, b: nat, c: nat) {
    exists m :: a < m < b && m < |run| && run[m].main == Swapping(c)
  }

  ghost predicate Published(run: seq<System>, a: nat, b: nat, c: nat)
    requires a < |run| && b < |run|
  {
    && Committed(run, a, b, c) && run[b].spi == run[b].dpi == c
    && (run[b].flow == run[a].flow || run[b].flow == c)
  }

  /** What the tables are while a reload that began at `s` is under way. */
  ghost predicate UnderWay(s: System, t: System) {
    match t.main
    case SpiDone(c) => t.spi == c && t.dpi == s.dpi && t.flow == s.flow
    case DpiDone(c) => t.spi == t.dpi == c && t.flow == s.flow
    case Lowering(c) => t.spi == t.dpi == c && (t.flow == s.flow || t.flow == c)
    case _ => SameTables(s, t)
  }

  /** The configuration of a reload that has begun to publish. */
  function Publishes(m: Main): Option<nat> {
    match m
    case SpiDone(c) => Some(c)
    case DpiDone(c) => Some(c)
    case Lowering(c) => Some(c)
    case _ => None
  }

  /** Only the main lcore changes tables. */
  lemma MainOrTables(s: System, s': System)
    requires Step(s, s')
    ensures MainStep(s, s') || (s'.main == s.main && SameTables(s, s'))
  {}

  lemma StepUnderWay(s0: System, s: System, s': System)
    requires UnderWay(s0, s) && Step(s, s')
    ensures !s'.main.Idle? ==> UnderWay(s0, s')
    ensures s'.main.Idle? && !s.main.Idle? ==>
              if s.main.Lowering? then s'.spi == s'.dpi == s.main.c && (s'.flow == s0.flow || s'.flow == s.main.c)
              else SameTables(s0, s')
    ensures Publishes(s'.main).Some? ==>
            s.main == Swapping(Publishes(s'.main).value) || Publishes(s.main) == Publishes(s'.main)
  {
    MainOrTables(s, s');
    hide Step;
  }

  lemma {:induction false} ReloadUnderWay(run: seq<System>, a: nat, b: nat)
    requires IsRun(run) && a < b < |run| && run[a].main.Idle?
    requires forall k :: a < k <= b ==> !run[k].main.Idle?
    ensures UnderWay(run[a], run[b])
    ensures Publishes(run[b].main).Some? ==> Committed(run, a, b, Publishes(run[b].main).value)
    decreases b
  {
    hide UnderWay, Publishes, Step;
    assert Step(run[b - 1], run[b - 1 + 1]);
    if b - 1 > a {
      ReloadUnderWay(run, a, b - 1);
    } else {
      IdleUnderWay(run[a]);
    }
    StepUnderWay(run[a], run[b - 1], run[b]);
    if Publishes(run[b].main).Some? {
      var c := Publishes(run[b].main).value;
      if run[b - 1].main == Swapping(c) {
        assert Committed(run, a, b, c);
      } else {
        var m :| a < m < b - 1 && m < |run| && run[m].main == Swapping(c);
        assert Committed(run, a, b, c);
      }
    }
  }

  lemma IdleUnderWay(s: System)
    requires s.main.Idle?
    ensures UnderWay(s, s) && Publishes(s.main).None?
  {}

  /** Every reload is all or nothing. Between two consecutive moments at which the main lcore is idle,
      whatever the workers do and however the reload ends, either no table has changed, or SPI and DPI tables
      are both of one configuration whose reload passed every check, and the flow table is the old one or was
      migrated for that configuration. */
  lemma ReloadIsAllOrNothing(run: seq<System>, a: nat, b: nat)
    requires IsRun(run) && a < b < |run| && run[a].main.Idle? && run[b].main.Idle?
    requires forall k :: a < k < b ==> !run[k].main.Idle?
    ensures SameTables(run[a], run[b]) || exists c :: Published(run, a, b, c)
    ensures (forall c :: !Committed(run, a, b, c)) ==> SameTables(run[a], run[b])
  {
    hide UnderWay, Step;
    assert Step(run[b - 1], run[b - 1 + 1]);
    if b - 1 > a {
      ReloadUnderWay(run, a, b - 1);
      StepUnderWay(run[a], run[b - 1], run[b]);
      if run[b - 1].main.Lowering? {
        var c := run[b - 1].main.c;
        var m :| a < m < b - 1 && m < |run| && run[m].main == Swapping(c);
        assert Published(run, a, b, c);
      }
    } else {
      IdleToIdle(run[a], run[b]);
    }
  }

  lemma IdleToIdle(s: System, s': System)
    requires Step(s, s') && s.main.Idle? && s'.main.Idle?
    ensures SameTables(s, s')
  {
    MainOrTables(s, s');
    hide Step;
  }

  // ---------------------------------------------------------------- why the hypotheses are needed

  ghost predicate Reaches(s: System, t: System) {
    exists run :: IsRun(run) && run[0] == s && run[|run| - 1] == t
  }

  lemma ReachesSelf(s: System)
    ensures Reaches(s, s)
  {
    assert IsRun([s]) && [s][0] == s;
  }

  lemma ReachesStep(s: System, t: System, u: System)
    requires Step(s, t) && Reaches(t, u)
    ensures Reaches(s, u)
  {
    var run :| IsRun(run) && run[0] == t && run[|run| - 1] == u;
    var longer := [s] + run;
    forall i | 0 <= i < |longer| - 1 ensures Step(longer[i], longer[i + 1]) {
      assert i > 0 ==> Step(run[i - 1], run[i]);
    }
    assert longer[|longer| - 1] == u;
  }

  lemma {:induction false} ReachesTrans(s: System, t: System, u: System)
    requires Reaches(s, t) && Reaches(t, u)
    ensures Reaches(s, u)
  {
    var run :| IsRun(run) && run[0] == s && run[|run| - 1] == t;
    PrependRun(run, u);
  }

  lemma {:induction false} PrependRun(run: seq<System>, u: System)
    requires IsRun(run) && Reaches(run[|run| - 1], u)
    ensures Reaches(run[0], u)
    decreases |run|
  {
    if |run| > 1 {
      var rest := run[1..];
      forall i | 0 <= i < |rest| - 1 ensures Step(rest[i], rest[i + 1]) {
        assert Step(run[i + 1], run[i + 1 + 1]);
      }
      PrependRun(rest, u);
      ReachesStep(run[0], run[1], u);
    }
  }

  /** The system after worker `i` moves to `w`. */
  function Moved(s: System, i: nat, w: Worker): System
    requires i < |s.workers|
  {
    s.(workers := s.workers[i := w], paused := s.paused + CounterChange(s.workers[i]))
  }

  lemma MovedIsStep(s: System, i: nat, w: Worker)
    requires i < |s.workers| && WorkerMoves(s, s.workers[i], w)
    ensures Step(s, Moved(s, i, w))
  {
    assert WorkerStep(s, Moved(s, i, w), i);
  }

  function StepsToPark(w: Worker): nat {
    match w
    case LoopTop => 4
    case InBurst(_, _, _) => 3
    case AfterBurst => 2
    case Counting => 1
    case _ => 0
  }

  function TowardsWait(w: Worker): Worker {
    match w
    case LoopTop => InBurst(None, None, None)
    case InBurst(_, _, _) => AfterBurst
    case AfterBurst => Counting
    case _ => Spinning
  }

  /** While the barrier is up any running worker can be scheduled into the wait. */
  lemma {:induction false} ParkOne(s: System, i: nat) returns (t: System)
    requires i < |s.workers| && !s.workers[i].Exited? && s.barrier && !s.workerQuit
    requires s.paused == ParkedCount(s.workers)
    ensures Reaches(s, t) && t.paused == ParkedCount(t.workers)
    ensures |t.workers| == |s.workers| && t == s.(workers := t.workers, paused := t.paused)
    ensures t.workers == s.workers[i := if s.workers[i].Leaving? then Leaving else Spinning]
    decreases StepsToPark(s.workers[i])
  {
    var w := s.workers[i];
    if w.Parked() {
      t := s;
      ReachesSelf(s);
    } else {
      var s1 := Moved(s, i, TowardsWait(w));
      MovedIsStep(s, i, TowardsWait(w));
      ParkedAfterUpdate(s.workers, i, TowardsWait(w));
      t := ParkOne(s1, i);
      ReachesStep(s, s1, t);
    }
  }

  lemma {:induction false} ParkAll(s: System, n: nat) returns (t: System)
    requires n <= |s.workers| && s.barrier && !s.workerQuit && s.paused == ParkedCount(s.workers)
    requires forall i :: 0 <= i < |s.workers| ==> !s.workers[i].Exited?
    ensures Reaches(s, t) && t.paused == ParkedCount(t.workers)
    ensures |t.workers| == |s.workers| && t == s.(workers := t.workers, paused := t.paused)
    ensures forall i :: 0 <= i < n ==> t.workers[i].Parked()
    ensures forall i :: 0 <= i < |s.workers| ==>
                          if i < n then t.workers[i] == (if s.workers[i].Leaving? then Leaving else Spinning)
                          else t.workers[i] == s.workers[i]
    decreases n
  {
    if n == 0 {
      t := s;
      ReachesSelf(s);
    } else {
      var u := ParkAll(s, n - 1);
      t := ParkOne(u, n - 1);
      ReachesTrans(s, u, t);
    }
  }

  /** Once the main lcore is about to publish while worker `k` is in a burst, that burst can
      read the old DPI table and the new SPI table. */
  lemma TornBurst(s: System, k: nat) returns (t: System)
    requires s.main.Swapping? && k < |s.workers| && s.workers[k].InBurst?
    ensures Reaches(s, t) && t.main.SpiDone?
    ensures |t.workers| == |s.workers| && t.workers[k].InBurst?
    ensures t.workers[k].spi == Some(s.main.c) && t.workers[k].dpi == Some(s.dpi)
  {
    var w := s.workers[k].(dpi := Some(s.dpi));
    var s1 := Moved(s, k, w);
    MovedIsStep(s, k, w);
    var s2 := s1.(main := SpiDone(s.main.c), spi := s.main.c);
    assert MainStep(s1, s2);
    var w' := w.(spi := Some(s.main.c));
    t := Moved(s2, k, w');
    MovedIsStep(s2, k, w');
    ReachesSelf(t);
    ReachesStep(s2, t, t);
    ReachesStep(s1, s2, t);
    ReachesStep(s, s1, t);
  }

  /** The main lcore starts a reload and raises the barrier. */
  lemma StartReload(s: System, c: nat) returns (t: System)
    requires s.main.Idle? && !s.mainQuit
    ensures Reaches(s, t) && t == s.(main := Waiting(c), barrier := true)
  {
    var s1 := s.(main := Compiling(c));
    t := s1.(main := Waiting(c), barrier := true);
    assert MainStep(s, s1) && MainStep(s1, t);
    ReachesSelf(t);
    ReachesStep(s1, t, t);
    ReachesStep(s, s1, t);
  }

  /** A reload that succeeds: from every state in which none is under way and every worker is still running, whatever
      the workers are doing, a schedule parks them all, publishes the three tables of any configuration, and ends with
      the barrier down. */
  lemma ReloadCanComplete(s: System, c: nat) returns (t: System)
    requires s.main.Idle? && !s.mainQuit && !s.workerQuit && s.paused == ParkedCount(s.workers)
    requires forall i :: 0 <= i < |s.workers| ==> !s.workers[i].Exited?
    ensures Reaches(s, t) && t.main.Idle? && !t.barrier && t.spi == c && t.dpi == c && t.flow == c
    ensures |t.workers| == |s.workers| && forall i :: 0 <= i < |t.workers| ==> t.workers[i].Parked()
  {
    var s1 := StartReload(s, c);
    var s2 := ParkAll(s1, |s.workers|);
    ParkedBound(s2.workers);
    var s3 := s2.(main := Checked(c));
    var s4 := s3.(main := Swapping(c));
    var s5 := s4.(main := SpiDone(c), spi := c);
    var s6 := s5.(main := DpiDone(c), dpi := c);
    var s7 := s6.(main := Lowering(c), flow := c);
    t := s7.(main := Idle, barrier := false);
    assert MainStep(s2, s3) && MainStep(s3, s4) && MainStep(s4, s5);
    assert MainStep(s5, s6) && MainStep(s6, s7) && MainStep(s7, t);
    hide MainStep;
    ReachesSelf(t);
    ReachesStep(s7, t, t);
    ReachesStep(s6, s7, t);
    ReachesStep(s5, s6, t);
    ReachesStep(s4, s5, t);
    ReachesStep(s3, s4, t);
    ReachesStep(s2, s3, t);
    ReachesTrans(s1, s2, t);
    ReachesTrans(s, s1, t);
  }

  /** And each worker goes on from there: it can leave the wait and load all three tables of the new configuration. */
  lemma WorkerResumes(s: System, k: nat, c: nat) returns (t: System)
    requires s.main.Idle? && !s.barrier && !s.workerQuit && s.spi == c && s.dpi == c && s.flow == c
    requires k < |s.workers| && s.workers[k].Parked()
    ensures Reaches(s, t) && |t.workers| == |s.workers| && t.workers[k] == InBurst(Some(c), Some(c), Some(c))
  {
    var s1 := if s.workers[k].Spinning? then Moved(s, k, Leaving) else s;
    if s.workers[k].Spinning? {
      MovedIsStep(s, k, Leaving);
    }
    var s2 := Moved(s1, k, LoopTop);
    MovedIsStep(s1, k, LoopTop);
    var s3 := Moved(s2, k, InBurst(None, None, None));
    MovedIsStep(s2, k, InBurst(None, None, None));
    var s4 := Moved(s3, k, InBurst(Some(c), None, None));
    MovedIsStep(s3, k, InBurst(Some(c), None, None));
    var s5 := Moved(s4, k, InBurst(Some(c), Some(c), None));
    MovedIsStep(s4, k, InBurst(Some(c), Some(c), None));
    t := Moved(s5, k, InBurst(Some(c), Some(c), Some(c)));
    MovedIsStep(s5, k, InBurst(Some(c), Some(c), Some(c)));
    hide Step;
    ReachesSelf(t);
    ReachesStep(s5, t, t);
    ReachesStep(s4, s5, t);
    ReachesStep(s3, s4, t);
    ReachesStep(s2, s3, t);
    ReachesStep(s1, s2, t);
    if s.workers[k].Spinning? {
      ReachesStep(s, s1, t);
    }
  }

  /** A worker that has left the wait but not yet decremented the counter, with the next reload about to begin. */
  ghost predicate Unsettled(s: System, k: nat) {
    && s.main.Idle? && !s.mainQuit && !s.workerQuit && s.paused == ParkedCount(s.workers)
    && (forall i :: 0 <= i < |s.workers| ==> !s.workers[i].Exited?)
    && k < |s.workers| && s.workers[k].Leaving?
  }

  /** Such states are reachable from every initial state: one reload that times out is enough. */
  lemma UnsettledIsReachable(s: System, k: nat, c: nat) returns (t: System)
    requires Initial(s) && !s.mainQuit && !s.workerQuit && k < |s.workers|
    ensures Reaches(s, t) && Unsettled(t, k) && SameTables(s, t) && |t.workers| == |s.workers|
  {
    ParkedBound(s.workers);
    var s1 := StartReload(s, c);
    var s2 := ParkAll(s1, |s.workers|);
    var s3 := s2.(main := Cancelling);
    var s4 := s3.(main := Idle, barrier := false);
    assert MainStep(s2, s3) && MainStep(s3, s4);
    t := Moved(s4, k, Leaving);
    MovedIsStep(s4, k, Leaving);
    ParkedAfterUpdate(s4.workers, k, Leaving);
    ReachesSelf(t);
    ReachesStep(s4, t, t);
    ReachesStep(s3, s4, t);
    ReachesStep(s2, s3, t);
    ReachesTrans(s1, s2, t);
    ReachesTrans(s, s1, t);
  }

  /** The counter hypothesis is needed, in every state that violates it: if a reload starts while
      some worker has left the previous wait but not yet decremented the counter, there is a
      schedule in which the main lcore takes that worker for paused and publishes in the middle
      of its burst, which then sees SPI rules of the new configuration with DPI rules of the old. */
  lemma UnsettledReloadTearsABurst(s: System, k: nat, c: nat) returns (t: System)
    requires Unsettled(s, k) && c != s.dpi
    ensures Reaches(s, t) && Torn(t, k, c, s.dpi)
  {
    var s1 := StartReload(s, c);
    var s2 := ParkAll(s1, |s.workers|);
    ParkedBound(s2.workers);
    var s3 := s2.(main := Checked(c));
    assert MainStep(s2, s3);
    var s4 := s3.(main := Swapping(c));
    assert MainStep(s3, s4);
    var s5 := Moved(s4, k, LoopTop);
    MovedIsStep(s4, k, LoopTop);
    var burst := InBurst(None, None, None);
    var s6 := Moved(s5, k, burst);
    MovedIsStep(s5, k, burst);
    t := TornBurst(s6, k);
    ReachesStep(s5, s6, t);
    ReachesStep(s4, s5, t);
    ReachesStep(s3, s4, t);
    ReachesStep(s2, s3, t);
    ReachesTrans(s1, s2, t);
    ReachesTrans(s, s1, t);
  }

  /** Worker `k` is in a burst that has loaded the SPI table of one configuration and the DPI table of another. */
  ghost predicate Torn(s: System, k: nat, spi: nat, dpi: nat) {
    spi != dpi && k < |s.workers| && s.workers[k].InBurst? && s.workers[k].spi == Some(spi) &&
      s.workers[k].dpi == Some(dpi)
  }

  /** So, whatever the number of workers, two reloads from the very beginning can tear a burst of any worker. */
  lemma TornBurstIsReachable(s: System, k: nat, c: nat) returns (t: System)
    requires Initial(s) && !s.mainQuit && !s.workerQuit && k < |s.workers| && c != s.dpi
    ensures Reaches(s, t) && Torn(t, k, c, s.dpi)
  {
    var u := UnsettledIsReachable(s, k, c);
    t := UnsettledReloadTearsABurst(u, k, c);
    ReachesTrans(s, u, t);
  }

  /** With a single worker the wait is skipped, so already the first reload can publish in the middle of its burst. */
  lemma SingleWorkerReloadTearsABurst(s: System, c: nat) returns (t: System)
    requires Initial(s) && !s.mainQuit && !s.workerQuit && |s.workers| == 1 && c != s.dpi
    ensures Reaches(s, t) && Torn(t, 0, c, s.dpi)
  {
    var burst := InBurst(None, None, None);
    var s0 := Moved(s, 0, burst);
    MovedIsStep(s, 0, burst);
    var s1 := StartReload(s0, c);
    var s2 := s1.(main := Checked(c));
    var s3 := s2.(main := Swapping(c));
    assert MainStep(s1, s2) && MainStep(s2, s3);
    t := TornBurst(s3, 0);
    ReachesStep(s2, s3, t);
    ReachesStep(s1, s2, t);
    ReachesTrans(s0, s1, t);
    ReachesStep(s, s0, t);
  }
}
