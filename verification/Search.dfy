/** The parallel ESN sweep as a step system over arbitrary interleavings (bruteForceEsn, src/siemens/bruteforce.cpp). */
module Search {
  import opened Wrappers

  const ESN_COUNT: nat := 0x1_0000_0000
  const PROGRESS_INTERVAL: nat := 0x40000

  /** `matches` examines one batch and names its first match; `progress` tells whether a callback was given. */
  datatype Config = Config(threads: nat, batch: nat, progress: bool, matches: nat -> Option<nat>)

  /** A worker is always about to execute one atomic step; the last four are its ways to have returned. */
  datatype Pc =
    | LoopHead
    | LoadFound
    | Report
    | Match
    | StoreResult(value: nat)
    | StoreFound(value: nat)
    | Exhausted
    | Stopped
    | Matched(value: nat)
    | Thrown
  {
    predicate Done() {
      Exhausted? || Stopped? || Matched? || Thrown?
    }
  }

  /** `evaluated` and `late` are history: batches evaluated in all, and those evaluated after `found` was set. */
  datatype Worker = Worker(pc: Pc, first: nat, ticks: nat, evaluated: nat, late: nat)

  datatype State = State(found: bool, result: nat, reportedPercent: nat, log: seq<nat>, thrown: bool,
    workers: seq<Worker>)

  /** threadCount = 0 asks for every core. */
  function ThreadCount(requested: nat, hardware: nat): (threads: nat)
    ensures threads >= 1 && (requested > 0 ==> threads == requested)
    ensures requested == 0 && hardware > 0 ==> threads == hardware
  {
    if requested == 0 then (if hardware > 1 then hardware else 1) else requested
  }

  predicate ValidConfig(c: Config) {
    c.threads >= 1 && c.batch >= 1
  }

  function CheckInterval(c: Config): nat
    requires ValidConfig(c)
  {
    PROGRESS_INTERVAL / c.batch
  }

  function Init(c: Config): State {
    State(false, 0, 0, if c.progress then [0] else [], false,
          seq(c.threads, t requires 0 <= t => Worker(LoopHead, t * c.batch, 0, 0, 0)))
  }

  /** One step of worker `t`; `throws` says whether the progress callback throws, should this step call it. */
  function Step(c: Config, s: State, t: nat, throws: bool): (s': State)
    requires ValidConfig(c) && t < |s.workers| && !s.workers[t].pc.Done()
  {
    var w := s.workers[t];
    match w.pc
    case LoopHead =>
      if w.first >= ESN_COUNT then
        s.(workers := s.workers[t := w.(pc := Exhausted)])
      else if w.ticks + 1 >= CheckInterval(c) then
        s.(workers := s.workers[t := w.(pc := LoadFound, ticks := 0)])
      else
        s.(workers := s.workers[t := w.(pc := Match, ticks := w.ticks + 1)])
    case LoadFound =>
      if s.found then s.(workers := s.workers[t := w.(pc := Stopped)])
      else s.(workers := s.workers[t := w.(pc := if c.progress && t == 0 then Report else Match)])
    case Report =>
      var percent := w.first * 100 / ESN_COUNT;
      if percent <= s.reportedPercent then
        s.(workers := s.workers[t := w.(pc := Match)])
      else if throws then
        // The callback's exception leaves the worker; the catch block sets `found` so that the others stop.
        s.(reportedPercent := percent, thrown := true, found := true, workers := s.workers[t := w.(pc := Thrown)])
      else
        s.(reportedPercent := percent, log := s.log + [percent], workers := s.workers[t := w.(pc := Match)])
    case Match =>
      var late := if s.found then w.late + 1 else w.late;
      var w' := w.(evaluated := w.evaluated + 1, late := late);
      match c.matches(w.first) {
        case Some(value) => s.(workers := s.workers[t := w'.(pc := StoreResult(value))])
        case None => s.(workers := s.workers[t := w'.(pc := LoopHead, first := w.first + c.threads * c.batch)])
      }
    case StoreResult(value) =>
      s.(result := value, workers := s.workers[t := w.(pc := StoreFound(value))])
    case StoreFound(value) =>
      s.(found := true, workers := s.workers[t := w.(pc := Matched(value))])
    case _ => s
  }

  ghost predicate Next(c: Config, s: State, s': State)
    requires ValidConfig(c)
  {
    exists t: nat, throws :: t < |s.workers| && !s.workers[t].pc.Done() && s' == Step(c, s, t, throws)
  }

  /** Any interleaving of worker steps from the start. */
  ghost predicate Run(c: Config, run: seq<State>)
    requires ValidConfig(c)
  {
    && |run| >= 1 && run[0] == Init(c)
    && forall i :: 0 < i < |run| ==> Next(c, run[i - 1], run[i])
  }

  predicate AllDone(s: State) {
    forall t :: 0 <= t < |s.workers| ==> s.workers[t].pc.Done()
  }

  /** What the caller sees after the join. */
  datatype Verdict = Rethrown | NotFound | Found(value: nat)

  function Finish(s: State): Verdict {
    if s.thrown then Rethrown else if s.found then Found(s.result) else NotFound
  }

  function FinalLog(c: Config, s: State): seq<nat> {
    if c.progress && s.reportedPercent < 100 then s.log + [100] else s.log
  }

  // ----- What every step keeps -----

  function FirstOf(c: Config, t: nat, round: nat): nat {
    (t + round * c.threads) * c.batch
  }

  ghost predicate Swept(c: Config, t: nat, rounds: nat) {
    forall r: nat :: r < rounds ==> c.matches(FirstOf(c, t, r)) == None
  }

  /** A value some batch below 2^32 named as its match. */
  ghost predicate IsMatch(c: Config, value: nat) {
    exists t: nat, r: nat :: t < c.threads && FirstOf(c, t, r) < ESN_COUNT && c.matches(FirstOf(c, t, r)) == Some(value)
  }

  /** Rounds a worker has swept without a match; a worker that found one has evaluated that batch as well. */
  function Missed(w: Worker): int {
    if w.pc.StoreResult? || w.pc.StoreFound? || w.pc.Matched? then w.evaluated - 1 else w.evaluated
  }

  function Bound(c: Config): nat
    requires ValidConfig(c)
  {
    if CheckInterval(c) > 1 then CheckInterval(c) else 1
  }

  ghost predicate WorkerInv(c: Config, s: State, t: nat)
    requires ValidConfig(c) && t < |s.workers|
  {
    var w := s.workers[t];
    && 0 <= Missed(w)
    && w.first == FirstOf(c, t, Missed(w))
    && Swept(c, t, Missed(w))
    && (w.pc.Exhausted? ==> w.first >= ESN_COUNT)
    && (w.pc.LoadFound? || w.pc.Report? || w.pc.Match? ==> w.first < ESN_COUNT)
    && (w.pc.StoreResult? || w.pc.StoreFound? || w.pc.Matched? ==>
          w.first < ESN_COUNT && c.matches(w.first) == Some(w.pc.value))
    && (w.pc.Matched? || w.pc.Stopped? || w.pc.Thrown? ==> s.found)
    && (w.pc.Thrown? ==> s.thrown)
    && (w.pc.StoreFound? ==> IsMatch(c, s.result))
    && (w.pc.Report? ==> t == 0 && c.progress)
  }

  /** Batches evaluated after `found`, against the ticks since the last poll. */
  ghost predicate PollInv(c: Config, s: State, t: nat)
    requires ValidConfig(c) && t < |s.workers|
  {
    var w := s.workers[t];
    && w.late <= Bound(c)
    && (!s.found ==> w.late == 0)
    && (w.pc.LoopHead? ==> w.ticks < Bound(c) && w.late <= w.ticks + 1)
    && (w.pc.LoadFound? ==> w.ticks == 0)
    && (w.pc.Match? || w.pc.Report? ==> w.ticks < Bound(c) && w.late <= w.ticks)
  }

  ghost predicate SharedInv(c: Config, s: State)
    requires ValidConfig(c)
  {
    && |s.workers| == c.threads
    && (s.thrown ==> s.workers[0].pc.Thrown?)
    && (s.found && !s.thrown ==> IsMatch(c, s.result))
    && (s.found ==> s.thrown || exists t :: 0 <= t < |s.workers| && s.workers[t].pc.Matched?)
  }

  ghost predicate LogInv(c: Config, s: State) {
    && s.reportedPercent < 100
    && (c.progress && !s.thrown ==> |s.log| > 0 && s.log[0] == 0 && s.log[|s.log| - 1] == s.reportedPercent)
    && (!c.progress ==> s.log == [] && !s.thrown && s.reportedPercent == 0)
    && forall i, j :: 0 <= i < j < |s.log| ==> s.log[i] < s.log[j]
  }

  ghost predicate Inv(c: Config, s: State)
    requires ValidConfig(c)
  {
    && SharedInv(c, s)
    && LogInv(c, s)
    && (forall t: nat :: t < |s.workers| ==> WorkerInv(c, s, t) && PollInv(c, s, t))
  }

  lemma InitInv(c: Config)
    requires ValidConfig(c)
    ensures Inv(c, Init(c))
  {
    forall t: nat | t < c.threads
      ensures WorkerInv(c, Init(c), t)
    {
      assert t * c.batch == FirstOf(c, t, 0);
    }
  }

  lemma NextRound(c: Config, t: nat, round: nat)
    ensures FirstOf(c, t, round) + c.threads * c.batch == FirstOf(c, t, round + 1)
  {
    assert (t + round * c.threads) * c.batch + c.threads * c.batch == (t + round * c.threads + c.threads) * c.batch;
    assert round * c.threads + c.threads == (round + 1) * c.threads;
  }

  lemma StepOwnWorker(c: Config, s: State, t: nat, throws: bool)
    requires ValidConfig(c) && Inv(c, s) && t < |s.workers| && !s.workers[t].pc.Done()
    ensures WorkerInv(c, Step(c, s, t, throws), t)
  {
    hide FirstOf, CheckInterval, LogInv, PollInv;
    var w := s.workers[t];
    assert WorkerInv(c, s, t);
    if w.pc.Match? {
      NextRound(c, t, w.evaluated);
    }
    if w.pc.StoreResult? {
      assert IsMatch(c, w.pc.value);
    }
  }

  lemma StepOtherWorker(c: Config, s: State, t: nat, throws: bool, u: nat)
    requires ValidConfig(c) && Inv(c, s) && t < |s.workers| && !s.workers[t].pc.Done() && u < |s.workers| && u != t
    ensures WorkerInv(c, Step(c, s, t, throws), u) && PollInv(c, Step(c, s, t, throws), u)
  {
    hide FirstOf, CheckInterval, LogInv, Bound;
    assert WorkerInv(c, s, u) && PollInv(c, s, u) && WorkerInv(c, s, t);
    if s.workers[t].pc.StoreResult? {
      assert IsMatch(c, s.workers[t].pc.value);
    }
  }

  lemma StepPoll(c: Config, s: State, t: nat, throws: bool)
    requires ValidConfig(c) && Inv(c, s) && t < |s.workers| && !s.workers[t].pc.Done()
    ensures PollInv(c, Step(c, s, t, throws), t)
  {
    hide FirstOf, LogInv, WorkerInv, SharedInv;
    assert PollInv(c, s, t);
  }

  lemma StepShared(c: Config, s: State, t: nat, throws: bool)
    requires ValidConfig(c) && Inv(c, s) && t < |s.workers| && !s.workers[t].pc.Done()
    ensures SharedInv(c, Step(c, s, t, throws))
  {
    hide FirstOf, CheckInterval, LogInv, PollInv;
    assert WorkerInv(c, s, t);
    var s' := Step(c, s, t, throws);
    if s.workers[t].pc.StoreResult? {
      assert IsMatch(c, s.workers[t].pc.value);
    }
    if s.found && !s.thrown {
      var u :| 0 <= u < |s.workers| && s.workers[u].pc.Matched?;
      assert s'.workers[u].pc.Matched?;
    }
    if s.workers[t].pc.StoreFound? {
      assert s'.workers[t].pc.Matched?;
    }
  }

  lemma StepLog(c: Config, s: State, t: nat, throws: bool)
    requires ValidConfig(c) && Inv(c, s) && t < |s.workers| && !s.workers[t].pc.Done()
    ensures LogInv(c, Step(c, s, t, throws))
  {
    hide FirstOf, CheckInterval, PollInv;
    assert WorkerInv(c, s, t);
  }

  /** Every reachable state of every interleaving satisfies the invariant. */
  lemma {:induction false} RunInv(c: Config, run: seq<State>)
    requires ValidConfig(c) && Run(c, run)
    ensures forall i :: 0 <= i < |run| ==> Inv(c, run[i])
    decreases |run|
  {
    if |run| == 1 {
      InitInv(c);
    } else {
      var before := run[..|run| - 1];
      RunInv(c, before);
      var s, s' := run[|run| - 2], run[|run| - 1];
      assert s == before[|run| - 2];
      var t: nat, throws :| t < |s.workers| && !s.workers[t].pc.Done() && s' == Step(c, s, t, throws);
      StepInv(c, s, t, throws);
      assert forall i :: 0 <= i < |run| - 1 ==> run[i] == before[i];
    }
  }

  lemma StepInv(c: Config, s: State, t: nat, throws: bool)
    requires ValidConfig(c) && Inv(c, s) && t < |s.workers| && !s.workers[t].pc.Done()
    ensures Inv(c, Step(c, s, t, throws))
  {
    StepShared(c, s, t, throws);
    StepLog(c, s, t, throws);
    StepOwnWorker(c, s, t, throws);
    StepPoll(c, s, t, throws);
    hide SharedInv, LogInv, WorkerInv, PollInv;
    var s' := Step(c, s, t, throws);
    assert |s'.workers| == |s.workers|;
    forall u: nat | u < |s'.workers|
      ensures WorkerInv(c, s', u) && PollInv(c, s', u)
    {
      if u != t {
        StepOtherWorker(c, s, t, throws, u);
      }
    }
  }

  // ----- What the caller gets -----

  /** `matches` finds the first candidate of its batch that satisfies `wanted`. */
  ghost predicate BatchFinds(c: Config, wanted: nat -> bool) {
    forall first: nat :: c.batch >= 1 && first % c.batch == 0 && first < ESN_COUNT ==>
      match c.matches(first)
      case Some(value) =>
        first <= value < first + c.batch && wanted(value) && forall v :: first <= v < value ==> !wanted(v)
      case None => forall v :: first <= v < first + c.batch ==> !wanted(v)
  }

  /** Each candidate belongs to exactly one round of one worker. */
  lemma Owner(c: Config, candidate: nat) returns (t: nat, r: nat)
    requires ValidConfig(c)
    ensures t < c.threads && FirstOf(c, t, r) <= candidate < FirstOf(c, t, r) + c.batch
      && FirstOf(c, t, r) % c.batch == 0
  {
    var q := candidate / c.batch;
    t, r := q % c.threads, q / c.threads;
    assert q == r * c.threads + t;
    assert FirstOf(c, t, r) == q * c.batch;
    MultipleMod(q, c.batch);
    assert candidate == q * c.batch + candidate % c.batch;
  }

  lemma MultipleMod(q: nat, b: nat)
    requires b > 0
    ensures (q * b) % b == 0
  {
    var k := (q * b) / b;
    var gap := q - k;
    assert q * b - k * b == gap * b;
    MulSign(gap, b);
    assert gap == 0;
  }

  lemma MulSign(d: int, b: nat)
    ensures d >= 1 ==> d * b >= b
    ensures d <= -1 ==> d * b + b <= 0
  {
    if d >= 1 {
      assert d * b == (d - 1) * b + b;
    } else if d <= -1 {
      assert d * b == (d + 1) * b - b;
    }
  }

  lemma LaterRound(c: Config, t: nat, r: nat, r': nat)
    requires r <= r'
    ensures FirstOf(c, t, r) <= FirstOf(c, t, r')
  {
    if r < r' {
      LaterRound(c, t, r, r' - 1);
      NextRound(c, t, r' - 1);
    }
  }

  /** Batch sizes that divide 2^32 leave no batch straddling its end. */
  lemma BatchInside(batch: nat, first: nat)
    requires batch >= 1 && ESN_COUNT % batch == 0 && first % batch == 0 && first < ESN_COUNT
    ensures first + batch <= ESN_COUNT
  {
    var q, n := first / batch, ESN_COUNT / batch;
    assert first == q * batch && ESN_COUNT == n * batch;
    assert q + 1 <= n;
    assert (q + 1) * batch <= n * batch;
  }

  lemma MatchIsWanted(c: Config, wanted: nat -> bool, value: nat)
    requires ValidConfig(c) && BatchFinds(c, wanted) && ESN_COUNT % c.batch == 0 && IsMatch(c, value)
    ensures value < ESN_COUNT && wanted(value)
  {
    var t: nat, r: nat :| t < c.threads && FirstOf(c, t, r) < ESN_COUNT && c.matches(FirstOf(c, t, r)) == Some(value);
    MultipleMod(t + r * c.threads, c.batch);
    BatchInside(c.batch, FirstOf(c, t, r));
  }

  /** No interleaving misses a match: a run that ends without one has swept every candidate. */
  lemma NothingMissed(c: Config, s: State, wanted: nat -> bool, candidate: nat)
    requires ValidConfig(c) && BatchFinds(c, wanted) && Inv(c, s) && AllDone(s) && !s.found && candidate < ESN_COUNT
    ensures !wanted(candidate)
  {
    var t, r := Owner(c, candidate);
    var w := s.workers[t];
    assert WorkerInv(c, s, t);
    assert w.pc.Exhausted?;
    if r >= w.evaluated {
      LaterRound(c, t, w.evaluated, r);
      assert false;
    }
    assert c.matches(FirstOf(c, t, r)) == None;
  }

  /**
   * Main result: under every schedule, when the callback does not throw, the sweep answers Found exactly when some
   * 32-bit candidate satisfies the predicate, and the value it returns satisfies it.
   */
  lemma SearchCorrect(c: Config, run: seq<State>, wanted: nat -> bool)
    requires ValidConfig(c) && ESN_COUNT % c.batch == 0 && BatchFinds(c, wanted)
    requires Run(c, run) && AllDone(run[|run| - 1])
    ensures match Finish(run[|run| - 1])
      case Found(value) => value < ESN_COUNT && wanted(value)
      case NotFound => forall v: nat :: v < ESN_COUNT ==> !wanted(v)
      case Rethrown => run[|run| - 1].thrown && c.progress
  {
    RunInv(c, run);
    var s := run[|run| - 1];
    assert Inv(c, s);
    if !s.thrown && s.found {
      MatchIsWanted(c, wanted, s.result);
    }
    if !s.thrown && !s.found {
      forall v: nat | v < ESN_COUNT
        ensures !wanted(v)
      {
        NothingMissed(c, s, wanted, v);
      }
    }
  }

  /** A unique match is returned under every schedule. */
  lemma UniqueMatch(c: Config, run: seq<State>, wanted: nat -> bool, esn: nat)
    requires ValidConfig(c) && ESN_COUNT % c.batch == 0 && BatchFinds(c, wanted)
    requires Run(c, run) && AllDone(run[|run| - 1]) && !run[|run| - 1].thrown
    requires esn < ESN_COUNT && wanted(esn) && forall v: nat :: v < ESN_COUNT && wanted(v) ==> v == esn
    ensures Finish(run[|run| - 1]) == Found(esn)
  {
    SearchCorrect(c, run, wanted);
  }

  /** One thread returns the least match. */
  lemma OneThreadLeast(c: Config, run: seq<State>, wanted: nat -> bool, v: nat)
    requires ValidConfig(c) && c.threads == 1 && ESN_COUNT % c.batch == 0 && BatchFinds(c, wanted)
    requires Run(c, run) && AllDone(run[|run| - 1]) && Finish(run[|run| - 1]).Found?
    requires v < ESN_COUNT && wanted(v)
    ensures run[|run| - 1].result <= v
  {
    RunSingle(c, run);
    RunInv(c, run);
    var s := run[|run| - 1];
    assert WorkerInv(c, s, 0);
    var w := s.workers[0];
    var t, r := Owner(c, v);
    MultipleMod(Missed(w) * c.threads, c.batch);
    assert w.first % c.batch == 0;
    if r >= Missed(w) {
      LaterRound(c, 0, Missed(w), r);
    }
  }

  /** With one worker, what it found is what is published. */
  ghost predicate SinglePublishes(s: State) {
    && |s.workers| == 1
    && (s.workers[0].pc.StoreFound? || s.workers[0].pc.Matched? ==> s.result == s.workers[0].pc.value)
    && (s.found && !s.thrown ==> s.workers[0].pc.Matched?)
  }

  lemma {:induction false} RunSingle(c: Config, run: seq<State>)
    requires ValidConfig(c) && c.threads == 1 && Run(c, run)
    ensures SinglePublishes(run[|run| - 1])
    decreases |run|
  {
    if |run| > 1 {
      var before := run[..|run| - 1];
      RunSingle(c, before);
      var s := run[|run| - 2];
      assert s == before[|run| - 2];
      assert Next(c, s, run[|run| - 1]);
    }
  }

  // ----- Progress and stopping -----

  /** The reported percentages rise strictly from 0 to exactly 100, whatever the schedule. */
  lemma ProgressRises(c: Config, run: seq<State>)
    requires ValidConfig(c) && c.progress && Run(c, run) && AllDone(run[|run| - 1]) && !run[|run| - 1].thrown
    ensures var log := FinalLog(c, run[|run| - 1]);
      && |log| >= 2 && log[0] == 0 && log[|log| - 1] == 100
      && forall i, j :: 0 <= i < j < |log| ==> log[i] < log[j]
  {
    RunInv(c, run);
    assert LogInv(c, run[|run| - 1]);
  }

  /** After `found` is set a worker evaluates at most `checkInterval` more batches (one, if that is smaller). */
  lemma StopsSoon(c: Config, run: seq<State>, i: nat, t: nat)
    requires ValidConfig(c) && Run(c, run) && i < |run| && t < c.threads
    ensures |run[i].workers| == c.threads && run[i].workers[t].late <= Bound(c)
  {
    RunInv(c, run);
    assert Inv(c, run[i]) && PollInv(c, run[i], t);
  }

  /** Work left: batches still to come, then the steps of the current iteration. */
  function Weight(w: Worker): nat {
    if w.pc.Done() then 0
    else 8 * (if w.first < ESN_COUNT then ESN_COUNT - w.first else 0)
         + match w.pc
           case LoopHead => 7
           case LoadFound => 6
           case Report => 5
           case Match => 4
           case StoreResult(_) => 3
           case _ => 2
  }

  function TotalWeight(workers: seq<Worker>): nat {
    if workers == [] then 0 else TotalWeight(workers[..|workers| - 1]) + Weight(workers[|workers| - 1])
  }

  lemma {:induction false} TotalWeightUpdate(workers: seq<Worker>, t: nat, w: Worker)
    requires t < |workers|
    ensures TotalWeight(workers[t := w]) == TotalWeight(workers) - Weight(workers[t]) + Weight(w)
  {
    var n := |workers| - 1;
    if t == n {
      assert workers[t := w][..n] == workers[..n];
    } else {
      assert workers[t := w][..n] == workers[..n][t := w];
      TotalWeightUpdate(workers[..n], t, w);
    }
  }

  lemma StepLighter(c: Config, s: State, t: nat, throws: bool)
    requires ValidConfig(c) && t < |s.workers| && !s.workers[t].pc.Done()
    requires s.workers[t].pc.Match? ==> s.workers[t].first < ESN_COUNT
    ensures TotalWeight(Step(c, s, t, throws).workers) < TotalWeight(s.workers)
  {
    hide CheckInterval, TotalWeight;
    assert c.threads * c.batch >= 1;
    TotalWeightUpdate(s.workers, t, Step(c, s, t, throws).workers[t]);
  }

  /** Every run is finite: each step uses up some of the initial weight. */
  lemma {:induction false} RunsEnd(c: Config, run: seq<State>)
    requires ValidConfig(c) && Run(c, run)
    ensures |run| - 1 + TotalWeight(run[|run| - 1].workers) <= TotalWeight(Init(c).workers)
    decreases |run|
  {
    if |run| > 1 {
      var before := run[..|run| - 1];
      RunsEnd(c, before);
      RunInv(c, before);
      var s, s' := run[|run| - 2], run[|run| - 1];
      assert s == before[|run| - 2];
      var t: nat, throws :| t < |s.workers| && !s.workers[t].pc.Done() && s' == Step(c, s, t, throws);
      assert WorkerInv(c, s, t);
      StepLighter(c, s, t, throws);
    }
  }

  /** No deadlock: a state that is not final has a next state, so every maximal run ends with all workers returned. */
  lemma NoDeadlock(c: Config, s: State)
    requires ValidConfig(c) && !AllDone(s)
    ensures exists s' :: Next(c, s, s')
  {
    var t :| 0 <= t < |s.workers| && !s.workers[t].pc.Done();
    assert Next(c, s, Step(c, s, t, false));
  }
}
