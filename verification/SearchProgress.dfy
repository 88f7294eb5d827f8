/** Which percentages a search reports (the progress callback of bruteForceEsn, src/siemens/bruteforce.cpp). */
module SearchProgress {
  import opened Search

  /** How far worker 0 is at the start of its round `r`, in whole percent. */
  function PercentAt(c: Config, r: nat): nat {
    FirstOf(c, 0, r) * 100 / 0x1_0000_0000
  }

  /** Worker 0 polls in the last of so many rounds that it has gone through 2^18 candidates, but at least in one. */
  predicate Polls(c: Config, r: nat)
    requires ValidConfig(c)
  {
    (r + 1) % (if c.batch >= 0x40000 then 1 else 0x40000 / c.batch) == 0
  }

  /** A round of worker 0 below 2^32 in which it polls. */
  predicate Due(c: Config, r: nat)
    requires ValidConfig(c)
  {
    FirstOf(c, 0, r) < 0x1_0000_0000 && Polls(c, r)
  }

  /** The ticks since the last poll count the rounds since then. */
  ghost predicate TickInv(c: Config, w: Worker)
    requires ValidConfig(c)
  {
    && Missed(w) >= 0 && w.first == FirstOf(c, 0, Missed(w))
    && (w.pc.LoopHead? ==> w.ticks == Missed(w) % Bound(c))
    && (w.pc.LoadFound? || w.pc.Report? ==> w.ticks == 0 && Polls(c, Missed(w)) && w.first < ESN_COUNT)
    && (w.pc.Match? ==> w.ticks == (Missed(w) + 1) % Bound(c))
  }

  /** Everything reported is 0 or the percentage of a round that is due, at or before the present one. */
  ghost predicate Genuine(c: Config, log: seq<nat>, rounds: nat)
    requires ValidConfig(c)
  {
    forall k :: 0 <= k < |log| ==> log[k] == 0 || exists r: nat :: r <= rounds && Due(c, r) && log[k] == PercentAt(c, r)
  }

  /** Every round that was due before round `rounds` is reported. */
  ghost predicate Reported(c: Config, log: seq<nat>, rounds: nat)
    requires ValidConfig(c)
  {
    forall r: nat :: r < rounds && Due(c, r) ==> PercentAt(c, r) in log
  }

  ghost predicate ProgressInv(c: Config, s: State)
    requires ValidConfig(c)
  {
    && Inv(c, s) && TickInv(c, s.workers[0]) && Genuine(c, s.log, Missed(s.workers[0]))
    && (!s.thrown ==>
          && Reported(c, s.log, Missed(s.workers[0]))
          && s.reportedPercent <= PercentAt(c, Missed(s.workers[0]))
          && (s.workers[0].pc.Match? && Due(c, Missed(s.workers[0])) ==> PercentAt(c, Missed(s.workers[0])) in s.log))
  }

  lemma LaterPercent(c: Config, r: nat, r': nat)
    requires r <= r'
    ensures PercentAt(c, r) <= PercentAt(c, r')
  {
    LaterRound(c, 0, r, r');
    hide FirstOf;
    Percents(FirstOf(c, 0, r), FirstOf(c, 0, r'));
  }

  lemma Percents(a: nat, b: nat)
    requires a <= b
    ensures a * 100 / 0x1_0000_0000 <= b * 100 / 0x1_0000_0000
  {
  }

  lemma NextTick(n: nat, bound: nat)
    requires bound >= 1
    ensures (n + 1) % bound == if n % bound + 1 == bound then 0 else n % bound + 1
  {
    var q, k := n / bound, n % bound;
    assert n + 1 == q * bound + (k + 1);
    if k + 1 == bound {
      assert n + 1 == (q + 1) * bound;
      MultipleMod(q + 1, bound);
    } else {
      ModOf(q, k + 1, bound);
    }
  }

  lemma ModOf(q: nat, k: nat, bound: nat)
    requires k < bound
    ensures (q * bound + k) % bound == k
  {
    var n := q * bound + k;
    var gap := n / bound - q;
    assert gap * bound == k - n % bound;
    MulSign(gap, bound);
  }

  lemma StartProgress(c: Config)
    requires ValidConfig(c) && c.progress
    ensures ProgressInv(c, Init(c))
  {
    InitInv(c);
    assert FirstOf(c, 0, 0) == 0;
    hide Inv, Bound;
  }

  /** The tick test finds exactly the rounds that poll. */
  lemma PollsWhen(c: Config, n: nat, ticks: nat)
    requires ValidConfig(c) && ticks == n % Bound(c)
    ensures if ticks + 1 >= CheckInterval(c) then Polls(c, n) else !Polls(c, n) && (n + 1) % Bound(c) == ticks + 1
  {
    NextTick(n, Bound(c));
    BoundIs(c);
    hide CheckInterval, Bound;
  }

  lemma BoundIs(c: Config)
    requires ValidConfig(c)
    ensures Bound(c) == if c.batch >= 0x40000 then 1 else 0x40000 / c.batch
  {
    if c.batch < 0x40000 {
      var q := 0x40000 / c.batch;
      assert q * c.batch <= 0x40000 < q * c.batch + c.batch;
      assert q >= 1;
    }
  }

  /** One step of worker 0 keeps the tick count. */
  lemma TickStep(c: Config, s: State, throws: bool)
    requires ValidConfig(c) && c.progress && ProgressInv(c, s) && !s.workers[0].pc.Done()
    ensures TickInv(c, Step(c, s, 0, throws).workers[0])
  {
    var w := s.workers[0];
    assert WorkerInv(c, s, 0);
    hide FirstOf, LogInv, SharedInv, Genuine, Reported, PollInv;
    if w.pc.LoopHead? {
      PollsWhen(c, Missed(w), w.ticks);
    }
    hide CheckInterval, Bound;
    if w.pc.Match? {
      NextRound(c, 0, Missed(w));
    }
  }

  /** One step of worker 0 keeps the log genuine. */
  lemma GenuineStep(c: Config, s: State, throws: bool)
    requires ValidConfig(c) && c.progress && ProgressInv(c, s) && !s.workers[0].pc.Done()
    ensures var s' := Step(c, s, 0, throws); Genuine(c, s'.log, Missed(s'.workers[0]))
  {
    var w, s' := s.workers[0], Step(c, s, 0, throws);
    hide FirstOf, LogInv, SharedInv, Bound, WorkerInv, PollInv, Reported;
    var n := Missed(w);
    assert n <= Missed(s'.workers[0]);
    if w.pc.Report? {
      assert Due(c, n) && w.first * 100 / ESN_COUNT == PercentAt(c, n);
    }
  }

  lemma ReportedStep(c: Config, s: State, throws: bool)
    requires ValidConfig(c) && c.progress && ProgressInv(c, s) && !s.workers[0].pc.Done()
    requires !Step(c, s, 0, throws).thrown
    ensures var s' := Step(c, s, 0, throws); var w' := s'.workers[0];
      && Missed(w') >= 0 && Reported(c, s'.log, Missed(w')) && s'.reportedPercent <= PercentAt(c, Missed(w'))
      && (w'.pc.Match? && Due(c, Missed(w')) ==> PercentAt(c, Missed(w')) in s'.log)
  {
    TickStep(c, s, throws);
    hide FirstOf, SharedInv, WorkerInv, PollInv, Genuine;
    var w, s' := s.workers[0], Step(c, s, 0, throws);
    var n := Missed(w);
    if w.pc.LoopHead? {
      PollsWhen(c, n, w.ticks);
    }
    hide Bound, CheckInterval, Polls, TickInv;
    if w.pc.Report? {
      assert w.first * 100 / ESN_COUNT == PercentAt(c, n);
      assert s.log[|s.log| - 1] == s.reportedPercent;
    }
    if w.pc.Match? {
      LaterPercent(c, n, n + 1);
      forall r: nat | r < n + 1 && Due(c, r)
        ensures PercentAt(c, r) in s'.log
      {
        assert r == n || r < n;
      }
    }
  }

  /** Only worker 0 touches the log. */
  lemma OtherStep(c: Config, s: State, t: nat, throws: bool)
    requires ValidConfig(c) && ProgressInv(c, s) && 0 < t < |s.workers| && !s.workers[t].pc.Done()
    ensures var s' := Step(c, s, t, throws);
      s'.log == s.log && s'.workers[0] == s.workers[0] && s'.reportedPercent == s.reportedPercent
      && s'.thrown == s.thrown
  {
    assert WorkerInv(c, s, t);
    hide TickInv, Genuine, Reported, FirstOf, LogInv, SharedInv, PollInv;
  }

  lemma ProgressStep(c: Config, s: State, t: nat, throws: bool)
    requires ValidConfig(c) && c.progress && ProgressInv(c, s) && t < |s.workers| && !s.workers[t].pc.Done()
    ensures ProgressInv(c, Step(c, s, t, throws))
  {
    StepInv(c, s, t, throws);
    hide Inv, TickInv, Genuine, Reported, Step, Due, PercentAt;
    if t == 0 {
      TickStep(c, s, throws);
      GenuineStep(c, s, throws);
      if !Step(c, s, 0, throws).thrown {
        ReportedStep(c, s, throws);
      }
    } else {
      OtherStep(c, s, t, throws);
    }
  }

  lemma {:induction false} RunProgress(c: Config, run: seq<State>)
    requires ValidConfig(c) && c.progress && Run(c, run)
    ensures ProgressInv(c, run[|run| - 1])
    decreases |run|
  {
    hide ProgressInv;
    if |run| == 1 {
      StartProgress(c);
    } else {
      var before := run[..|run| - 1];
      RunProgress(c, before);
      var s, s' := run[|run| - 2], run[|run| - 1];
      assert s == before[|run| - 2];
      var t: nat, throws :| t < |s.workers| && !s.workers[t].pc.Done() && s' == Step(c, s, t, throws);
      ProgressStep(c, s, t, throws);
    }
  }

  /** Under every schedule, everything reported is 0, 100, or the percentage of a round that is due. */
  lemma ProgressGenuine(c: Config, run: seq<State>, k: nat)
    requires ValidConfig(c) && c.progress && Run(c, run) && k < |FinalLog(c, run[|run| - 1])|
    ensures var percent := FinalLog(c, run[|run| - 1])[k];
      percent == 0 || percent == 100 || exists r: nat :: Due(c, r) && percent == PercentAt(c, r)
  {
    RunProgress(c, run);
    hide Due, PercentAt, Inv, TickInv, Reported;
  }

  /** A search that ends without a match has reported the percentage of every round that was due. */
  lemma ProgressComplete(c: Config, run: seq<State>, r: nat)
    requires ValidConfig(c) && c.progress && Run(c, run) && AllDone(run[|run| - 1])
    requires Finish(run[|run| - 1]).NotFound? && Due(c, r)
    ensures PercentAt(c, r) in FinalLog(c, run[|run| - 1])
  {
    RunProgress(c, run);
    var s := run[|run| - 1];
    assert WorkerInv(c, s, 0);
    var n := Missed(s.workers[0]);
    if r >= n {
      LaterRound(c, 0, n, r);
      assert false;
    }
    assert PercentAt(c, r) in s.log;
  }
}
