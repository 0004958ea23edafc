/** Any number of requests served at once: their effects interleave in any order, and the
    activeConnections gauge is shared. */
module Fleet {
  import opened Ledgers

  /** One request: the log its handler writes, and how far it has got. */
  datatype Job = Job(log: seq<Effect>, at: nat)

  datatype State = State(jobs: seq<Job>, gauge: int)

  ghost predicate Valid(j: Job) {
    Completed(j.log) && j.at <= |j.log|
  }

  datatype Step = Arrive(log: seq<Effect>) | Advance(i: nat)

  ghost predicate Enabled(s: State, step: Step) {
    match step
    case Arrive(log) => Completed(log)
    case Advance(i) => i < |s.jobs| && s.jobs[i].at < |s.jobs[i].log|
  }

  function GaugeChange(e: Effect): int {
    if e.GaugeUp? then 1 else if e.GaugeDown? then -1 else 0
  }

  function Apply(s: State, step: Step): State
    requires step.Advance? ==> step.i < |s.jobs| && s.jobs[step.i].at < |s.jobs[step.i].log|
  {
    match step
    case Arrive(log) => s.(jobs := s.jobs + [Job(log, 0)])
    case Advance(i) =>
      var j := s.jobs[i];
      State(s.jobs[i := j.(at := j.at + 1)], s.gauge + GaugeChange(j.log[j.at]))
  }

  ghost predicate IsRun(run: seq<State>) {
    && run != [] && run[0] == State([], 0)
    && forall i :: 0 < i < |run| ==> Next(run[i - 1], run[i])
  }

  ghost predicate Next(s: State, s': State) {
    exists step :: Enabled(s, step) && s' == Apply(s, step)
  }

  /** The log has entered the gauge and not left it since. */
  ghost predicate Entered(log: seq<Effect>) {
    exists k :: 0 <= k < |log| && log[k].GaugeUp? && forall m :: k < m < |log| ==> !log[m].GaugeDown?
  }

  /** The request is between Inc and Dec. */
  ghost predicate InGauge(j: Job)
    requires j.at <= |j.log|
  {
    Entered(j.log[..j.at])
  }

  /** The number of requests between Inc and Dec. */
  ghost function Active(jobs: seq<Job>): nat
    requires forall j :: j in jobs ==> j.at <= |j.log|
  {
    if jobs == [] then 0
    else
      var last := jobs[|jobs| - 1];
      assert last in jobs;
      Active(jobs[..|jobs| - 1]) + if InGauge(last) then 1 else 0
  }

  lemma EnteredOneMore(log: seq<Effect>, e: Effect)
    ensures Entered(log + [e]) <==> e.GaugeUp? || (Entered(log) && !e.GaugeDown?)
  {
    var more := log + [e];
    assert more[|log|] == e && forall k :: 0 <= k < |log| ==> more[k] == log[k];
    if Entered(log) && !e.GaugeDown? {
      var k :| 0 <= k < |log| && log[k].GaugeUp? && forall m :: k < m < |log| ==> !log[m].GaugeDown?;
      assert more[k].GaugeUp?;
    }
    if Entered(more) && !e.GaugeUp? {
      var k :| 0 <= k < |more| && more[k].GaugeUp? && forall m :: k < m < |more| ==> !more[m].GaugeDown?;
      assert log[k].GaugeUp?;
      assert forall m :: k < m < |log| ==> !more[m].GaugeDown?;
    }
  }

  /** A sound log contributes 1 to the gauge while it is between Inc and Dec, and 0 otherwise. */
  lemma {:induction false} GaugeOfLog(log: seq<Effect>)
    requires Replay(log).sound
    ensures Replay(log).gauge == if Entered(log) then 1 else 0
  {
    if log != [] {
      var init, last := log[..|log| - 1], log[|log| - 1];
      GaugeOfLog(init);
      EnteredOneMore(init, last);
      assert log == init + [last];
    }
  }

  /** A byte reaches upstream, or a request the transport, only between Inc and Dec. */
  lemma ContactIsCounted(log: seq<Effect>, i: nat)
    requires Replay(log).sound && i < |log| && (log[i].ToUpstream? || log[i].RoundTripped?)
    ensures Entered(log[..i])
  {
    GaugedBefore(log, i);
    GaugeOfLog(log[..i]);
  }

  /** One effect of one request moves the gauge by what it changes about that request. */
  lemma EffectMovesGauge(j: Job)
    requires Valid(j) && j.at < |j.log|
    ensures (if InGauge(j.(at := j.at + 1)) then 1 else 0) == (if InGauge(j) then 1 else 0) + GaugeChange(j.log[j.at])
  {
    var before, e := j.log[..j.at], j.log[j.at];
    assert j.log[..j.at + 1] == before + [e];
    SoundThroughout(j.log, j.at);
    SoundThroughout(j.log, j.at + 1);
    GaugeOfLog(before);
    GaugeOfLog(before + [e]);
    ReplayOneMore(before, e);
  }

  lemma {:induction false} ActiveAfter(jobs: seq<Job>, i: nat, j: Job)
    requires (forall x :: x in jobs ==> x.at <= |x.log|) && i < |jobs| && j.at <= |j.log|
    ensures forall x :: x in jobs[i := j] ==> x.at <= |x.log|
    ensures jobs[i] in jobs
    ensures Active(jobs[i := j]) + (if InGauge(jobs[i]) then 1 else 0) == Active(jobs) + if InGauge(j) then 1 else 0
  {
    assert jobs[i] in jobs;
    var n := |jobs| - 1;
    if i == n {
      assert jobs[i := j][..n] == jobs[..n];
    } else {
      ActiveAfter(jobs[..n], i, j);
      assert jobs[i := j][..n] == jobs[..n][i := j];
    }
  }

  ghost predicate Inv(s: State) {
    && (forall j :: j in s.jobs ==> Valid(j))
    && s.gauge == Active(s.jobs)
  }

  lemma StepHolds(s: State, step: Step)
    requires Inv(s) && Enabled(s, step)
    ensures Inv(Apply(s, step))
  {
    match step
    case Arrive(log) =>
      var j := Job(log, 0);
      assert (s.jobs + [j])[..|s.jobs|] == s.jobs;
      assert !InGauge(j);
    case Advance(i) =>
      var j := s.jobs[i];
      assert j in s.jobs;
      ActiveAfter(s.jobs, i, j.(at := j.at + 1));
      EffectMovesGauge(j);
  }

  /** At every moment of every run, whatever the interleaving, the gauge is the number of requests
      between Inc and Dec. */
  lemma {:induction false} GaugeCountsActive(run: seq<State>, i: nat)
    requires IsRun(run) && i < |run|
    ensures Inv(run[i])
    ensures run[i].gauge == Active(run[i].jobs) >= 0
  {
    if i > 0 {
      GaugeCountsActive(run, i - 1);
      assert Next(run[i - 1], run[i]);
      var step :| Enabled(run[i - 1], step) && run[i] == Apply(run[i - 1], step);
      StepHolds(run[i - 1], step);
    }
  }

  /** And 0 once every request that has arrived is served. */
  lemma GaugeReturnsToZero(run: seq<State>, i: nat)
    requires IsRun(run) && i < |run|
    requires forall j :: j in run[i].jobs ==> j.at == |j.log|
    ensures run[i].gauge == 0
  {
    GaugeCountsActive(run, i);
    NoneActive(run[i].jobs);
  }

  lemma {:induction false} NoneActive(jobs: seq<Job>)
    requires forall j :: j in jobs ==> Valid(j) && j.at == |j.log|
    ensures Active(jobs) == 0
  {
    if jobs != [] {
      var last := jobs[|jobs| - 1];
      assert last in jobs;
      GaugeOfLog(last.log);
      assert last.log[..last.at] == last.log;
      NoneActive(jobs[..|jobs| - 1]);
    }
  }
}
