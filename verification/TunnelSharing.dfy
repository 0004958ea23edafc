/** The two idle timers as one: exactly one timeout after the last chunk in either direction, if
    peers drain without delay; and what a delayed Write changes about that. */
module TunnelSharing {
  import opened Tunnel
  import opened TunnelTimers
  import opened TunnelEnds

  // ---------------------------------------------------------------------------
  // Peers that drain without delay
  // ---------------------------------------------------------------------------

  ghost predicate PromptSide(timeout: int, s: State, side: Side) {
    var c := s.copy.At(side);
    && (Pending(s, side) ==> s.deadline.At(side) <= s.last + timeout)
    && (c.pc.Call? || c.pc.Filled? || c.pc.Writing? ==> s.now == s.last)
    && (c.pc.Writing? ==> c.readAt == s.now)
  }

  ghost predicate PromptHolds(timeout: int, s: State) {
    PromptSide(timeout, s, Client) && PromptSide(timeout, s, Upstream) && s.now <= s.last + timeout
  }

  lemma ActPrompt(timeout: int, s: State, step: Step, side: Side)
    requires Wrapped(timeout) && Enabled(timeout, s, step) && TimersHold(timeout, s) && PromptHolds(timeout, s)
    requires PromptStep(s, Apply(timeout, s, step))
    ensures PromptSide(timeout, Apply(timeout, s, step), side)
  {
    StepCalls(timeout, s, step, side);
    if step.Loop? {
      assert step.side == side || step.side == Other(side);
    }
  }

  lemma StepPrompt(timeout: int, s: State, step: Step)
    requires Wrapped(timeout) && Enabled(timeout, s, step) && TimersHold(timeout, s) && PromptHolds(timeout, s)
    requires PromptStep(s, Apply(timeout, s, step))
    ensures PromptHolds(timeout, Apply(timeout, s, step))
  {
    ActPrompt(timeout, s, step, Client);
    ActPrompt(timeout, s, step, Upstream);
  }

  lemma {:induction false} RunPrompt(timeout: int, run: seq<State>, i: nat)
    requires Wrapped(timeout) && IsRun(timeout, run) && Prompt(run) && i < |run|
    ensures PromptHolds(timeout, run[i])
  {
    if i > 0 {
      RunPrompt(timeout, run, i - 1);
      RunTimers(timeout, run, i - 1);
      var s := run[i - 1];
      assert NextAt(timeout, run, i) && PromptStep(s, run[i]);
      var step :| Enabled(timeout, s, step) && run[i] == Apply(timeout, s, step);
      StepPrompt(timeout, s, step);
    }
  }

  /** One shared idle timer: with peers that drain without delay, whenever time passes, every
      pending operation is a Read and its deadline is exactly one timeout after the last chunk in
      either direction (after the last chunk but one at the earliest, if the last could not be
      passed on because setting the deadline failed); no Write ever times out; and the tunnel is
      open no longer than that. */
  lemma OneSharedIdleTimer(timeout: int, run: seq<State>, i: nat, side: Side)
    requires timeout > 0 && IsRun(timeout, run) && Prompt(run) && i < |run|
    ensures
      var s := run[i];
      Blocked(s.copy.client) && Blocked(s.copy.upstream) && s.copy.At(side).pc.Reading? ==>
        && s.before + timeout <= s.deadline.At(side) <= s.last + timeout
        && (!s.broken.At(side) ==> s.deadline.At(side) == s.last + timeout)
    ensures !Enabled(timeout, run[i], Loop(side, WriteTimesOut))
    ensures run[i].now <= run[i].last + timeout
  {
    RunTimers(timeout, run, i);
    RunPrompt(timeout, run, i);
  }

  /** And it does return: from every state of such a run, if no more chunks come, the tunnel gets
      to its end at most one timeout after the last chunk, its peers still draining at once. */
  lemma ReturnsWithinOneTimeout(timeout: int, run: seq<State>) returns (more: seq<State>)
    requires timeout > 0 && IsRun(timeout, run) && Prompt(run)
    ensures IsRun(timeout, more) && Prompt(more) && run <= more && Silent(more, |run| - 1)
    ensures Last(more).returned && Last(more).now <= Last(run).last + timeout
  {
    more := SilentTunnelReturns(timeout, run, true);
    RunPrompt(timeout, more, |more| - 1);
  }

  /** Peers that drain without delay leave no Write unattended. */
  lemma PromptIsAttended(run: seq<State>)
    requires Prompt(run)
    ensures Attended(run)
  {
    forall i | 0 < i < |run| && run[i].now != run[i - 1].now
      ensures AttendedAt(run, i - 1, Client) && AttendedAt(run, i - 1, Upstream)
    {
      assert PromptStep(run[i - 1], run[i]);
    }
  }

  /** So they survive: as long as successive chunks are less than a timeout apart nothing times out
      on a connection that is not broken. */
  lemma PromptRunsSurvive(timeout: int, run: seq<State>, i: nat, side: Side, act: Act)
    requires timeout > 0 && IsRun(timeout, run) && Prompt(run) && i < |run|
    requires IsTimeout(act) && Enabled(timeout, run[i], Loop(side, act))
    requires act.ReadTimesOut? ==> !run[i].broken.At(side)
    ensures
      var s := run[i];
      s.now >= s.last + timeout || (s.now == s.last && s.last >= s.before + timeout)
  {
    PromptIsAttended(run);
    AttendedRunsSurvive(timeout, run, i, side, act);
  }

  // ---------------------------------------------------------------------------
  // When a delayed Write is cut short
  // ---------------------------------------------------------------------------

  /** A delayed Write whose deadline comes before the last chunk's timeout, and will not be moved:
      the other loop is not about to read. */
  predicate Starved(timeout: int, s: State, side: Side) {
    var c, other := s.copy.At(side), s.copy.At(Other(side));
    && c.pc.Writing? && c.pc.done < |c.pc.chunk|
    && s.now <= s.deadline.At(Other(side)) < s.last + timeout
    && !other.pc.Call? && (other.pc.Writing? && other.pc.done == |other.pc.chunk| ==> other.pc.last)
  }

  /** What happens to it next if no chunk comes: time passes, or the other loop moves. */
  function StarvedStep(timeout: int, s: State, side: Side): Step {
    if Enabled(timeout, s, Tick(1)) then Tick(1) else Loop(Other(side), OwnStep(s.copy.At(Other(side))))
  }

  lemma StaysStarved(timeout: int, s: State, side: Side)
    requires Wrapped(timeout) && TimersHold(timeout, s) && StreamsHold(timeout, s) && Starved(timeout, s, side)
    requires !Enabled(timeout, s, Loop(side, WriteTimesOut))
    ensures
      var step := StarvedStep(timeout, s, side);
      Enabled(timeout, s, step) && ReadsNothing(step) && Starved(timeout, Apply(timeout, s, step), side)
  {
    assert side == Client || side == Upstream;
  }

  lemma StarvedOn(timeout: int, run: seq<State>, side: Side) returns (step: Step)
    requires Wrapped(timeout) && IsRun(timeout, run) && Starved(timeout, Last(run), side)
    requires !Enabled(timeout, Last(run), Loop(side, WriteTimesOut))
    ensures Enabled(timeout, Last(run), step) && ReadsNothing(step)
    ensures
      var s' := Apply(timeout, Last(run), step);
      && Starved(timeout, s', side)
      && 0 <= Remaining(timeout, Last(run)) && Remaining(timeout, s') < Remaining(timeout, Last(run))
  {
    RunStreams(timeout, run, |run| - 1);
    RunTimers(timeout, run, |run| - 1);
    RemainingIsPositive(timeout, run, |run| - 1);
    step := StarvedStep(timeout, Last(run), side);
    StaysStarved(timeout, Last(run), side);
    StepRemaining(timeout, Last(run), step);
  }

  /** Left alone, it times out before that. */
  lemma {:induction false} StarvedTimesOut(timeout: int, run: seq<State>, side: Side) returns (more: seq<State>)
    requires Wrapped(timeout) && IsRun(timeout, run) && Starved(timeout, Last(run), side)
    ensures IsRun(timeout, more) && run <= more && Silent(more, |run| - 1)
    ensures Enabled(timeout, Last(more), Loop(side, WriteTimesOut))
    ensures Last(more).now < Last(more).last + timeout
    decreases Remaining(timeout, Last(run))
  {
    more := run;
    if !Enabled(timeout, Last(run), Loop(side, WriteTimesOut)) {
      var step := StarvedOn(timeout, run, side);
      var longer := Extend(timeout, run, step);
      more := StarvedTimesOut(timeout, longer, side);
      KeepsSilent(timeout, run, step, more);
    }
  }

  lemma GrowsOnce(timeout: int, run: seq<State>, j: nat, conn: Side)
    requires Wrapped(timeout) && IsRun(timeout, run) && 0 < j < |run|
    requires run[j - 1].deadline.At(conn) <= run[j - 1].now + timeout
    ensures run[j - 1].deadline.At(conn) <= run[j].deadline.At(conn) <= run[j].now + timeout
  {
    assert NextAt(timeout, run, j);
    var step :| Enabled(timeout, run[j - 1], step) && run[j] == Apply(timeout, run[j - 1], step);
    StepCalls(timeout, run[j - 1], step, conn);
  }

  lemma {:induction false} DeadlinesGrow(timeout: int, run: seq<State>, i: nat, j: nat, conn: Side)
    requires Wrapped(timeout) && IsRun(timeout, run) && i <= j < |run|
    requires run[i].deadline.At(conn) <= run[i].now + timeout
    ensures run[i].deadline.At(conn) <= run[j].deadline.At(conn) <= run[j].now + timeout
  {
    if i < j {
      DeadlinesGrow(timeout, run, i, j - 1, conn);
      GrowsOnce(timeout, run, j, conn);
    }
  }

  /** The run goes on without another chunk until the Write times out, less than a timeout after
      the last one. */
  ghost predicate CutsShort(timeout: int, run: seq<State>, side: Side, more: seq<State>)
    requires run != []
  {
    && IsRun(timeout, more) && run <= more && Silent(more, |run| - 1)
    && Enabled(timeout, Last(more), Loop(side, WriteTimesOut))
    && Last(more).now < Last(more).last + timeout
  }

  /** Exactly when the idle timer is not shared: at a moment at which time passes, a delayed Write
      can be cut short of a timeout after the last chunk, without any more chunks coming, if and
      only if the connection it writes has not been called since that chunk. */
  lemma SharesUnlessUnattended(timeout: int, run: seq<State>, side: Side)
    requires timeout > 0 && IsRun(timeout, run) && !Last(run).returned
    requires Blocked(Last(run).copy.client) && Blocked(Last(run).copy.upstream) && Last(run).copy.At(side).pc.Writing?
    ensures (exists more :: CutsShort(timeout, run, side, more)) <==> !AttendedAt(run, |run| - 1, side)
  {
    var n := |run| - 1;
    RunCalls(timeout, run, n, Other(side));
    RunTimers(timeout, run, n);
    if AttendedAt(run, n, side) {
      forall more | IsRun(timeout, more) && run <= more && Silent(more, n)
        ensures !CutsShort(timeout, run, side, more)
      {
        SilenceIsFinite(timeout, more, n, |more| - 1);
        DeadlinesGrow(timeout, more, n, |more| - 1, Other(side));
      }
    } else {
      assert Starved(timeout, Last(run), side);
      var more := StarvedTimesOut(timeout, run, side);
      assert CutsShort(timeout, run, side, more);
    }
  }

  // ---------------------------------------------------------------------------
  // Runs in which the timer is not shared
  // ---------------------------------------------------------------------------

  function Ready(deadline: Pair<int>, now: int, client: Copy, upstream: Copy): State {
    State(now, deadline, Pair(false, false), Pair(client, upstream), 0, 0, Pair(false, false), Pair(0, 0), false)
  }

  /** Upstream's chunk is stuck in its Write. */
  lemma UpstreamStuck(timeout: int) returns (run: seq<State>)
    requires timeout > 1
    ensures IsRun(timeout, run)
    ensures Last(run) == Ready(Pair(timeout, timeout), 1,
      Copy(Reading, [], [], 0, 0, false), Copy(Writing("x", 0, false), "x", [], 0, 0, true))
  {
    run := BothReading(timeout);
    run := Extend(timeout, run, Loop(Upstream, ReadReturns("x", false)));
    run := Extend(timeout, run, Loop(Upstream, StartWrite));
    assert Last(run).copy.upstream.read == "x";
    run := Extend(timeout, run, Tick(1));
  }

  /** The client's first and final chunk overtakes it. */
  lemma Overtaken(timeout: int) returns (run: seq<State>)
    requires timeout > 1
    ensures IsRun(timeout, run)
    ensures Last(run) == State(
      1, Pair(timeout, timeout + 1), Pair(false, false),
      Pair(Copy(Finished, "y", "y", 1, 1, true), Copy(Writing("x", 0, false), "x", [], 0, 0, true)),
      1, 0, Pair(false, false), Pair(1, 0), false)
  {
    run := UpstreamStuck(timeout);
    run := Extend(timeout, run, Loop(Client, ReadReturns("y", true)));
    assert Last(run).copy.client.read == "y";
    run := Extend(timeout, run, Loop(Client, StartWrite));
    run := Extend(timeout, run, Loop(Client, Accept(1)));
    assert Last(run).copy.client.accepted == "y";
    run := Extend(timeout, run, Loop(Client, WriteReturns));
    run := Extend(timeout, run, Loop(Client, Finish));
  }

  /** One delayed Write is enough: it times out although the other direction has read a final
      chunk less than a timeout ago, and delivered it in full without delay. */
  lemma OneDelayedWriteBreaksSharing(timeout: int) returns (run: seq<State>)
    requires timeout > 1
    ensures IsRun(timeout, run) && Last(run).last < Last(run).before + timeout && Last(run).broken == Pair(false, false)
    ensures Enabled(timeout, Last(run), Loop(Upstream, WriteTimesOut))
    ensures Last(run).now < Last(run).last + timeout
    ensures Last(run).copy.client.pc.Finished? && Last(run).copy.client.accepted == "y"
    ensures Last(run).deadline.client < Last(run).copy.client.readAt + timeout
  {
    run := Overtaken(timeout);
    run := Extend(timeout, run, Tick(timeout - 1));
  }

  /** A Read can lose the race against a chunk in the other direction that comes just as the idle
      timer expires. */
  lemma LateChunkLosesTheRace(timeout: int) returns (run: seq<State>)
    requires timeout > 0
    ensures IsRun(timeout, run) && Last(run).broken == Pair(false, false)
    ensures Enabled(timeout, Last(run), Loop(Upstream, ReadTimesOut))
    ensures Last(run).now == Last(run).last == Last(run).before + timeout
  {
    run := BothReading(timeout);
    run := Extend(timeout, run, Tick(timeout));
    run := Extend(timeout, run, Loop(Client, ReadReturns("y", false)));
  }

  /** If setting the deadline fails, the chunk that was to be passed on is lost on the other
      connection's timer: a Read times out less than a timeout after it, in its own good time. */
  lemma BrokenReadTimesOutEarly(timeout: int) returns (run: seq<State>)
    requires timeout > 1
    ensures IsRun(timeout, run) && Last(run).broken == Pair(false, true)
    ensures Enabled(timeout, Last(run), Loop(Upstream, ReadTimesOut))
    ensures Last(run).last < Last(run).now < Last(run).last + timeout
  {
    run := BothReading(timeout);
    run := Extend(timeout, run, Tick(1));
    run := Extend(timeout, run, Loop(Client, ReadReturns("y", false)));
    run := Extend(timeout, run, Loop(Client, DeadlineFails));
    run := Extend(timeout, run, Loop(Client, Finish));
    run := Extend(timeout, run, Tick(timeout - 1));
  }

  lemma BothWriting(timeout: int) returns (run: seq<State>)
    requires timeout > 0
    ensures IsRun(timeout, run)
    ensures Last(run) == Ready(Pair(timeout, timeout), 0,
      Copy(Writing("y", 0, false), "y", [], 0, 0, true), Copy(Writing("x", 0, false), "x", [], 0, 0, true))
  {
    run := BothReading(timeout);
    run := Extend(timeout, run, Loop(Upstream, ReadReturns("x", false)));
    run := Extend(timeout, run, Loop(Upstream, StartWrite));
    run := Extend(timeout, run, Loop(Client, ReadReturns("y", false)));
    run := Extend(timeout, run, Loop(Client, StartWrite));
    assert Last(run).copy.upstream.read == "x" && Last(run).copy.client.read == "y";
  }

  lemma OneWriteOver(timeout: int) returns (run: seq<State>)
    requires timeout > 0
    ensures IsRun(timeout, run)
    ensures Last(run) == Ready(Pair(timeout, 2 * timeout), timeout,
      Copy(Writing("y", 0, false), "y", [], 0, 0, true), Copy(Reading, "x", "x", 1, 0, true))
  {
    run := BothWriting(timeout);
    run := Extend(timeout, run, Tick(timeout));
    run := Extend(timeout, run, Loop(Upstream, Accept(1)));
    assert Last(run).copy.upstream.accepted == "x";
    run := Extend(timeout, run, Loop(Upstream, WriteReturns));
    run := Extend(timeout, run, Loop(Upstream, StartRead));
  }

  lemma BothWritesOver(timeout: int) returns (run: seq<State>)
    requires timeout > 0
    ensures IsRun(timeout, run)
    ensures Last(run) == Ready(Pair(3 * timeout, 2 * timeout), 2 * timeout,
      Copy(Reading, "y", "y", 1, 0, true), Copy(Reading, "x", "x", 1, 0, true))
  {
    run := OneWriteOver(timeout);
    run := Extend(timeout, run, Tick(timeout));
    run := Extend(timeout, run, Loop(Client, Accept(1)));
    assert Last(run).copy.client.accepted == "y";
    run := Extend(timeout, run, Loop(Client, WriteReturns));
    run := Extend(timeout, run, Loop(Client, StartRead));
  }

  /** Three timeouts are reached: both Writes are delayed to the last moment, one after the other. */
  lemma ThreeTimeoutsAreReached(timeout: int) returns (run: seq<State>)
    requires timeout > 0
    ensures IsRun(timeout, run)
    ensures !Last(run).returned && Last(run).now == Last(run).last + 3 * timeout
  {
    run := BothWritesOver(timeout);
    run := Extend(timeout, run, Loop(Upstream, ReadTimesOut));
    run := Extend(timeout, run, Loop(Upstream, Finish));
    run := Extend(timeout, run, Tick(timeout));
  }
}
