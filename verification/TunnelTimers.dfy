/** When operations of a wrapped tunnel time out: each exactly one timeout after the last call on
    its connection, and how that relates to the last chunk read in either direction. */
module TunnelTimers {
  import opened Text
  import opened Tunnel

  // ---------------------------------------------------------------------------
  // Deadlines
  // ---------------------------------------------------------------------------

  /** Between the two states a Read or a Write on the connection was made. */
  predicate Called(s: State, s': State, conn: Side) {
    || (s.copy.At(conn).pc.Call? && s'.copy.At(conn).pc.Reading?)
    || (s.copy.At(Other(conn)).pc.Filled? && s'.copy.At(Other(conn)).pc.Writing?)
  }

  /** When the last Read or Write on the connection was made; None before the first. */
  function CalledAt(run: seq<State>, i: nat, conn: Side): Option<int>
    requires i < |run|
  {
    if i == 0 then None
    else if Called(run[i - 1], run[i], conn) then Some(run[i].now)
    else CalledAt(run, i - 1, conn)
  }

  /** A Read or a Write is pending on the connection. */
  predicate Pending(s: State, conn: Side) {
    s.copy.At(conn).pc.Reading? || s.copy.At(Other(conn)).pc.Writing?
  }

  /** One step sets the deadline if it makes a call, and leaves it alone otherwise. */
  lemma StepCalls(timeout: int, s: State, step: Step, conn: Side)
    requires Wrapped(timeout) && Enabled(timeout, s, step)
    ensures
      var s' := Apply(timeout, s, step);
      && s.now <= s'.now
      && (Called(s, s', conn) ==> s'.deadline.At(conn) == s'.now + timeout)
      && (!Called(s, s', conn) ==> s'.deadline.At(conn) == s.deadline.At(conn))
      && (!Called(s, s', conn) && Pending(s', conn) ==> Pending(s, conn))
  {
    if step.Loop? {
      var s' := Apply(timeout, s, step);
      assert step.side == conn || step.side == Other(conn);
      assert s'.copy.At(Other(step.side)) == s.copy.At(Other(step.side));
    }
  }

  lemma {:induction false} RunCalls(timeout: int, run: seq<State>, i: nat, conn: Side)
    requires Wrapped(timeout) && IsRun(timeout, run) && i < |run|
    ensures Pending(run[i], conn) ==> CalledAt(run, i, conn).Some?
    ensures CalledAt(run, i, conn).Some? ==>
      var t := CalledAt(run, i, conn).value;
      t <= run[i].now && run[i].deadline.At(conn) == t + timeout
  {
    if i > 0 {
      RunCalls(timeout, run, i - 1, conn);
      assert NextAt(timeout, run, i);
      var step :| Enabled(timeout, run[i - 1], step) && run[i] == Apply(timeout, run[i - 1], step);
      StepCalls(timeout, run[i - 1], step, conn);
    }
  }

  /** No pending operation outlives its deadline, no deadline is more than a timeout ahead, and
      chunks are read in the past. */
  ghost predicate ClockHolds(timeout: int, s: State) {
    && InTime(s, Client, s.now) && InTime(s, Upstream, s.now)
    && (forall conn :: Pending(s, conn) ==> s.deadline.At(conn) <= s.now + timeout)
    && s.copy.client.readAt <= s.last <= s.now && s.copy.upstream.readAt <= s.last && s.before <= s.last
  }

  lemma StepClock(timeout: int, s: State, step: Step)
    requires Wrapped(timeout) && Enabled(timeout, s, step) && ClockHolds(timeout, s)
    ensures ClockHolds(timeout, Apply(timeout, s, step))
  {
    StepCalls(timeout, s, step, Client);
    StepCalls(timeout, s, step, Upstream);
  }

  // ---------------------------------------------------------------------------
  // Chunks
  // ---------------------------------------------------------------------------

  predicate Over(c: Copy) {
    c.pc.Ended? || c.pc.Finished?
  }

  /** A broken connection has cost one of the two loops its life. */
  ghost predicate BrokenHolds(s: State) {
    && (s.broken.client || s.broken.upstream ==> Over(s.copy.client) || Over(s.copy.upstream))
  }

  /** What reading, writing and reading again does to the deadlines of both connections. */
  ghost predicate PushHolds(timeout: int, s: State, side: Side) {
    var c := s.copy.At(side);
    && (c.pc.Filled? ==> c.readAt == s.now && c.relayed)
    && (c.pc.Reading? ==> s.deadline.At(side) >= c.readAt + timeout)
    && (c.relayed && !c.pc.Filled? && !(Over(c) && s.broken.At(Other(side))) ==>
        s.deadline.At(Other(side)) >= c.readAt + timeout)
    && (c.pc.Writing? ==> c.relayed)
  }

  /** The last chunk is one loop's last chunk, or there was none yet. */
  ghost predicate LastHolds(s: State) {
    && (s.last == s.copy.client.readAt || s.last == s.copy.upstream.readAt)
    && (!s.copy.client.relayed ==> s.copy.client.readAt <= s.copy.upstream.readAt)
    && (!s.copy.upstream.relayed ==> s.copy.upstream.readAt <= s.copy.client.readAt)
  }

  /** Every pending Read has its whole timeout from the last chunk in either direction, except in
      the instant between a chunk's arrival and the Write that passes it on. */
  ghost predicate ReadsLast(timeout: int, s: State, side: Side) {
    s.copy.At(side).pc.Reading? && !s.broken.At(side) && !s.copy.At(Other(side)).pc.Filled? ==>
      s.deadline.At(side) >= s.last + timeout
  }

  /** Every pending operation has its whole timeout from the last chunk but one. */
  ghost predicate BeforeHolds(timeout: int, s: State, conn: Side) {
    Pending(s, conn) ==> s.deadline.At(conn) >= s.before + timeout
  }

  ghost predicate TimersHold(timeout: int, s: State) {
    && ClockHolds(timeout, s) && LastHolds(s) && BrokenHolds(s)
    && PushHolds(timeout, s, Client) && PushHolds(timeout, s, Upstream)
    && ReadsLast(timeout, s, Client) && ReadsLast(timeout, s, Upstream)
    && BeforeHolds(timeout, s, Client) && BeforeHolds(timeout, s, Upstream)
  }

  /** What the loop's own acts do to it. */
  lemma OwnPush(timeout: int, s: State, side: Side, act: Act)
    requires Wrapped(timeout) && Enabled(timeout, s, Loop(side, act))
    requires ClockHolds(timeout, s) && PushHolds(timeout, s, side)
    ensures PushHolds(timeout, Apply(timeout, s, Loop(side, act)), side)
  {
  }

  /** A call sets the deadline to at least a timeout after every chunk read so far. */
  lemma OtherPush(timeout: int, s: State, side: Side, act: Act)
    requires Wrapped(timeout) && Enabled(timeout, s, Loop(Other(side), act))
    requires ClockHolds(timeout, s) && PushHolds(timeout, s, side)
    ensures PushHolds(timeout, Apply(timeout, s, Loop(Other(side), act)), side)
  {
    var step := Loop(Other(side), act);
    var s' := Apply(timeout, s, step);
    StepCalls(timeout, s, step, side);
    StepCalls(timeout, s, step, Other(side));
    assert s'.copy.At(side) == s.copy.At(side) && s'.now == s.now;
  }

  lemma StepPush(timeout: int, s: State, step: Step, side: Side)
    requires Wrapped(timeout) && Enabled(timeout, s, step) && ClockHolds(timeout, s) && PushHolds(timeout, s, side)
    ensures PushHolds(timeout, Apply(timeout, s, step), side)
  {
    if step.Loop? {
      if step.side == side {
        OwnPush(timeout, s, side, step.act);
      } else {
        OtherPush(timeout, s, side, step.act);
      }
    }
  }

  lemma StepLast(timeout: int, s: State, step: Step)
    requires Enabled(timeout, s, step) && ClockHolds(timeout, s) && LastHolds(s)
    ensures LastHolds(Apply(timeout, s, step))
  {
    if step.Loop? {
      var c := s.copy.At(step.side);
      assert !step.act.ReadReturns? ==>
        Advance(c, step.act, s.now).readAt == c.readAt && Advance(c, step.act, s.now).relayed == c.relayed;
    }
  }

  lemma StepBroken(timeout: int, s: State, step: Step)
    requires Enabled(timeout, s, step) && BrokenHolds(s)
    ensures BrokenHolds(Apply(timeout, s, step))
  {
    if step.Loop? {
      var c := s.copy.At(step.side);
      assert Over(c) || step.act.DeadlineFails? ==> Over(Advance(c, step.act, s.now));
    }
  }

  lemma StepReadsLast(timeout: int, s: State, step: Step, side: Side)
    requires Wrapped(timeout) && Enabled(timeout, s, step) && TimersHold(timeout, s)
    ensures ReadsLast(timeout, Apply(timeout, s, step), side)
  {
    StepCalls(timeout, s, step, side);
    if step.Loop? {
      assert step.side == side || step.side == Other(side);
    }
  }

  /** A chunk makes the last chunk the last but one; what stays pending then was a Read, or shared
      its connection with one, and had its whole timeout from that chunk. */
  lemma StepBefore(timeout: int, s: State, step: Step, conn: Side)
    requires Wrapped(timeout) && Enabled(timeout, s, step) && TimersHold(timeout, s)
    ensures BeforeHolds(timeout, Apply(timeout, s, step), conn)
  {
    StepCalls(timeout, s, step, conn);
    StepClock(timeout, s, step);
    if step.Loop? {
      assert step.side == conn || step.side == Other(conn);
    }
  }

  lemma {:induction false} RunTimers(timeout: int, run: seq<State>, i: nat)
    requires Wrapped(timeout) && IsRun(timeout, run) && i < |run|
    ensures TimersHold(timeout, run[i])
  {
    if i > 0 {
      RunTimers(timeout, run, i - 1);
      var s := run[i - 1];
      assert NextAt(timeout, run, i);
      var step :| Enabled(timeout, s, step) && run[i] == Apply(timeout, s, step);
      StepClock(timeout, s, step);
      StepLast(timeout, s, step);
      StepBroken(timeout, s, step);
      StepPush(timeout, s, step, Client);
      StepPush(timeout, s, step, Upstream);
      StepReadsLast(timeout, s, step, Client);
      StepReadsLast(timeout, s, step, Upstream);
      StepBefore(timeout, s, step, Client);
      StepBefore(timeout, s, step, Upstream);
    }
  }

  // ---------------------------------------------------------------------------
  // Theorems over every run
  // ---------------------------------------------------------------------------

  /** The connection a loop's timeout is about. */
  function TimesOutOn(side: Side, act: Act): Side {
    if act.ReadTimesOut? then side else Other(side)
  }

  predicate IsTimeout(act: Act) {
    act.ReadTimesOut? || act.WriteTimesOut?
  }

  /** The deadline is one timeout after the last call on the connection, no pending operation
      outlives it, and an operation can time out at that very moment only. */
  lemma DeadlineIsLastCall(timeout: int, run: seq<State>, i: nat, conn: Side)
    requires timeout > 0 && IsRun(timeout, run) && i < |run|
    ensures CalledAt(run, i, conn).Some? ==>
      CalledAt(run, i, conn).value <= run[i].now && run[i].deadline.At(conn) == CalledAt(run, i, conn).value + timeout
    ensures Pending(run[i], conn) ==>
      CalledAt(run, i, conn).Some? && run[i].now <= CalledAt(run, i, conn).value + timeout
    ensures forall side, act ::
      IsTimeout(act) && TimesOutOn(side, act) == conn && Enabled(timeout, run[i], Loop(side, act)) ==>
        CalledAt(run, i, conn).Some? && run[i].now == CalledAt(run, i, conn).value + timeout
  {
    RunCalls(timeout, run, i, conn);
    RunTimers(timeout, run, i);
  }

  /** Whatever times out, Read or Write, on a connection that is broken or not, does so less than a
      timeout after the last chunk exactly if its connection has not been called since that
      chunk. */
  lemma EarlyTimeoutsExactly(timeout: int, run: seq<State>, i: nat, side: Side, act: Act)
    requires timeout > 0 && IsRun(timeout, run) && i < |run|
    requires IsTimeout(act) && Enabled(timeout, run[i], Loop(side, act))
    ensures CalledAt(run, i, TimesOutOn(side, act)).Some?
    ensures run[i].now < run[i].last + timeout <==> CalledAt(run, i, TimesOutOn(side, act)).value < run[i].last
  {
    DeadlineIsLastCall(timeout, run, i, TimesOutOn(side, act));
  }

  /** Whatever the peers do, at most one chunk is overlooked: nothing times out less than a
      timeout after the last chunk but one, in either direction. A Read on a connection that is not
      broken times out less than a timeout after the last chunk itself exactly if that chunk has
      arrived in this very instant and is about to be passed on; a Write never does so after the
      chunk it carries. */
  lemma TimeoutsAreGenuine(timeout: int, run: seq<State>, i: nat, side: Side)
    requires timeout > 0 && IsRun(timeout, run) && i < |run|
    ensures
      var s := run[i];
      forall act :: IsTimeout(act) && Enabled(timeout, s, Loop(side, act)) ==> s.now >= s.before + timeout
    ensures
      var s := run[i];
      Enabled(timeout, s, Loop(side, ReadTimesOut)) && !s.broken.At(side) ==>
        (s.now < s.last + timeout <==> s.copy.At(Other(side)).pc.Filled?)
    ensures
      var s := run[i];
      Enabled(timeout, s, Loop(side, WriteTimesOut)) ==> s.now >= s.copy.At(side).readAt + timeout
  {
    RunTimers(timeout, run, i);
  }

  /** A pending Write whose deadline leaves the last chunk out of account. */
  lemma OverlookedChunk(timeout: int, s: State, side: Side)
    requires TimersHold(timeout, s) && s.copy.At(side).pc.Writing? && s.deadline.At(Other(side)) < s.last + timeout
    ensures
      var other := s.copy.At(Other(side));
      other.relayed && other.readAt == s.last && !other.pc.Reading?
  {
  }

  /** A Write times out less than a timeout after the last chunk exactly if the connection it
      writes has not been called since that chunk. It is then the other loop that read
      the chunk, and it has not called Read again. */
  lemma EarlyWriteTimeouts(timeout: int, run: seq<State>, i: nat, side: Side)
    requires timeout > 0 && IsRun(timeout, run) && i < |run|
    requires Enabled(timeout, run[i], Loop(side, WriteTimesOut))
    ensures CalledAt(run, i, Other(side)).Some?
    ensures run[i].now < run[i].last + timeout <==> CalledAt(run, i, Other(side)).value < run[i].last
    ensures
      var s := run[i];
      var other := s.copy.At(Other(side));
      s.now < s.last + timeout ==>
        other.relayed && other.readAt == s.last && !other.pc.Reading?
  {
    DeadlineIsLastCall(timeout, run, i, Other(side));
    RunTimers(timeout, run, i);
    if run[i].now < run[i].last + timeout {
      OverlookedChunk(timeout, run[i], side);
    }
  }

  /** Passing on a chunk pushes the destination's deadline to a full timeout past the moment the
      chunk was read. The source's deadline is there exactly if the source has been called since,
      and so as soon as its loop reads again; after a final chunk it need not be. */
  lemma RelayPushesBoth(timeout: int, run: seq<State>, i: nat, side: Side)
    requires timeout > 0 && IsRun(timeout, run) && i < |run|
    requires run[i].copy.At(side).relayed && !run[i].copy.At(side).pc.Filled?
    ensures
      var s := run[i];
      var c := s.copy.At(side);
      && (!(Over(c) && s.broken.At(Other(side))) ==> s.deadline.At(Other(side)) >= c.readAt + timeout)
      && (CalledAt(run, i, side).Some? ==>
          (s.deadline.At(side) >= c.readAt + timeout <==> CalledAt(run, i, side).value >= c.readAt))
      && (c.pc.Reading? ==> s.deadline.At(side) >= c.readAt + timeout)
  {
    RunCalls(timeout, run, i, side);
    RunTimers(timeout, run, i);
  }

  // ---------------------------------------------------------------------------
  // Delayed Writes
  // ---------------------------------------------------------------------------

  /** The connection a pending Write goes to has been called since the last chunk. */
  ghost predicate AttendedAt(run: seq<State>, i: nat, side: Side)
    requires i < |run|
  {
    run[i].copy.At(side).pc.Writing? ==>
      CalledAt(run, i, Other(side)).Some? && CalledAt(run, i, Other(side)).value >= run[i].last
  }

  /** No time passes on a pending Write whose connection has not been called since the last
      chunk. */
  ghost predicate Attended(run: seq<State>) {
    forall i :: 0 < i < |run| && run[i].now != run[i - 1].now ==>
      AttendedAt(run, i - 1, Client) && AttendedAt(run, i - 1, Upstream)
  }

  ghost predicate DelayHolds(timeout: int, s: State, side: Side) {
    s.copy.At(side).pc.Writing? && s.deadline.At(Other(side)) < s.last + timeout ==> s.now == s.last
  }

  lemma StepDelay(timeout: int, s: State, step: Step, side: Side)
    requires Wrapped(timeout) && Enabled(timeout, s, step) && ClockHolds(timeout, s) && DelayHolds(timeout, s, side)
    requires Apply(timeout, s, step).now != s.now && s.copy.At(side).pc.Writing? ==>
      s.deadline.At(Other(side)) >= s.last + timeout
    ensures DelayHolds(timeout, Apply(timeout, s, step), side)
  {
    StepCalls(timeout, s, step, Other(side));
  }

  lemma AttendedDeadline(timeout: int, run: seq<State>, i: nat, side: Side)
    requires Wrapped(timeout) && IsRun(timeout, run) && Attended(run) && 0 < i < |run|
    requires run[i].now != run[i - 1].now && run[i - 1].copy.At(side).pc.Writing?
    ensures run[i - 1].deadline.At(Other(side)) >= run[i - 1].last + timeout
  {
    RunCalls(timeout, run, i - 1, Other(side));
    assert AttendedAt(run, i - 1, side);
  }

  lemma {:induction false} RunDelay(timeout: int, run: seq<State>, i: nat, side: Side)
    requires Wrapped(timeout) && IsRun(timeout, run) && Attended(run) && i < |run|
    ensures DelayHolds(timeout, run[i], side)
  {
    if i > 0 {
      RunDelay(timeout, run, i - 1, side);
      RunTimers(timeout, run, i - 1);
      if run[i].now != run[i - 1].now && run[i - 1].copy.At(side).pc.Writing? {
        AttendedDeadline(timeout, run, i, side);
      }
      assert NextAt(timeout, run, i);
      var step :| Enabled(timeout, run[i - 1], step) && run[i] == Apply(timeout, run[i - 1], step);
      StepDelay(timeout, run[i - 1], step, side);
    }
  }

  /** Survival: in a run in which delayed Writes are attended to, nothing times out less than a
      timeout after the last chunk, unless that chunk came in this very instant and itself a full
      timeout after the one before it. So as long as successive chunks in either direction are
      less than a timeout apart nothing times out, even if one direction is silent for ever. */
  lemma AttendedRunsSurvive(timeout: int, run: seq<State>, i: nat, side: Side, act: Act)
    requires timeout > 0 && IsRun(timeout, run) && Attended(run) && i < |run|
    requires IsTimeout(act) && Enabled(timeout, run[i], Loop(side, act))
    requires act.ReadTimesOut? ==> !run[i].broken.At(side)
    ensures
      var s := run[i];
      s.now >= s.last + timeout || (s.now == s.last && s.last >= s.before + timeout)
  {
    RunTimers(timeout, run, i);
    RunDelay(timeout, run, i, side);
  }
}
