/** How long a tunnel stays open: never more than three timeouts past the last chunk, and once no
    more chunks come it returns, whatever the peers do. */
module TunnelEnds {
  import opened Tunnel
  import opened TunnelTimers

  // ---------------------------------------------------------------------------
  // The clock
  // ---------------------------------------------------------------------------

  predicate Carries(c: Copy) {
    c.pc.Filled? || c.pc.Writing?
  }

  /** The latest time the tunnel can still be open, counted from the last chunk: one timeout, and
      one more for each loop whose Write has been delayed and is over. */
  function Horizon(timeout: int, s: State): int {
    var after := if Carries(s.copy.client) then s.last + timeout else s.last + 2 * timeout;
    if Carries(s.copy.upstream) then after else after + timeout
  }

  ghost predicate HorizonHolds(timeout: int, s: State, side: Side) {
    var c := s.copy.At(side);
    && (c.pc.Reading? ==> s.deadline.At(side) <= Horizon(timeout, s))
    && (c.pc.Writing? ==> s.deadline.At(Other(side)) <= Horizon(timeout, s))
    && (c.pc.Call? ==> s.now + timeout <= Horizon(timeout, s))
    && (c.pc.Filled? ==> s.now == s.last)
  }

  ghost predicate BoundHolds(timeout: int, s: State) {
    HorizonHolds(timeout, s, Client) && HorizonHolds(timeout, s, Upstream) && s.now <= s.last + 3 * timeout
  }

  /** A chunk sets the horizon a full timeout ahead at least; nothing else lowers it. */
  lemma HorizonMoves(timeout: int, s: State, side: Side, act: Act)
    requires Wrapped(timeout) && Enabled(timeout, s, Loop(side, act)) && s.last <= s.now
    ensures
      var h := Horizon(timeout, Apply(timeout, s, Loop(side, act)));
      && (act.ReadReturns? ==> h >= s.now + timeout)
      && (!act.ReadReturns? ==> h >= Horizon(timeout, s))
      && (act.WriteReturns? ==> h == Horizon(timeout, s) + timeout)
      && h >= s.last + timeout
  {
  }

  /** The loop that acts stays within the horizon. */
  lemma OwnHorizon(timeout: int, s: State, side: Side, act: Act)
    requires Wrapped(timeout) && Enabled(timeout, s, Loop(side, act))
    requires ClockHolds(timeout, s) && BoundHolds(timeout, s)
    ensures HorizonHolds(timeout, Apply(timeout, s, Loop(side, act)), side)
  {
    HorizonMoves(timeout, s, side, act);
  }

  /** So does the other one. */
  lemma OtherHorizon(timeout: int, s: State, side: Side, act: Act)
    requires Wrapped(timeout) && Enabled(timeout, s, Loop(side, act))
    requires ClockHolds(timeout, s) && BoundHolds(timeout, s)
    ensures HorizonHolds(timeout, Apply(timeout, s, Loop(side, act)), Other(side))
  {
    HorizonMoves(timeout, s, side, act);
  }

  lemma StepHorizon(timeout: int, s: State, step: Step)
    requires Wrapped(timeout) && Enabled(timeout, s, step) && ClockHolds(timeout, s) && BoundHolds(timeout, s)
    ensures
      var s' := Apply(timeout, s, step);
      HorizonHolds(timeout, s', Client) && HorizonHolds(timeout, s', Upstream)
  {
    if step.Loop? {
      OwnHorizon(timeout, s, step.side, step.act);
      OtherHorizon(timeout, s, step.side, step.act);
    }
  }

  lemma StepBound(timeout: int, s: State, step: Step)
    requires Wrapped(timeout) && Enabled(timeout, s, step) && ClockHolds(timeout, s) && BoundHolds(timeout, s)
    ensures BoundHolds(timeout, Apply(timeout, s, step))
  {
    StepHorizon(timeout, s, step);
  }

  /** Bound, whatever the peers do: once three timeouts have passed without a chunk in either
      direction, the tunnel has returned or does so without further delay. */
  lemma {:induction false} ReturnsWithinThreeTimeouts(timeout: int, run: seq<State>, i: nat)
    requires timeout > 0 && IsRun(timeout, run) && i < |run|
    ensures BoundHolds(timeout, run[i])
    ensures run[i].now <= run[i].last + 3 * timeout
  {
    if i > 0 {
      ReturnsWithinThreeTimeouts(timeout, run, i - 1);
      RunTimers(timeout, run, i - 1);
      var s := run[i - 1];
      assert NextAt(timeout, run, i);
      var step :| Enabled(timeout, s, step) && run[i] == Apply(timeout, s, step);
      StepBound(timeout, s, step);
    }
  }

  // ---------------------------------------------------------------------------
  // The way out
  // ---------------------------------------------------------------------------

  /** Steps the program takes by itself, without a peer. */
  predicate OwnAct(act: Act) {
    act.StartRead? || act.StartWrite? || act.WriteReturns? || act.Finish? || act.ReadTimesOut? || act.WriteTimesOut?
  }

  /** What the program can do on its own for a loop that is not blocked, or blocked for too long. */
  function OwnStep(c: Copy): Act {
    match c.pc
    case Call => StartRead
    case Reading => ReadTimesOut
    case Filled(_, _) => StartWrite
    case Writing(chunk, done, _) => if done == |chunk| then WriteReturns else WriteTimesOut
    case _ => Finish
  }

  /** The program does not wait for ever: in every reachable state of an open tunnel time can pass,
      or the program itself can move. */
  lemma NeverStuck(timeout: int, run: seq<State>, i: nat)
    requires IsRun(timeout, run) && i < |run| && !run[i].returned
    ensures
      || Enabled(timeout, run[i], Tick(1))
      || Enabled(timeout, run[i], Return)
      || exists side, act :: OwnAct(act) && Enabled(timeout, run[i], Loop(side, act))
  {
    var s := run[i];
    RunStreams(timeout, run, i);
    if Wrapped(timeout) {
      RunTimers(timeout, run, i);
    }
    if !Enabled(timeout, s, Tick(1)) && !Done(s) {
      assert
        || Enabled(timeout, s, Loop(Client, OwnStep(s.copy.client)))
        || Enabled(timeout, s, Loop(Upstream, OwnStep(s.copy.upstream)));
    }
  }

  /** How many steps a loop can take before it blocks for good, if it reads nothing more. */
  function LoopWork(c: Copy): int {
    match c.pc
    case Call => 3
    case Reading => 2
    case Filled(chunk, _) => 5 + |chunk|
    case Writing(chunk, done, _) => 4 + |chunk| - done
    case Ended => 1
    case Finished => 0
  }

  /** What is left to do, and the time left to do it. */
  function Remaining(timeout: int, s: State): int {
    LoopWork(s.copy.client) + LoopWork(s.copy.upstream) + (if s.returned then 0 else 1) + s.last + 3 * timeout - s.now
  }

  predicate ReadsNothing(step: Step) {
    step.Loop? ==> !step.act.ReadReturns?
  }

  lemma ActWorks(c: Copy, act: Act, now: int)
    requires Fits(c, act) && StreamHolds(c) && !act.ReadReturns?
    ensures LoopWork(Advance(c, act, now)) < LoopWork(c)
  {
  }

  lemma StepRemaining(timeout: int, s: State, step: Step)
    requires Enabled(timeout, s, step) && ReadsNothing(step) && StreamsHold(timeout, s)
    ensures Remaining(timeout, Apply(timeout, s, step)) < Remaining(timeout, s)
    ensures Apply(timeout, s, step).last == s.last
  {
    if step.Loop? {
      ActWorks(s.copy.At(step.side), step.act, s.now);
    }
  }

  lemma RemainingIsPositive(timeout: int, run: seq<State>, i: nat)
    requires Wrapped(timeout) && IsRun(timeout, run) && i < |run|
    ensures Remaining(timeout, run[i]) >= 0
  {
    ReturnsWithinThreeTimeouts(timeout, run, i);
    RunStreams(timeout, run, i);
  }

  predicate SameReads(s: State, s': State) {
    s'.copy.client.read == s.copy.client.read && s'.copy.upstream.read == s.copy.upstream.read
  }

  predicate SilentAt(run: seq<State>, k: nat)
    requires 0 < k < |run|
  {
    SameReads(run[k - 1], run[k])
  }

  /** From state i on no chunk is read in either direction. */
  ghost predicate Silent(run: seq<State>, i: nat) {
    forall k :: i < k < |run| ==> SilentAt(run, k)
  }

  lemma ReadGrows(timeout: int, s: State, step: Step)
    requires Enabled(timeout, s, step) && !ReadsNothing(step)
    ensures |Apply(timeout, s, step).copy.At(step.side).read| > |s.copy.At(step.side).read|
  {
  }

  lemma SilentStep(timeout: int, s: State, s': State) returns (step: Step)
    requires Next(timeout, s, s') && SameReads(s, s')
    ensures Enabled(timeout, s, step) && s' == Apply(timeout, s, step) && ReadsNothing(step)
  {
    step :| Enabled(timeout, s, step) && s' == Apply(timeout, s, step);
    if !ReadsNothing(step) {
      ReadGrows(timeout, s, step);
      assert false;
    }
  }

  lemma SilentMove(timeout: int, s: State, s': State)
    requires Next(timeout, s, s') && SameReads(s, s') && StreamsHold(timeout, s)
    ensures Remaining(timeout, s') < Remaining(timeout, s) && s'.last == s.last
  {
    var step := SilentStep(timeout, s, s');
    StepRemaining(timeout, s, step);
  }

  /** Silence cannot last: the steps that follow the last chunk are bounded in number. */
  lemma {:induction false} SilenceIsFinite(timeout: int, run: seq<State>, i: nat, j: nat)
    requires timeout > 0 && IsRun(timeout, run) && Silent(run, i) && i <= j < |run|
    ensures j - i <= Remaining(timeout, run[i]) - Remaining(timeout, run[j]) <= Remaining(timeout, run[i])
    ensures run[j].last == run[i].last
  {
    RemainingIsPositive(timeout, run, j);
    if i < j {
      SilenceIsFinite(timeout, run, i, j - 1);
      RunStreams(timeout, run, j - 1);
      assert SilentAt(run, j) && NextAt(timeout, run, j);
      SilentMove(timeout, run[j - 1], run[j]);
    }
  }

  /** A step out of an open tunnel that needs no chunk; if the peers drain without delay, none of
      it lets time pass on a Write. */
  lemma StepOut(timeout: int, run: seq<State>, drain: bool) returns (step: Step)
    requires Wrapped(timeout) && IsRun(timeout, run) && !Last(run).returned
    ensures Enabled(timeout, Last(run), step) && ReadsNothing(step)
    ensures drain && step.Tick? ==> !Last(run).copy.client.pc.Writing? && !Last(run).copy.upstream.pc.Writing?
  {
    var s := Last(run);
    RunStreams(timeout, run, |run| - 1);
    if drain && s.copy.client.pc.Writing? {
      step := Loop(Client, Drained(s.copy.client));
    } else if drain && s.copy.upstream.pc.Writing? {
      step := Loop(Upstream, Drained(s.copy.upstream));
    } else {
      NeverStuck(timeout, run, |run| - 1);
      if Enabled(timeout, s, Tick(1)) {
        step := Tick(1);
      } else if Enabled(timeout, s, Return) {
        step := Return;
      } else {
        var side, act :| OwnAct(act) && Enabled(timeout, s, Loop(side, act));
        step := Loop(side, act);
      }
    }
  }

  /** What a Write does whose peer accepts everything. */
  function Drained(c: Copy): Act
    requires c.pc.Writing? && c.pc.done <= |c.pc.chunk|
  {
    if c.pc.done == |c.pc.chunk| then WriteReturns else Accept(|c.pc.chunk| - c.pc.done)
  }

  /** Peers that drain writes without delay: no time passes while a Write is pending. */
  ghost predicate PromptStep(s: State, s': State) {
    s'.now != s.now ==> !s.copy.client.pc.Writing? && !s.copy.upstream.pc.Writing?
  }

  ghost predicate Prompt(run: seq<State>) {
    forall i :: 0 < i < |run| ==> PromptStep(run[i - 1], run[i])
  }

  /** An open tunnel in which no more chunks are read returns: from every reachable state there is
      a silent way to the end, along which peers may go on draining without delay; and by
      SilenceIsFinite every silent way is one if it is gone on with as long as it can be. */
  lemma {:induction false} SilentTunnelReturns(timeout: int, run: seq<State>, drain: bool) returns (more: seq<State>)
    requires timeout > 0 && IsRun(timeout, run)
    ensures IsRun(timeout, more) && run <= more && Silent(more, |run| - 1)
    ensures Last(more).returned && Last(more).last == Last(run).last
    ensures drain && Prompt(run) ==> Prompt(more)
    decreases Remaining(timeout, Last(run))
  {
    more := run;
    if !Last(run).returned {
      RemainingIsPositive(timeout, run, |run| - 1);
      RunStreams(timeout, run, |run| - 1);
      var step := StepOut(timeout, run, drain);
      StepRemaining(timeout, Last(run), step);
      var longer := Extend(timeout, run, step);
      more := SilentTunnelReturns(timeout, longer, drain);
      KeepsSilent(timeout, run, step, more);
      assert drain && Prompt(run) ==> Prompt(longer);
    }
  }

  lemma KeepsSilent(timeout: int, run: seq<State>, step: Step, more: seq<State>)
    requires run != [] && Enabled(timeout, Last(run), step) && ReadsNothing(step)
    requires run + [Apply(timeout, Last(run), step)] <= more && Silent(more, |run|)
    ensures run <= more && Silent(more, |run| - 1)
  {
    assert more[|run|] == Apply(timeout, Last(run), step) && more[|run| - 1] == Last(run);
    assert SilentAt(more, |run|);
  }
}
