/** The CONNECT tunnel: two copy loops over two connections, each wrapped so that every Read and
    Write first moves that connection's deadline to now + timeout.

    Time passes only while every loop is blocked in a Read or a Write or has finished; the steps
    of the program itself take none. A connection's deadline bounds every operation pending on
    it: time does not pass beyond it, and at that moment the operation may time out. */
module Tunnel {
  import opened Text

  /** The buffer io.Copy reads into. */
  const BUFFER: nat := 32768

  /** The two connections. A copy loop is named after the connection it reads; it writes the
      other one. */
  datatype Side = Client | Upstream

  function Other(side: Side): Side {
    if side.Client? then Upstream else Client
  }

  datatype Pair<T> = Pair(client: T, upstream: T) {
    function At(side: Side): T {
      if side.Client? then client else upstream
    }

    function With(side: Side, value: T): Pair<T> {
      if side.Client? then this.(client := value) else this.(upstream := value)
    }
  }

  datatype Pc =
    | Call                                           // about to Read
    | Reading                                        // Read pending
    | Filled(chunk: Bytes, last: bool)               // Read returned bytes; last: with an error
    | Writing(chunk: Bytes, done: nat, last: bool)   // Write pending, `done` bytes accepted
    | Ended                                          // io.Copy has returned
    | Finished                                       // count assigned, half-close forwarded

  datatype Copy = Copy(
    pc: Pc,
    read: Bytes,       // everything read from the source
    accepted: Bytes,   // everything the destination has accepted
    copied: nat,       // io.Copy's own count
    readAt: int,       // when the last chunk was read (the start of the tunnel before that)
    relayed: bool)     // a chunk has been read

  datatype State = State(
    now: int,
    deadline: Pair<int>,
    broken: Pair<bool>,     // a SetDeadline on the connection has failed
    copy: Pair<Copy>,
    last: int,              // when a chunk was last read in either direction
    before: int,            // when the chunk before that one was read
    closed: Pair<bool>,     // CloseWrite called on the connection
    count: Pair<nat>,       // bytesOut (client side) and bytesIn (upstream side)
    returned: bool)

  /** What one loop can do next. */
  datatype Act =
    | StartRead | ReadReturns(chunk: Bytes, last: bool) | ReadFails | ReadTimesOut
    | StartWrite | Accept(n: nat) | WriteReturns | WriteFails | WriteTimesOut
    | DeadlineFails | Finish

  datatype Step = Loop(side: Side, act: Act) | Return | Tick(d: int)

  predicate Fits(c: Copy, act: Act) {
    match act
    case StartRead => c.pc.Call?
    case ReadReturns(chunk, last) => c.pc.Reading? && 0 < |chunk| <= BUFFER
    case ReadFails => c.pc.Reading?
    case ReadTimesOut => c.pc.Reading?
    case StartWrite => c.pc.Filled?
    case Accept(n) => c.pc.Writing? && 0 < n <= |c.pc.chunk| - c.pc.done
    case WriteReturns => c.pc.Writing? && c.pc.done == |c.pc.chunk|
    case WriteFails => c.pc.Writing?
    case WriteTimesOut => c.pc.Writing? && c.pc.done < |c.pc.chunk|
    case DeadlineFails => c.pc.Call? || c.pc.Filled?
    case Finish => c.pc.Ended?
  }

  function Advance(c: Copy, act: Act, now: int): Copy
    requires Fits(c, act)
  {
    match act
    case StartRead => c.(pc := Reading)
    case ReadReturns(chunk, last) =>
      c.(pc := Filled(chunk, last), read := c.read + chunk, readAt := now, relayed := true)
    case ReadFails => c.(pc := Ended)
    case ReadTimesOut => c.(pc := Ended)
    case StartWrite => c.(pc := Writing(c.pc.chunk, 0, c.pc.last))
    case Accept(n) =>
      c.(pc := c.pc.(done := c.pc.done + n), accepted := c.accepted + c.pc.chunk[c.pc.done..c.pc.done + n])
    case WriteReturns => c.(pc := if c.pc.last then Ended else Call, copied := c.copied + |c.pc.chunk|)
    case WriteFails => c.(pc := Ended, copied := c.copied + c.pc.done)
    case WriteTimesOut => c.(pc := Ended, copied := c.copied + c.pc.done)
    case DeadlineFails => c.(pc := Ended)
    case Finish => c.(pc := Finished)
  }

  /** The connections as wrapIdleTimeout leaves them. */
  predicate Wrapped(timeout: int) {
    timeout > 0
  }

  /** The deadlines are left over from the handshake; every operation sets its own before it is
      made. */
  predicate Init(s: State) {
    var idle := Copy(Call, [], [], 0, s.now, false);
    s == State(s.now, s.deadline, Pair(false, false), Pair(idle, idle), s.now, s.now,
               Pair(false, false), Pair(0, 0), false)
  }

  /** The loop waits for a peer, or has finished. A Write with everything accepted returns. */
  predicate Blocked(c: Copy) {
    c.pc.Reading? || (c.pc.Writing? && c.pc.done < |c.pc.chunk|) || c.pc.Finished?
  }

  predicate Done(s: State) {
    s.copy.client.pc.Finished? && s.copy.upstream.pc.Finished?
  }

  /** The loop's pending operation, if any, is still within its connection's deadline at t. */
  predicate InTime(s: State, side: Side, t: int) {
    && (s.copy.At(side).pc.Reading? ==> t <= s.deadline.At(side))
    && (s.copy.At(side).pc.Writing? ==> t <= s.deadline.At(Other(side)))
  }

  predicate Enabled(timeout: int, s: State, step: Step) {
    !s.returned &&
    match step
    case Loop(side, act) =>
      && Fits(s.copy.At(side), act)
      && (act.ReadTimesOut? ==> Wrapped(timeout) && s.now >= s.deadline.At(side))
      && (act.WriteTimesOut? ==> Wrapped(timeout) && s.now >= s.deadline.At(Other(side)))
      && (act.DeadlineFails? ==> Wrapped(timeout))
    case Return => Done(s)
    case Tick(d) =>
      && d > 0 && !Done(s)
      && Blocked(s.copy.client) && Blocked(s.copy.upstream)
      && (Wrapped(timeout) ==> InTime(s, Client, s.now + d) && InTime(s, Upstream, s.now + d))
  }

  /** The effect of a loop's act beyond the loop itself. A wrapped connection's deadline is pushed
      on entry to Read and Write; the wrapper has no CloseWrite method, so a half-close is
      forwarded to bare connections only. */
  function Around(timeout: int, s: State, side: Side, act: Act): State
    requires Fits(s.copy.At(side), act)
  {
    var c := s.copy.At(side);
    match act
    case StartRead => if Wrapped(timeout) then s.(deadline := s.deadline.With(side, s.now + timeout)) else s
    case StartWrite => if Wrapped(timeout) then s.(deadline := s.deadline.With(Other(side), s.now + timeout)) else s
    case ReadReturns(_, _) => s.(last := s.now, before := s.last)
    case DeadlineFails => s.(broken := s.broken.With(if c.pc.Call? then side else Other(side), true))
    case Finish =>
      s.(count := s.count.With(side, c.copied),
         closed := if Wrapped(timeout) then s.closed else s.closed.With(Other(side), true))
    case _ => s
  }

  function Apply(timeout: int, s: State, step: Step): State
    requires Enabled(timeout, s, step)
  {
    match step
    case Loop(side, act) =>
      Around(timeout, s, side, act).(copy := s.copy.With(side, Advance(s.copy.At(side), act, s.now)))
    case Return => s.(returned := true)
    case Tick(d) => s.(now := s.now + d)
  }

  ghost predicate Next(timeout: int, s: State, s': State) {
    exists step :: Enabled(timeout, s, step) && s' == Apply(timeout, s, step)
  }

  ghost predicate NextAt(timeout: int, run: seq<State>, i: nat)
    requires 0 < i < |run|
  {
    Next(timeout, run[i - 1], run[i])
  }

  ghost predicate IsRun(timeout: int, run: seq<State>) {
    && run != [] && Init(run[0])
    && forall i :: 0 < i < |run| ==> NextAt(timeout, run, i)
  }

  // ---------------------------------------------------------------------------
  // Streams
  // ---------------------------------------------------------------------------

  /** What a loop has read but its destination not accepted. */
  function InFlight(c: Copy): Bytes
    requires c.pc.Writing? ==> c.pc.done <= |c.pc.chunk|
  {
    match c.pc
    case Filled(chunk, _) => chunk
    case Writing(chunk, done, _) => chunk[done..]
    case _ => []
  }

  ghost predicate StreamHolds(c: Copy) {
    && (c.pc.Writing? ==> 0 < |c.pc.chunk| <= BUFFER && c.pc.done <= |c.pc.chunk|)
    && (c.pc.Filled? ==> 0 < |c.pc.chunk| <= BUFFER)
    && c.accepted <= c.read
    && |c.read| - |c.accepted| <= BUFFER
    && (!c.pc.Ended? && !c.pc.Finished? ==> c.read == c.accepted + InFlight(c))
    && |c.accepted| == c.copied + (if c.pc.Writing? then c.pc.done else 0)
  }

  ghost predicate CountHolds(timeout: int, s: State, side: Side) {
    && (s.copy.At(side).pc.Finished? ==> s.count.At(side) == s.copy.At(side).copied)
    && (s.closed.At(Other(side)) <==> !Wrapped(timeout) && s.copy.At(side).pc.Finished?)
  }

  ghost predicate StreamsHold(timeout: int, s: State) {
    && StreamHolds(s.copy.client) && StreamHolds(s.copy.upstream)
    && CountHolds(timeout, s, Client) && CountHolds(timeout, s, Upstream)
    && (s.returned ==> Done(s))
  }

  lemma SplitTail(front: Bytes, chunk: Bytes, done: nat, n: nat)
    requires done + n <= |chunk|
    ensures front + chunk[done..] == (front + chunk[done..done + n]) + chunk[done + n..]
  {
    assert chunk[done..] == chunk[done..done + n] + chunk[done + n..];
  }

  lemma AcceptKeepsStream(c: Copy, n: nat, now: int)
    requires StreamHolds(c) && Fits(c, Accept(n))
    ensures StreamHolds(Advance(c, Accept(n), now))
  {
    SplitTail(c.accepted, c.pc.chunk, c.pc.done, n);
  }

  lemma AdvanceKeepsStream(c: Copy, act: Act, now: int)
    requires StreamHolds(c) && Fits(c, act)
    ensures StreamHolds(Advance(c, act, now))
  {
    match act
    case Accept(n) => AcceptKeepsStream(c, n, now);
    case StartWrite => assert c.pc.chunk[0..] == c.pc.chunk;
    case ReadReturns(_, _) => assert c.read == c.accepted;
    case WriteReturns => assert c.read == c.accepted;
    case _ =>
  }

  lemma StepStreams(timeout: int, s: State, step: Step)
    requires Enabled(timeout, s, step) && StreamsHold(timeout, s)
    ensures StreamsHold(timeout, Apply(timeout, s, step))
  {
    if step.Loop? {
      AdvanceKeepsStream(s.copy.At(step.side), step.act, s.now);
    }
  }

  lemma {:induction false} RunStreams(timeout: int, run: seq<State>, i: nat)
    requires IsRun(timeout, run) && i < |run|
    ensures StreamsHold(timeout, run[i])
  {
    if i > 0 {
      RunStreams(timeout, run, i - 1);
      assert NextAt(timeout, run, i);
      var step :| Enabled(timeout, run[i - 1], step) && run[i] == Apply(timeout, run[i - 1], step);
      StepStreams(timeout, run[i - 1], step);
    }
  }

  /** Stream integrity: in every reachable state, with or without timeouts, what each destination
      has accepted is a prefix of what its loop has read, at most one buffer behind and with
      nothing missing whenever the loop is about to read; once the tunnel has returned, bytesOut
      and bytesIn are exactly the numbers of bytes upstream and client accepted, and a half-close
      was forwarded to each connection if and only if it is not wrapped. */
  lemma StreamIntegrity(timeout: int, run: seq<State>, i: nat, side: Side)
    requires IsRun(timeout, run) && i < |run|
    ensures
      var s := run[i];
      var c := s.copy.At(side);
      && c.accepted <= c.read && |c.read| - |c.accepted| <= BUFFER
      && (c.pc.Call? || c.pc.Reading? ==> c.accepted == c.read)
      && (s.returned ==> s.count.At(side) == |c.accepted| && (s.closed.At(side) <==> timeout <= 0))
      && (s.closed.At(side) ==> s.copy.At(Other(side)).pc.Finished?)
  {
    RunStreams(timeout, run, i);
    assert Other(Other(side)) == side;
  }

  // ---------------------------------------------------------------------------
  // Making runs
  // ---------------------------------------------------------------------------

  function Last(run: seq<State>): State
    requires run != []
  {
    run[|run| - 1]
  }

  lemma Extend(timeout: int, run: seq<State>, step: Step) returns (more: seq<State>)
    requires IsRun(timeout, run) && Enabled(timeout, Last(run), step)
    ensures more != [] && more == run + [Last(more)] && Last(more) == Apply(timeout, Last(run), step)
    ensures IsRun(timeout, more)
  {
    more := run + [Apply(timeout, Last(run), step)];
    assert Next(timeout, Last(run), Last(more));
    forall i | 0 < i < |more| ensures NextAt(timeout, more, i) {
      if i < |run| {
        assert NextAt(timeout, run, i);
      }
    }
  }

  /** The tunnel at time 0 with both Reads pending. */
  lemma BothReading(timeout: int) returns (run: seq<State>)
    requires timeout > 0
    ensures IsRun(timeout, run)
    ensures
      var c := Copy(Reading, [], [], 0, 0, false);
      Last(run) == State(0, Pair(timeout, timeout), Pair(false, false), Pair(c, c), 0, 0,
                         Pair(false, false), Pair(0, 0), false)
  {
    var c := Copy(Call, [], [], 0, 0, false);
    run := [State(0, Pair(0, 0), Pair(false, false), Pair(c, c), 0, 0, Pair(false, false), Pair(0, 0), false)];
    run := Extend(timeout, run, Loop(Client, StartRead));
    run := Extend(timeout, run, Loop(Upstream, StartRead));
  }
}
