/** The wrapper around a connection that turns its fixed deadline into an idle timer, and its
    place in the tunnel's steps. */
module IdleTimeout {
  import T = Tunnel

  /** A connection, as far as deadlines go: once it is dead, setting one fails. */
  class Conn {
    var deadline: int
    var dead: bool

    constructor (deadline: int)
      ensures this.deadline == deadline && !dead
    {
      this.deadline, this.dead := deadline, false;
    }

    method SetDeadline(t: int) returns (ok: bool)
      modifies this`deadline
      ensures ok <==> !dead
      ensures deadline == if ok then t else old(deadline)
    {
      ok := !dead;
      if ok {
        deadline := t;
      }
    }
  }

  /** What a Read or Write returns: a byte count, and whether there was an error. */
  datatype Outcome = Outcome(n: nat, failed: bool)

  /** The two operations of the wrapper. */
  datatype Op = Read | Write

  /** The tunnel step an operation on the connection begins: the loop that reads it, or the loop
      that writes it. */
  function Begins(op: Op, conn: T.Side): T.Step {
    match op
    case Read => T.Loop(conn, T.StartRead)
    case Write => T.Loop(T.Other(conn), T.StartWrite)
  }

  function FailsInstead(op: Op, conn: T.Side): T.Step {
    match op
    case Read => T.Loop(conn, T.DeadlineFails)
    case Write => T.Loop(T.Other(conn), T.DeadlineFails)
  }

  class IdleTimeoutConn {
    const conn: Conn
    const timeout: int

    constructor (conn: Conn, timeout: int)
      requires timeout > 0
      ensures this.conn == conn && this.timeout == timeout
    {
      this.conn, this.timeout := conn, timeout;
    }

    /** A Read or a Write, which differ only in the call they pass on: the deadline moves first,
        exactly as in the tunnel step the operation begins, and if it cannot be moved the call is
        not made. `inner` is what the connection's own operation would return. */
    method Perform(op: Op, now: int, inner: Outcome, ghost s: T.State, ghost side: T.Side) returns (r: Outcome)
      requires T.Enabled(timeout, s, Begins(op, side)) && s.now == now
      requires s.deadline.At(side) == conn.deadline && timeout > 0
      modifies conn`deadline
      ensures !conn.dead ==>
        r == inner && conn.deadline == T.Apply(timeout, s, Begins(op, side)).deadline.At(side) == now + timeout
      ensures conn.dead ==>
        r == Outcome(0, true) && T.Enabled(timeout, s, FailsInstead(op, side))
        && conn.deadline == T.Apply(timeout, s, FailsInstead(op, side)).deadline.At(side)
    {
      var ok := conn.SetDeadline(now + timeout);
      if !ok {
        return Outcome(0, true);
      }
      return inner;
    }
  }

  /** wrapIdleTimeout: a timeout that is not positive leaves the connection bare. */
  method Wrap(conn: Conn, timeout: int) returns (wrapped: IdleTimeoutConn?)
    ensures wrapped != null <==> T.Wrapped(timeout)
    ensures wrapped != null ==> fresh(wrapped) && wrapped.conn == conn && wrapped.timeout == timeout
  {
    wrapped := null;
    if timeout > 0 {
      wrapped := new IdleTimeoutConn(conn, timeout);
    }
  }
}
