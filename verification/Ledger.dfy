/** The observable effects of serving one request, and the books kept over them. */
module Ledgers {
  import opened Text
  import opened HostPort

  datatype Conn = ClientConn | UpstreamConn | ResponseBody

  datatype Decision = Allow | Deny

  /** The labels of forward_proxy_requests_total. */
  datatype Path = Http | Connect

  datatype Result = Allowed | Denied | BadRequest | UpstreamError | UpstreamRejected

  datatype Effect =
    | Asked(host: string, port: Port, allowed: bool)  // AllowHost and its answer
    | Opened(conn: Conn)                              // dial, hijack, or a response body received
    | Closed(conn: Conn)
    | GaugeUp                                         // activeConnections
    | GaugeDown
    | ToUpstream(data: Bytes)                         // bytes the upstream connection accepted
    | ToClient(data: Bytes)                           // bytes the hijacked client connection accepted
    | RoundTripped(target: string, scheme: string)    // request handed to the transport
    | Responded(status: nat)                          // status through the ResponseWriter
    | Audited(decision: Decision, host: string, port: Port, status: nat, bytesIn: nat, bytesOut: nat)
    | Counted(path: Path, result: Result)             // forward_proxy_requests_total
    | DialErrorCounted
    | Moved(up: nat, down: nat)                       // forward_proxy_bytes_transferred_total

  datatype Ledger = Ledger(
    asked: bool,
    cleared: Option<(string, Port)>,   // the pair AllowHost said yes to
    open: set<Conn>,
    gauge: int,
    sent: Bytes,                       // everything upstream accepted
    reply: Bytes,                      // everything the client connection accepted
    trips: seq<string>,
    responses: seq<nat>,
    audits: seq<Effect>,
    counts: seq<Result>,
    dialErrors: nat,
    moved: (nat, nat),
    sound: bool)                       // no rule was broken so far

  const FRESH := Ledger(false, None, {}, 0, [], [], [], [], [], [], 0, (0, 0), true)

  /** One effect entered into the books. `sound` records the rules: AllowHost is asked once;
      nothing reaches upstream before it said yes or outside the gauge; a round trip goes to the very target it said
      yes to; bytes go to open connections only; connections are closed once, after they were
      opened; the gauge goes up once before it goes down; and at most one audit event is written,
      in agreement with the answer. */
  function Post(l: Ledger, e: Effect): Ledger {
    match e
    case Asked(h, p, a) => l.(asked := true, cleared := if a then Some((h, p)) else None, sound := l.sound && !l.asked)
    case Opened(c) =>
      l.(open := l.open + {c}, sound := l.sound && c !in l.open && (c.UpstreamConn? ==> l.cleared.Some?))
    case Closed(c) => l.(open := l.open - {c}, sound := l.sound && c in l.open)
    case GaugeUp => l.(gauge := l.gauge + 1, sound := l.sound && l.gauge == 0)
    case GaugeDown => l.(gauge := l.gauge - 1, sound := l.sound && l.gauge == 1)
    case ToUpstream(d) =>
      l.(sent := l.sent + d, sound := l.sound && UpstreamConn in l.open && l.gauge == 1 && l.cleared.Some?)
    case ToClient(d) => l.(reply := l.reply + d, sound := l.sound && ClientConn in l.open)
    case RoundTripped(t, scheme) =>
      l.(trips := l.trips + [t],
         sound := l.sound && l.gauge == 1 && l.cleared == Some(Target(t, DefaultPortForScheme(scheme))))
    case Responded(status) => l.(responses := l.responses + [status])
    case Audited(d, h, p, _, _, _) =>
      l.(audits := l.audits + [e],
         sound := l.sound && l.audits == [] && l.asked && (l.cleared == if d.Allow? then Some((h, p)) else None))
    case Counted(_, r) => l.(counts := l.counts + [r])
    case DialErrorCounted => l.(dialErrors := l.dialErrors + 1)
    case Moved(up, down) => l.(moved := (l.moved.0 + up, l.moved.1 + down))
  }

  function Replay(log: seq<Effect>): Ledger {
    if log == [] then FRESH else Post(Replay(log[..|log| - 1]), log[|log| - 1])
  }

  /** The pages of the books: one ledger before each effect, and one after the last. */
  ghost predicate Pages(pages: seq<Ledger>, log: seq<Effect>) {
    && |pages| == |log| + 1 && pages[0] == FRESH
    && forall k {:trigger log[k]} :: 0 <= k < |log| ==> pages[k + 1] == Post(pages[k], log[k])
  }

  /** The ledger is the last page. */
  ghost predicate Accounts(log: seq<Effect>, l: Ledger) {
    exists pages :: Pages(pages, log) && pages[|log|] == l
  }

  lemma AccountsOneMore(log: seq<Effect>, l: Ledger, e: Effect)
    requires Accounts(log, l)
    ensures Accounts(log + [e], Post(l, e))
  {
    var pages :| Pages(pages, log) && pages[|log|] == l;
    assert Pages(pages + [Post(l, e)], log + [e]);
  }

  /** Books kept page by page are the replay of the log. */
  lemma {:induction false} AccountsReplay(log: seq<Effect>, l: Ledger)
    requires Accounts(log, l)
    ensures l == Replay(log)
  {
    var pages :| Pages(pages, log) && pages[|log|] == l;
    if log != [] {
      var n := |log| - 1;
      assert Pages(pages[..n + 1], log[..n]) by {
        assert forall k :: 0 <= k < n ==> log[..n][k] == log[k];
      }
      AccountsReplay(log[..n], pages[n]);
      assert l == Post(pages[n], log[n]);
    }
  }

  lemma ReplayOneMore(log: seq<Effect>, e: Effect)
    ensures Replay(log + [e]) == Post(Replay(log), e)
  {
    assert (log + [e])[..|log|] == log;
  }

  // ---------------------------------------------------------------------------
  // What the rules say about a whole log
  // ---------------------------------------------------------------------------

  predicate TouchesUpstream(e: Effect) {
    e == Opened(UpstreamConn) || e.ToUpstream? || e.RoundTripped?
  }

  /** A sound log is sound at every moment, and the gauge contribution is 0 or 1 throughout. */
  lemma {:induction false} SoundThroughout(log: seq<Effect>, k: nat)
    requires Replay(log).sound && k <= |log|
    ensures Replay(log[..k]).sound && 0 <= Replay(log[..k]).gauge <= 1
    ensures Replay(log).gauge == 0 || Replay(log).gauge == 1
  {
    if log == [] {
      assert log[..k] == log;
    } else {
      var init := log[..|log| - 1];
      if k == |log| {
        assert log[..k] == log;
        SoundThroughout(init, |init|);
      } else {
        assert log[..k] == init[..k];
        SoundThroughout(init, k);
      }
    }
  }

  lemma {:induction false} ClearedByAnswer(log: seq<Effect>)
    requires Replay(log).sound && Replay(log).cleared.Some?
    ensures
      var pair := Replay(log).cleared.value;
      Asked(pair.0, pair.1, true) in log
  {
    var init, last := log[..|log| - 1], log[|log| - 1];
    if !last.Asked? {
      ClearedByAnswer(init);
      assert forall e :: e in init ==> e in log;
    }
  }

  lemma ContactIsCleared(l: Ledger, e: Effect)
    requires Post(l, e).sound && TouchesUpstream(e)
    ensures l.sound && l.cleared.Some?
    ensures e.RoundTripped? ==> l.cleared == Some(Target(e.target, DefaultPortForScheme(e.scheme)))
  {
  }

  lemma SoundAfter(log: seq<Effect>, i: nat)
    requires Replay(log).sound && i < |log|
    ensures Post(Replay(log[..i]), log[i]).sound
  {
    SoundThroughout(log, i + 1);
    ReplayAt(log, i);
  }

  lemma ReplayAt(log: seq<Effect>, i: nat)
    requires i < |log|
    ensures Replay(log[..i + 1]) == Post(Replay(log[..i]), log[i])
  {
    assert log[..i + 1][..i] == log[..i];
  }

  lemma ContactIsGauged(l: Ledger, e: Effect)
    requires Post(l, e).sound && (e.ToUpstream? || e.RoundTripped?)
    ensures l.sound && l.gauge == 1
  {
  }

  lemma GaugedBefore(log: seq<Effect>, i: nat)
    requires Replay(log).sound && i < |log| && (log[i].ToUpstream? || log[i].RoundTripped?)
    ensures Replay(log[..i]).sound && Replay(log[..i]).gauge == 1
  {
    SoundAfter(log, i);
    ContactIsGauged(Replay(log[..i]), log[i]);
  }

  /** Gating: in a sound log every contact with upstream comes after an AllowHost that said yes,
      and every round trip after a yes for the pair split from its own target. */
  lemma ContactNeedsAnAnswer(log: seq<Effect>, i: nat) returns (j: nat, pair: (string, Port))
    requires Replay(log).sound && i < |log| && TouchesUpstream(log[i])
    ensures j < i && log[j] == Asked(pair.0, pair.1, true)
    ensures log[i].RoundTripped? ==> pair == Target(log[i].target, DefaultPortForScheme(log[i].scheme))
  {
    var before := log[..i];
    SoundAfter(log, i);
    ContactIsCleared(Replay(before), log[i]);
    ClearedByAnswer(before);
    pair := Replay(before).cleared.value;
    j :| 0 <= j < i && before[j] == Asked(pair.0, pair.1, true);
  }

  /** One question at most: a log with a yes holds no other answer. */
  lemma {:induction false} OneAnswer(log: seq<Effect>, i: nat, j: nat)
    requires Replay(log).sound && i < j < |log| && log[i].Asked?
    ensures !log[j].Asked?
  {
    var init := log[..|log| - 1];
    if j < |log| - 1 {
      OneAnswer(init, i, j);
    } else {
      AskedStays(init, i);
    }
  }

  lemma {:induction false} AskedStays(log: seq<Effect>, i: nat)
    requires i < |log| && log[i].Asked?
    ensures Replay(log).asked
  {
    if i < |log| - 1 {
      AskedStays(log[..|log| - 1], i);
    }
  }

  /** The log of a request that has been served: every rule kept, everything closed, the gauge
      back where it was. */
  ghost predicate Completed(log: seq<Effect>) {
    Replay(log).sound && Replay(log).gauge == 0 && Replay(log).open == {}
  }

  lemma {:induction false} OpenUntilClosed(log: seq<Effect>, i: nat, c: Conn)
    requires i < |log| && log[i] == Opened(c)
    ensures c in Replay(log).open || exists j :: i < j < |log| && log[j] == Closed(c)
  {
    var n := |log| - 1;
    if i < n {
      OpenUntilClosed(log[..n], i, c);
      if j :| i < j < n && log[..n][j] == Closed(c) {
        assert log[j] == Closed(c);
      } else if log[n] == Closed(c) {
        assert i < n < |log|;
      }
    }
  }

  /** Every connection that was opened has been closed by the time a request is served. */
  lemma OpenedIsClosed(log: seq<Effect>, i: nat, c: Conn)
    requires Completed(log) && i < |log| && log[i] == Opened(c)
    ensures exists j :: i < j < |log| && log[j] == Closed(c)
  {
    OpenUntilClosed(log, i, c);
  }

  lemma BooksComplete(log: seq<Effect>, l: Ledger)
    requires Accounts(log, l) && l.sound && l.gauge == 0 && l.open == {}
    ensures Completed(log)
  {
    AccountsReplay(log, l);
  }
}
