/** Serving one request: handleConnect and handleHTTPForward with every early return, and what
    each of them leaves behind. The peers' behaviour is a parameter. */
module Exchanges {
  import opened Text
  import opened HostPort
  import opened ServiceEntries
  import opened Ledgers
  import HR = HeaderRewrite
  import T = Tunnel
  import U = UpstreamReaders

  const CRLF := "\r\n"
  const ESTABLISHED := "HTTP/1.1 200 Connection established" + CRLF + CRLF
  const BAD_GATEWAY := "HTTP/1.1 502 Bad Gateway" + CRLF + CRLF

  datatype Config = Config(auth: string, extra: map<string, string>, tls: bool, hasCerts: bool, idleTimeout: int)

  datatype ConnectNet = ConnectNet(
    canHijack: bool, hijackOk: bool,
    buffered: Option<Bytes>,      // client bytes the server had read ahead; None: no reader
    dialOk: bool, handshakeOk: bool,
    upstreamTakes: nat,           // bytes upstream accepts before its connection fails
    headerOrder: seq<string>,     // iteration order of the extra headers
    http: U.Http,                 // how response headers are parsed
    pulls: seq<Bytes>,            // what socket reads bring while the answer is read
    clientTakes: nat,             // bytes the client accepts before its connection fails
    upstreamSends: Bytes,         // everything upstream ever sends on the connection
    tunnel: seq<T.State>)         // the run of the tunnel, should it be reached

  function Buffered(net: ConnectNet): Bytes {
    net.buffered.GetOr([])
  }

  /** What upstreamReader makes of upstream's answer. */
  function AnswerOf(net: ConnectNet): U.Reading {
    U.ReadAnswer(net.http, net.pulls)
  }

  /** What the network can do. The upstream connection is read by upstreamReader first and by the
      tunnel after it, and all that is read from it, in this order, is what upstream sends. */
  ghost predicate Plausible(cfg: Config, net: ConnectNet) {
    && HR.Orders(net.headerOrder, cfg.extra.Keys)
    && U.Substantial(net.pulls)
    && T.IsRun(cfg.idleTimeout, net.tunnel) && T.Last(net.tunnel).returned
    && AnswerOf(net).taken + T.Last(net.tunnel).copy.upstream.read <= net.upstreamSends
  }

  /** What the tunnel delivered to each side. */
  function Uploaded(net: ConnectNet): Bytes
    requires net.tunnel != []
  {
    T.Last(net.tunnel).copy.client.accepted
  }

  function Downloaded(net: ConnectNet): Bytes
    requires net.tunnel != []
  {
    T.Last(net.tunnel).copy.upstream.accepted
  }

  /** The tunnel reports exactly what each side accepted. */
  ghost predicate CountsUp(net: ConnectNet) {
    && net.tunnel != []
    && T.Last(net.tunnel).count.client == |Uploaded(net)|
    && T.Last(net.tunnel).count.upstream == |Downloaded(net)|
  }

  lemma PlausibleCounts(cfg: Config, net: ConnectNet)
    requires Plausible(cfg, net)
    ensures CountsUp(net) && Downloaded(net) <= T.Last(net.tunnel).copy.upstream.read
  {
    T.StreamIntegrity(cfg.idleTimeout, net.tunnel, |net.tunnel| - 1, T.Client);
    T.StreamIntegrity(cfg.idleTimeout, net.tunnel, |net.tunnel| - 1, T.Upstream);
  }

  // ---------------------------------------------------------------------------
  // The CONNECT preamble
  // ---------------------------------------------------------------------------

  function HeaderLine(name: string, value: string): Bytes {
    name + ": " + value + CRLF
  }

  function ExtraLines(extra: map<string, string>, order: seq<string>): Bytes
    requires forall n :: n in order ==> n in extra
  {
    if order == [] then []
    else ExtraLines(extra, order[..|order| - 1]) + HeaderLine(order[|order| - 1], extra[order[|order| - 1]])
  }

  function RequestLine(host: string): Bytes {
    "CONNECT " + host + " HTTP/1.1" + CRLF
  }

  function Opening(cfg: Config, host: string): Bytes {
    RequestLine(host) + HeaderLine("Host", host) +
    if cfg.auth == "" then [] else HeaderLine("Proxy-Authorization", cfg.auth)
  }

  function Preamble(cfg: Config, host: string, order: seq<string>): Bytes
    requires forall n :: n in order ==> n in cfg.extra
  {
    Opening(cfg, host) + ExtraLines(cfg.extra, order) + CRLF
  }

  /** The part of the data that fits into the room. */
  function Cut(data: Bytes, room: nat): Bytes {
    if |data| <= room then data else data[..room]
  }

  lemma CutPrefix(whole: Bytes, part: Bytes, room: nat)
    requires part <= whole && room <= |part|
    ensures Cut(whole, room) == Cut(part, room) == whole[..room]
  {
  }

  lemma {:induction false} ExtraLinesPrefix(extra: map<string, string>, order: seq<string>, i: nat)
    requires i <= |order| && forall n :: n in order ==> n in extra
    ensures ExtraLines(extra, order[..i]) <= ExtraLines(extra, order)
    decreases |order|
  {
    if i == |order| {
      assert order[..i] == order;
    } else {
      var init := order[..|order| - 1];
      assert init[..i] == order[..i];
      ExtraLinesPrefix(extra, init, i);
    }
  }

  // ---------------------------------------------------------------------------
  // The ways out of handleConnect
  // ---------------------------------------------------------------------------

  datatype Exit =
    | Refused | CannotHijack | HijackFailed | DialFailed | PreambleCut | NoResponse
    | Rejected | ClientGone | BufferCut | Tunnelled

  predicate Dials(cfg: Config, net: ConnectNet) {
    net.dialOk && (cfg.tls ==> cfg.hasCerts && net.handshakeOk)
  }

  /** Which way out the peers' behaviour leads to. */
  function ExitOf(allowed: bool, cfg: Config, net: ConnectNet, preamble: Bytes): Exit {
    if !allowed then Refused
    else if !net.canHijack then CannotHijack
    else if !net.hijackOk then HijackFailed
    else if !Dials(cfg, net) then DialFailed
    else if net.upstreamTakes < |preamble| then PreambleCut
    else if AnswerOf(net).NoAnswer? then NoResponse
    else if AnswerOf(net).head.status != 200 then Rejected
    else if net.clientTakes < |ESTABLISHED| then ClientGone
    else if net.upstreamTakes < |preamble + Buffered(net)| then BufferCut
    else Tunnelled
  }

  /** resp.Status is code and text already, so the code is written twice. */
  function RejectionLine(head: U.Head): Bytes {
    "HTTP/1.1 " + Decimal(head.status) + " " + head.statusLine + CRLF + CRLF
  }

  /** What upstream has accepted by then. */
  function SentAt(exit: Exit, net: ConnectNet, preamble: Bytes): Bytes
    requires net.tunnel != []
  {
    match exit
    case PreambleCut => Cut(preamble, net.upstreamTakes)
    case NoResponse => preamble
    case Rejected => preamble
    case ClientGone => preamble
    case BufferCut => Cut(preamble + Buffered(net), net.upstreamTakes)
    case Tunnelled => preamble + Buffered(net) + Uploaded(net)
    case _ => []
  }

  /** What the client connection has accepted by then. */
  function ReplyAt(exit: Exit, net: ConnectNet): Bytes
    requires net.tunnel != [] && (exit.Rejected? ==> AnswerOf(net).Answer?)
  {
    match exit
    case DialFailed => Cut(BAD_GATEWAY, net.clientTakes)
    case NoResponse => Cut(BAD_GATEWAY, net.clientTakes)
    case Rejected => Cut(RejectionLine(AnswerOf(net).head), net.clientTakes)
    case ClientGone => Cut(ESTABLISHED, net.clientTakes)
    case BufferCut => ESTABLISHED
    case Tunnelled => ESTABLISHED + Downloaded(net)
    case _ => []
  }

  function AuditsAt(exit: Exit, net: ConnectNet, host: string, port: Port): seq<Effect>
    requires net.tunnel != []
  {
    match exit
    case Refused => [Audited(Deny, host, port, 403, 0, 0)]
    case Tunnelled => [Audited(Allow, host, port, 200, |Downloaded(net)|, |Uploaded(net)|)]
    case _ => []
  }

  function CountsAt(exit: Exit): seq<Result> {
    match exit
    case Refused => [Denied]
    case DialFailed => [UpstreamError]
    case NoResponse => [UpstreamError]
    case Rejected => [UpstreamRejected]
    case Tunnelled => [Allowed]
    case _ => []
  }

  /** The books at the end of handleConnect: every rule kept, every connection closed, the gauge
      back where it was, and exactly these bytes, responses, audit events and counts. */
  function BooksAt(exit: Exit, net: ConnectNet, target: (string, Port), preamble: Bytes): Ledger
    requires net.tunnel != [] && (exit.Rejected? ==> AnswerOf(net).Answer?)
  {
    Ledger(
      true, if exit.Refused? then None else Some(target), {}, 0,
      SentAt(exit, net, preamble), ReplyAt(exit, net), [],
      if exit.Refused? then [403] else if exit.CannotHijack? then [500] else [],
      AuditsAt(exit, net, target.0, target.1), CountsAt(exit),
      if exit.DialFailed? then 1 else 0,
      if exit.Tunnelled? then (|Uploaded(net)|, |Downloaded(net)|) else (0, 0),
      true)
  }

  // ---------------------------------------------------------------------------
  // The forward path
  // ---------------------------------------------------------------------------

  datatype ForwardRequest = ForwardRequest(absolute: bool, host: string, scheme: string, hasBody: bool)

  datatype ForwardNet = ForwardNet(
    bodyReads: seq<nat>,     // what the transport reads off the request body before the count is loaded
    lateReads: seq<nat>,     // and what its goroutine reads off it afterwards
    response: Option<nat>,   // status of the response, or None for a failed round trip
    header: HR.Headers,      // its header
    order: seq<string>,      // iteration order of that
    copied: nat)             // bytes of the response body copied to the client

  function Total(counts: seq<nat>): nat {
    if counts == [] then 0 else Total(counts[..|counts| - 1]) + counts[|counts| - 1]
  }

  /** The wrapper around a request body that counts what the transport reads off it. */
  class CountingReadCloser {
    var n: nat

    constructor ()
      ensures n == 0
    {
      n := 0;
    }

    /** A Read of which the body itself returns k bytes. */
    method Read(k: nat)
      modifies this
      ensures n == old(n) + k
    {
      n := n + k;
    }

    /** The transport's reads, one after the other. */
    method ReadAll(chunks: seq<nat>)
      modifies this
      ensures n == old(n) + Total(chunks)
    {
      for i := 0 to |chunks|
        invariant n == old(n) + Total(chunks[..i])
      {
        assert chunks[..i + 1][..i] == chunks[..i];
        Read(chunks[i]);
      }
      assert chunks[..|chunks|] == chunks;
    }
  }

  /** The reported count is that of the whole body if and only if nothing is read off it after the
      count was loaded. */
  lemma {:induction false} CountIsComplete(early: seq<nat>, late: seq<nat>)
    ensures Total(early + late) == Total(early) + Total(late)
    ensures Total(early) == Total(early + late) <==> forall k :: k in late ==> k == 0
  {
    NothingRead(late);
    if late == [] {
      assert early + late == early;
    } else {
      CountIsComplete(early, late[..|late| - 1]);
      assert (early + late)[..|early + late| - 1] == early + late[..|late| - 1];
    }
  }

  lemma {:induction false} NothingRead(chunks: seq<nat>)
    ensures Total(chunks) == 0 <==> forall k :: k in chunks ==> k == 0
  {
    if chunks != [] {
      var init, last := chunks[..|chunks| - 1], chunks[|chunks| - 1];
      NothingRead(init);
      assert chunks == init + [last] && Total(chunks) == Total(init) + last;
      assert last in chunks && forall k: nat :: k in init ==> k in chunks;
    }
  }

  function ForwardedBooks(req: ForwardRequest, net: ForwardNet, target: (string, Port)): Ledger {
    var up := if req.hasBody then Total(net.bodyReads) else 0;
    var tripped := FRESH.(asked := true, cleared := Some(target), trips := [req.host]);
    match net.response
    case None =>
      tripped.(responses := [502], counts := [UpstreamError], dialErrors := 1, moved := (up, 0))
    case Some(status) =>
      tripped.(responses := [status], audits := [Audited(Allow, target.0, target.1, status, net.copied, 0)],
               counts := [Allowed], moved := (up, net.copied))
  }

  /** The books at the end of handleHTTPForward. */
  function ForwardBooks(req: ForwardRequest, net: ForwardNet, target: (string, Port), allowed: bool): Ledger {
    if !req.absolute || req.host == "" then
      FRESH.(responses := [400], counts := [BadRequest])
    else if !allowed then
      FRESH.(asked := true, responses := [403], audits := [Audited(Deny, target.0, target.1, 403, 0, 0)],
             counts := [Denied])
    else
      ForwardedBooks(req, net, target)
  }

  // ---------------------------------------------------------------------------
  // The handler
  // ---------------------------------------------------------------------------

  class Exchange {
    const cfg: Config
    const acl: Watcher
    var log: seq<Effect>
    ghost var books: Ledger

    /** The books are those of the log. */
    ghost predicate Kept()
      reads this
    {
      Accounts(log, books)
    }

    constructor (cfg: Config, acl: Watcher)
      ensures this.cfg == cfg && this.acl == acl && log == [] && books == FRESH && Kept()
    {
      this.cfg, this.acl, this.log, this.books := cfg, acl, [], FRESH;
      assert Pages([FRESH], []);
    }

    method Emit(e: Effect)
      requires Kept()
      modifies this`log, this`books
      ensures Kept() && books == Post(old(books), e)
    {
      AccountsOneMore(log, books, e);
      log := log + [e];
      books := Post(books, e);
    }

    /** AllowHost, asked once. */
    method Ask(target: (string, Port)) returns (allow: bool)
      requires Kept() && acl.Valid()
      modifies this`log, this`books
      ensures Kept() && books == Post(old(books), Asked(target.0, target.1, allow))
      ensures allow <==> Verdict(acl.entries, target.0, target.1)
    {
      var answer := acl.AllowHost(target.0, target.1);
      allow := answer.allow;
      Emit(Asked(target.0, target.1, allow));
    }

    /** denyForward and denyConnect. */
    method Refuse(path: Path, target: (string, Port))
      requires Kept() && books == FRESH.(asked := true)
      modifies this`log, this`books
      ensures Kept()
      ensures
        books == FRESH.(asked := true, responses := [403], counts := [Denied],
                        audits := [Audited(Deny, target.0, target.1, 403, 0, 0)])
    {
      Emit(Audited(Deny, target.0, target.1, 403, 0, 0));
      Emit(Counted(path, Denied));
      Emit(Responded(403));
    }

    /** The audit event of a completed request, and its count. */
    method RecordAllowed(path: Path, target: (string, Port), status: nat, bytesIn: nat, bytesOut: nat)
      requires books.audits == [] && books.asked && books.cleared == Some(target)
      requires Kept()
      modifies this`log, this`books
      ensures Kept()
      ensures
        var b := old(books);
        books == b.(audits := [Audited(Allow, target.0, target.1, status, bytesIn, bytesOut)],
                    counts := b.counts + [Allowed])
    {
      Emit(Audited(Allow, target.0, target.1, status, bytesIn, bytesOut));
      assert books.audits == [Audited(Allow, target.0, target.1, status, bytesIn, bytesOut)];
      Emit(Counted(path, Allowed));
    }

    /** An answer written straight to the hijacked connection, and its count. */
    method AnswerClient(data: Bytes, result: Result, net: ConnectNet)
      requires ClientConn in books.open && books.reply == [] && books.counts == []
      requires Kept()
      modifies this`log, this`books
      ensures Kept()
      ensures books == old(books).(reply := Cut(data, net.clientTakes), counts := [result])
    {
      Emit(ToClient(Cut(data, net.clientTakes)));
      assert books.reply == Cut(data, net.clientTakes);
      Emit(Counted(Connect, result));
      assert books.counts == [result];
    }

    /** One Write to upstream, which has `room` bytes left before its connection fails. */
    method Send(data: Bytes, room: nat) returns (ok: bool, left: nat)
      requires UpstreamConn in books.open && books.gauge == 1 && books.cleared.Some?
      requires Kept()
      modifies this`log, this`books
      ensures Kept()
      ensures ok <==> |data| <= room
      ensures ok ==> left == room - |data|
      ensures books == old(books).(sent := old(books).sent + Cut(data, room))
    {
      Emit(ToUpstream(Cut(data, room)));
      ok := |data| <= room;
      left := if ok then room - |data| else 0;
    }

    /** dialUpstream: a raw connection that does not survive the TLS part is closed again. */
    method DialUpstream(net: ConnectNet) returns (ok: bool)
      requires UpstreamConn !in books.open && books.cleared.Some?
      requires Kept()
      modifies this`log, this`books
      ensures Kept()
      ensures ok <==> Dials(cfg, net)
      ensures books == old(books).(open := old(books).open + if ok then {UpstreamConn} else {})
    {
      if !net.dialOk {
        return false;
      }
      Emit(Opened(UpstreamConn));
      if !cfg.tls {
        return true;
      }
      if !cfg.hasCerts {
        Emit(Closed(UpstreamConn));
        return false;
      }
      if !net.handshakeOk {
        Emit(Closed(UpstreamConn));
        return false;
      }
      return true;
    }

    /** One Write of a longer text of which upstream has accepted `done` so far. */
    method SendPiece(data: Bytes, room: nat, ghost whole: Bytes, ghost done: Bytes, ghost total: nat)
        returns (ok: bool, left: nat)
      requires UpstreamConn in books.open && books.gauge == 1 && books.cleared.Some? && books.sent == done
      requires done + data <= whole && |done| <= total && room == total - |done|
      requires Kept()
      modifies this`log, this`books
      ensures Kept()
      ensures ok ==> |done + data| <= total && left == total - |done + data|
      ensures ok ==> books == old(books).(sent := done + data)
      ensures !ok ==> total < |whole| && books == old(books).(sent := Cut(whole, total))
    {
      ok, left := Send(data, room);
      if !ok {
        CutPrefix(whole, done + data, total);
        assert done + data[..room] == (done + data)[..total];
      }
    }

    /** The CONNECT request to upstream, piece by piece until one is cut short. */
    method WritePreamble(host: string, net: ConnectNet) returns (ok: bool, left: nat)
      requires HR.Orders(net.headerOrder, cfg.extra.Keys)
      requires UpstreamConn in books.open && books.gauge == 1 && books.cleared.Some? && books.sent == []
      requires Kept()
      modifies this`log, this`books
      ensures Kept()
      ensures
        var preamble := Preamble(cfg, host, net.headerOrder);
        && (ok <==> |preamble| <= net.upstreamTakes)
        && (ok ==> left == net.upstreamTakes - |preamble|)
        && books == old(books).(sent := Cut(preamble, net.upstreamTakes))
    {
      ghost var whole := Preamble(cfg, host, net.headerOrder);
      ghost var opening := Opening(cfg, host);
      assert whole == opening + (ExtraLines(cfg.extra, net.headerOrder) + CRLF);
      ok, left := WriteOpening(host, net, whole);
      if !ok { return; }
      ok, left := WriteExtraHeaders(net, left, whole, opening);
      if !ok { return; }
      ghost var done := opening + ExtraLines(cfg.extra, net.headerOrder);
      assert done + CRLF == whole;
      ok, left := SendPiece(CRLF, left, whole, done, net.upstreamTakes);
    }

    method WriteOpening(host: string, net: ConnectNet, ghost whole: Bytes) returns (ok: bool, left: nat)
      requires UpstreamConn in books.open && books.gauge == 1 && books.cleared.Some? && books.sent == []
      requires Opening(cfg, host) <= whole
      requires Kept()
      modifies this`log, this`books
      ensures Kept()
      ensures
        var done := Opening(cfg, host);
        && (ok ==> |done| <= net.upstreamTakes && left == net.upstreamTakes - |done|)
        && (ok ==> books == old(books).(sent := done))
        && (!ok ==> net.upstreamTakes < |whole| && books == old(books).(sent := Cut(whole, net.upstreamTakes)))
    {
      var line, hostLine := RequestLine(host), HeaderLine("Host", host);
      assert line + hostLine <= Opening(cfg, host) && [] + line == line;
      ok, left := SendPiece(line, net.upstreamTakes, whole, [], net.upstreamTakes);
      if !ok { return; }
      ok, left := SendPiece(hostLine, left, whole, line, net.upstreamTakes);
      if !ok { return; }
      if cfg.auth != "" {
        var authLine := HeaderLine("Proxy-Authorization", cfg.auth);
        assert Opening(cfg, host) == line + hostLine + authLine;
        ok, left := SendPiece(authLine, left, whole, line + hostLine, net.upstreamTakes);
      } else {
        assert Opening(cfg, host) == line + hostLine;
      }
    }

    method WriteExtraHeaders(net: ConnectNet, room: nat, ghost whole: Bytes, ghost opening: Bytes)
        returns (ok: bool, left: nat)
      requires HR.Orders(net.headerOrder, cfg.extra.Keys)
      requires UpstreamConn in books.open && books.gauge == 1 && books.cleared.Some? && books.sent == opening
      requires whole == opening + (ExtraLines(cfg.extra, net.headerOrder) + CRLF)
      requires |opening| <= net.upstreamTakes && room == net.upstreamTakes - |opening|
      requires Kept()
      modifies this`log, this`books
      ensures Kept()
      ensures
        var done := opening + ExtraLines(cfg.extra, net.headerOrder);
        && (ok ==> |done| <= net.upstreamTakes && left == net.upstreamTakes - |done|)
        && (ok ==> books == old(books).(sent := done))
        && (!ok ==> net.upstreamTakes < |whole| && books == old(books).(sent := Cut(whole, net.upstreamTakes)))
    {
      ok, left := true, room;
      var order := net.headerOrder;
      ghost var base, done := books, opening;
      for i := 0 to |order|
        invariant ok && done == opening + ExtraLines(cfg.extra, order[..i])
        invariant |done| <= net.upstreamTakes && left == net.upstreamTakes - |done|
        invariant Kept() && books == base.(sent := done)
      {
        var line := HeaderLine(order[i], cfg.extra[order[i]]);
        NextLine(cfg.extra, order, i, opening, whole);
        ok, left := SendPiece(line, left, whole, done, net.upstreamTakes);
        if !ok { return; }
        done := done + line;
      }
      assert order[..|order|] == order;
    }

    /** Upstream's answer is read, and its body closed, through a buffered reader of its own. */
    method AwaitAnswer(net: ConnectNet) returns (response: Option<U.Head>, ghost taken: Bytes)
      ensures response == AnswerOf(net).Response() && taken == AnswerOf(net).taken
    {
      var reader := new U.UpstreamReader(net.pulls);
      response := reader.ReadResponse(net.http);
      if response.Some? {
        reader.CloseBody(net.http, response.value.body);
      }
      taken := reader.taken;
    }

    /** handleConnect once both connections exist, up to its deferred calls. */
    method ServeUpstream(host: string, net: ConnectNet, target: (string, Port)) returns (exit: Exit)
      requires HR.Orders(net.headerOrder, cfg.extra.Keys) && CountsUp(net)
      requires net.canHijack && net.hijackOk && Dials(cfg, net)
      requires books == FRESH.(asked := true, cleared := Some(target), open := {ClientConn, UpstreamConn}, gauge := 1)
      requires Kept()
      modifies this`log, this`books
      ensures Kept()
      ensures
        var preamble := Preamble(cfg, host, net.headerOrder);
        && exit == ExitOf(true, cfg, net, preamble)
        && books == BooksAt(exit, net, target, preamble).(open := {ClientConn, UpstreamConn}, gauge := 1)
    {
      ghost var preamble := Preamble(cfg, host, net.headerOrder);
      var ok, room := WritePreamble(host, net);
      if !ok {
        return PreambleCut;
      }
      var response, _ := AwaitAnswer(net);
      if response.None? {
        AnswerClient(BAD_GATEWAY, UpstreamError, net);
        return NoResponse;
      }
      if response.value.status != 200 {
        AnswerClient(RejectionLine(response.value), UpstreamRejected, net);
        return Rejected;
      }
      exit := Establish(net, target, room, preamble);
    }

    /** Upstream has said 200: tell the client, flush what it sent ahead, and tunnel. */
    method Establish(net: ConnectNet, target: (string, Port), room: nat, ghost preamble: Bytes) returns (exit: Exit)
      requires CountsUp(net) && |preamble| <= net.upstreamTakes && room == net.upstreamTakes - |preamble|
      requires books == FRESH.(asked := true, cleared := Some(target), open := {ClientConn, UpstreamConn}, gauge := 1,
                               sent := preamble)
      requires Kept()
      modifies this`log, this`books
      ensures Kept()
      ensures exit == if net.clientTakes < |ESTABLISHED| then ClientGone
        else if net.upstreamTakes < |preamble + Buffered(net)| then BufferCut else Tunnelled
      ensures books == BooksAt(exit, net, target, preamble).(open := {ClientConn, UpstreamConn}, gauge := 1)
    {
      Emit(ToClient(Cut(ESTABLISHED, net.clientTakes)));
      assert books.reply == Cut(ESTABLISHED, net.clientTakes);
      if net.clientTakes < |ESTABLISHED| {
        return ClientGone;
      }
      var ok := FlushBuffered(net, room, preamble);
      if !ok {
        return BufferCut;
      }
      RunTunnel(net, target);
      return Tunnelled;
    }

    /** Client bytes read ahead of the hijack go to upstream before the tunnel starts. */
    method FlushBuffered(net: ConnectNet, room: nat, ghost preamble: Bytes) returns (ok: bool)
      requires UpstreamConn in books.open && books.gauge == 1 && books.cleared.Some? && books.sent == preamble
      requires |preamble| <= net.upstreamTakes && room == net.upstreamTakes - |preamble|
      requires Kept()
      modifies this`log, this`books
      ensures Kept()
      ensures ok <==> |preamble + Buffered(net)| <= net.upstreamTakes
      ensures books == old(books).(sent := Cut(preamble + Buffered(net), net.upstreamTakes))
    {
      ok := true;
      if net.buffered.Some? && |net.buffered.value| > 0 {
        var left: nat;
        ok, left := SendPiece(net.buffered.value, room, preamble + Buffered(net), preamble, net.upstreamTakes);
      } else {
        assert preamble + Buffered(net) == preamble;
      }
    }

    /** The tunnel, its byte counts, the audit event and the allow count. */
    method RunTunnel(net: ConnectNet, target: (string, Port))
      requires CountsUp(net)
      requires ClientConn in books.open && UpstreamConn in books.open && books.gauge == 1
      requires books.cleared == Some(target)
      requires books.audits == [] && books.asked
      requires Kept()
      modifies this`log, this`books
      ensures Kept()
      ensures
        var b, up, down := old(books), Uploaded(net), Downloaded(net);
        books == b.(
          sent := b.sent + up, reply := b.reply + down,
          moved := (b.moved.0 + |up|, b.moved.1 + |down|),
          audits := [Audited(Allow, target.0, target.1, 200, |down|, |up|)],
          counts := b.counts + [Allowed])
    {
      var end := T.Last(net.tunnel);
      Emit(ToUpstream(end.copy.client.accepted));
      Emit(ToClient(end.copy.upstream.accepted));
      var bytesIn, bytesOut := end.count.upstream, end.count.client;
      Emit(Moved(bytesOut, 0));
      Emit(Moved(0, bytesIn));
      RecordAllowed(Connect, target, 200, bytesIn, bytesOut);
    }

    /** handleConnect once the client connection is hijacked, up to closing it. */
    method ServeHijacked(host: string, net: ConnectNet, target: (string, Port)) returns (exit: Exit)
      requires HR.Orders(net.headerOrder, cfg.extra.Keys) && CountsUp(net)
      requires net.canHijack && net.hijackOk
      requires books == FRESH.(asked := true, cleared := Some(target), open := {ClientConn})
      requires Kept()
      modifies this`log, this`books
      ensures Kept()
      ensures
        var preamble := Preamble(cfg, host, net.headerOrder);
        && exit == ExitOf(true, cfg, net, preamble)
        && books == BooksAt(exit, net, target, preamble).(open := {ClientConn})
    {
      var dialed := DialUpstream(net);
      if !dialed {
        Emit(DialErrorCounted);
        AnswerClient(BAD_GATEWAY, UpstreamError, net);
        return DialFailed;
      }
      Emit(GaugeUp);
      exit := ServeUpstream(host, net, target);
      Emit(GaugeDown);
      Emit(Closed(UpstreamConn));
      assert books.open == {ClientConn};
    }

    /** handleConnect after AllowHost has said yes. */
    method ServeAllowed(host: string, net: ConnectNet, target: (string, Port)) returns (exit: Exit)
      requires HR.Orders(net.headerOrder, cfg.extra.Keys) && CountsUp(net)
      requires Kept() && books == FRESH.(asked := true, cleared := Some(target))
      modifies this`log, this`books
      ensures Kept()
      ensures
        var preamble := Preamble(cfg, host, net.headerOrder);
        && exit == ExitOf(true, cfg, net, preamble)
        && books == BooksAt(exit, net, target, preamble)
    {
      if !net.canHijack {
        Emit(Responded(500));
        assert books.responses == [500];
        return CannotHijack;
      }
      if !net.hijackOk {
        return HijackFailed;
      }
      Emit(Opened(ClientConn));
      assert books.open == {ClientConn};
      exit := ServeHijacked(host, net, target);
      Emit(Closed(ClientConn));
      assert books.open == {};
    }

    /** handleConnect. Which way out is taken follows from the plain decision over the entry list
        and the peers' behaviour, and the books at the end are exactly those of that way out. */
    method HandleConnect(host: string, net: ConnectNet) returns (exit: Exit)
      requires acl.Valid() && books == FRESH && Plausible(cfg, net)
      requires Kept()
      modifies this`log, this`books
      ensures Kept()
      ensures
        var target := Target(host, 443);
        var preamble := Preamble(cfg, host, net.headerOrder);
        && Completed(log)
        && exit == ExitOf(Verdict(acl.entries, target.0, target.1), cfg, net, preamble)
        && books == BooksAt(exit, net, target, preamble)
    {
      PlausibleCounts(cfg, net);
      var target := Target(host, 443);
      var allow := Ask(target);
      if !allow {
        Refuse(Connect, target);
        exit := Refused;
      } else {
        exit := ServeAllowed(host, net, target);
      }
      BooksComplete(log, books);
    }

    /** The transport sends the request body, read by read, on a goroutine of its own; the counter
        is loaded after some of the reads. */
    method SendBody(early: seq<nat>, late: seq<nat>) returns (counted: nat)
      ensures counted == Total(early)
    {
      var body := new CountingReadCloser();
      body.ReadAll(early);
      counted := body.n;
      body.ReadAll(late);
    }

    /** The allowed part of handleHTTPForward. */
    method Forward(req: ForwardRequest, net: ForwardNet, target: (string, Port)) returns (header: HR.Headers)
      requires HR.Orders(net.order, net.header.Keys)
      requires Kept() && books == FRESH.(asked := true, cleared := Some(target))
      requires target == Target(req.host, DefaultPortForScheme(req.scheme))
      modifies this`log, this`books
      ensures Kept()
      ensures books == ForwardedBooks(req, net, target)
      ensures header == if net.response.Some? then HR.Relayed(net.header, net.order) else map[]
    {
      header := map[];
      Emit(GaugeUp);
      Emit(RoundTripped(req.host, req.scheme));
      assert books.trips == [req.host];
      if req.hasBody {
        var sent := SendBody(net.bodyReads, net.lateReads);
        Emit(Moved(sent, 0));
      }
      if net.response.None? {
        ReportTripFailed();
      } else {
        header := Relay(net, target);
      }
      Emit(GaugeDown);
    }

    method ReportTripFailed()
      requires books.responses == [] && books.counts == []
      requires Kept()
      modifies this`log, this`books
      ensures Kept()
      ensures
        var b := old(books);
        books == b.(dialErrors := b.dialErrors + 1, responses := [502], counts := [UpstreamError])
    {
      Emit(DialErrorCounted);
      Emit(Responded(502));
      assert books.responses == [502];
      Emit(Counted(Http, UpstreamError));
      assert books.counts == [UpstreamError];
    }

    /** The response of a successful round trip, up to the deferred close of its body. */
    method Relay(net: ForwardNet, target: (string, Port)) returns (header: HR.Headers)
      requires HR.Orders(net.order, net.header.Keys)
      requires net.response.Some? && books.audits == [] && books.open == {}
      requires books.asked && books.cleared == Some(target)
      requires Kept()
      modifies this`log, this`books
      ensures Kept()
      ensures
        var b := old(books);
        books == b.(
          responses := b.responses + [net.response.value], moved := (b.moved.0, b.moved.1 + net.copied),
          audits := [Audited(Allow, target.0, target.1, net.response.value, net.copied, 0)],
          counts := b.counts + [Allowed])
      ensures header == HR.Relayed(net.header, net.order)
    {
      Emit(Opened(ResponseBody));
      header := HR.CopyResponseHeaders(net.header, net.order);
      Emit(Responded(net.response.value));
      Emit(Moved(0, net.copied));
      RecordAllowed(Http, target, net.response.value, net.copied, 0);
      Emit(Closed(ResponseBody));
      assert books.open == {};
    }

    /** handleHTTPForward, from the first check to the deferred calls. The books at the end follow
        from the plain decision over the entry list; `header` is what of upstream's response header
        the client gets. */
    method HandleForward(req: ForwardRequest, net: ForwardNet) returns (header: HR.Headers)
      requires acl.Valid() && books == FRESH && HR.Orders(net.order, net.header.Keys)
      requires Kept()
      modifies this`log, this`books
      ensures Kept()
      ensures
        var target := Target(req.host, DefaultPortForScheme(req.scheme));
        Completed(log) && books == ForwardBooks(req, net, target, Verdict(acl.entries, target.0, target.1))
      ensures header == if books.audits != [] && books.cleared.Some? then HR.Relayed(net.header, net.order) else map[]
    {
      header := map[];
      if !req.absolute || req.host == "" {
        Emit(Responded(400));
        Emit(Counted(Http, BadRequest));
        BooksComplete(log, books);
        return;
      }
      var target := Target(req.host, DefaultPortForScheme(req.scheme));
      var allow := Ask(target);
      if !allow {
        Refuse(Http, target);
      } else {
        header := Forward(req, net, target);
      }
      BooksComplete(log, books);
    }
  }

  lemma NextLine(extra: map<string, string>, order: seq<string>, i: nat, opening: Bytes, whole: Bytes)
    requires i < |order| && forall n :: n in order ==> n in extra
    requires whole == opening + (ExtraLines(extra, order) + CRLF)
    ensures
      var done := opening + ExtraLines(extra, order[..i]);
      var line := HeaderLine(order[i], extra[order[i]]);
      done + line == opening + ExtraLines(extra, order[..i + 1]) && done + line <= whole
  {
    assert order[..i + 1][..i] == order[..i];
    ExtraLinesPrefix(extra, order, i + 1);
  }

  // ---------------------------------------------------------------------------
  // What the books say
  // ---------------------------------------------------------------------------

  /** An allow event is written exactly when the allow count goes up, a deny event exactly when
      the deny count does, and never more than one event. */
  ghost predicate AuditsMatchCounts(l: Ledger) {
    && |l.audits| <= 1
    && (Allowed in l.counts <==> exists e :: e in l.audits && e.Audited? && e.decision.Allow?)
    && (Denied in l.counts <==> exists e :: e in l.audits && e.Audited? && e.decision.Deny?)
    && |l.counts| <= 1
  }

  lemma ConnectAuditsMatch(exit: Exit, net: ConnectNet, target: (string, Port), preamble: Bytes)
    requires net.tunnel != [] && (exit.Rejected? ==> AnswerOf(net).Answer?)
    ensures AuditsMatchCounts(BooksAt(exit, net, target, preamble))
  {
    var audits := AuditsAt(exit, net, target.0, target.1);
    assert exit.Refused? ==> audits[0] in audits && audits[0].decision.Deny?;
    assert exit.Tunnelled? ==> audits[0] in audits && audits[0].decision.Allow?;
  }

  /** What the books of the forward path come to: one response and one count for every request; a
      round trip exactly for an absolute request that is allowed, and to the very host it names;
      and an allow event exactly if that trip brought a response, whose status the client gets.
      The counters go up by what was read off the request body and copied of the response, and the
      event carries the latter. */
  lemma ForwardOutcomes(req: ForwardRequest, net: ForwardNet, target: (string, Port), allowed: bool)
    ensures
      var l := ForwardBooks(req, net, target, allowed);
      && |l.responses| == 1 && |l.counts| == 1
      && l.trips == (if req.absolute && req.host != "" && allowed then [req.host] else [])
      && (l.asked <==> req.absolute && req.host != "")
      && (l.counts == [Allowed] <==> l.trips != [] && net.response.Some?)
      && (l.counts == [Allowed] ==> l.responses == [net.response.value])
      && (l.dialErrors == 1 <==> l.trips != [] && net.response.None?)
      && (l.responses == [400] && !l.asked <==> !req.absolute || req.host == "")
      && (l.asked && !allowed ==> l.responses == [403] && l.counts == [Denied])
      && (l.trips != [] && net.response.None? ==> l.responses == [502] && l.counts == [UpstreamError])
      && l.moved.0 == (if l.trips != [] && req.hasBody then Total(net.bodyReads) else 0)
      && l.moved.1 == (if l.counts == [Allowed] then net.copied else 0)
      && (l.counts == [Allowed] ==>
          l.audits == [Audited(Allow, target.0, target.1, net.response.value, l.moved.1, 0)])
      && (l.counts == [Denied] ==> l.audits == [Audited(Deny, target.0, target.1, 403, 0, 0)])
      && (l.counts != [Allowed] && l.counts != [Denied] ==> l.audits == [])
      && l.sent == [] && l.reply == [] && l.open == {} && l.gauge == 0
  {
  }

  /** A host without a port is asked about, and audited, on port 443 for https and on port 80 for
      every other scheme. */
  lemma ForwardPort(req: ForwardRequest, net: ForwardNet, allowed: bool)
    requires ':' !in req.host
    ensures
      var target := Target(req.host, DefaultPortForScheme(req.scheme));
      && target == (req.host, if req.scheme == "https" then 443 else 80)
      && forall e :: e in ForwardBooks(req, net, target, allowed).audits ==>
          e.Audited? && e.host == req.host && e.port == if req.scheme == "https" then 443 else 80
  {
    BareHost(req.host, DefaultPortForScheme(req.scheme));
  }

  lemma ForwardAuditsMatch(req: ForwardRequest, net: ForwardNet, target: (string, Port), allowed: bool)
    ensures AuditsMatchCounts(ForwardBooks(req, net, target, allowed))
  {
    var audits := ForwardBooks(req, net, target, allowed).audits;
    if audits != [] {
      assert audits[0] in audits;
    }
  }

  // ---------------------------------------------------------------------------
  // The byte handover
  // ---------------------------------------------------------------------------

  /** Upload: on a run that reaches the tunnel upstream accepts the preamble, the bytes the client
      had sent ahead and then a prefix of what the client sends from there on, in this order and
      each once. The reported bytesOut leaves the bytes sent ahead out. */
  lemma UploadHandover(cfg: Config, net: ConnectNet, preamble: Bytes)
    requires Plausible(cfg, net)
    ensures
      var client := T.Last(net.tunnel).copy.client.read;
      && SentAt(Tunnelled, net, preamble) <= preamble + Buffered(net) + client
      && |SentAt(Tunnelled, net, preamble)| == |preamble| + |Buffered(net)| + T.Last(net.tunnel).count.client
  {
    PlausibleCounts(cfg, net);
    T.StreamIntegrity(cfg.idleTimeout, net.tunnel, |net.tunnel| - 1, T.Client);
    var head := preamble + Buffered(net);
    assert head + Uploaded(net) <= head + T.Last(net.tunnel).copy.client.read;
  }

  /** A stream read by the reader first and then by the tunnel, of which the client gets `down`. */
  lemma Continued(answer: U.Reading, read: Bytes, down: Bytes, stream: Bytes)
    requires answer.Answer? && answer.header <= answer.taken && U.HeaderEnd(answer.header) == Some(|answer.header|)
    requires answer.taken + read <= stream && down <= read
    ensures U.HeaderEnd(stream) == Some(|answer.header|)
    ensures answer.header + U.Lost(answer) + down <= stream
    ensures answer.taken + down == stream ==> (answer.header + down == stream <==> U.Lost(answer) == [])
  {
    assert answer.taken == answer.header + U.Lost(answer);
    assert answer.taken + down <= answer.taken + read;
    assert answer.header <= stream;
    U.HeaderEndStays(answer.header, stream);
  }

  /** Download: upstream's stream is the response header, what upstreamReader has taken beyond it,
      and what the tunnel reads; the client gets the last part only. A client to which everything
      the tunnel could read has been delivered has got everything after the header if and only if
      no pull of the reader brought bytes from past the header's end. */
  lemma DownloadHandover(cfg: Config, net: ConnectNet)
    requires Plausible(cfg, net) && AnswerOf(net).Answer?
    ensures
      var answer := AnswerOf(net);
      && U.HeaderEnd(net.upstreamSends) == Some(|answer.header|) && answer.header <= answer.taken
      && answer.header + U.Lost(answer) + Downloaded(net) <= net.upstreamSends
    ensures
      var answer := AnswerOf(net);
      answer.taken + Downloaded(net) == net.upstreamSends ==>
        (answer.header + Downloaded(net) == net.upstreamSends <==>
         U.CleanCut(net.pulls, answer.header, answer.head.body))
  {
    PlausibleCounts(cfg, net);
    U.AnswerParts(net.http, net.pulls);
    U.LossExactly(net.http, net.pulls);
    Continued(AnswerOf(net), T.Last(net.tunnel).copy.upstream.read, Downloaded(net), net.upstreamSends);
  }

  /** A tunnel in which nothing happens until both connections fail. */
  lemma IdleTunnel(timeout: int) returns (run: seq<T.State>)
    requires timeout > 0
    ensures T.IsRun(timeout, run) && T.Last(run).returned
    ensures T.Last(run).copy.upstream.read == [] == T.Last(run).copy.upstream.accepted
  {
    run := T.BothReading(timeout);
    run := T.Extend(timeout, run, T.Loop(T.Client, T.ReadFails));
    run := T.Extend(timeout, run, T.Loop(T.Client, T.Finish));
    run := T.Extend(timeout, run, T.Loop(T.Upstream, T.ReadFails));
    run := T.Extend(timeout, run, T.Loop(T.Upstream, T.Finish));
    run := T.Extend(timeout, run, T.Return);
  }

  lemma OnePull(http: U.Http, header: Bytes, greeting: Bytes)
    requires U.HeaderEnd(header) == Some(|header|) && http.parse(header).Some? && greeting != []
    ensures
      var answer := U.ReadAnswer(http, [header + greeting]);
      && answer == U.Answer(http.parse(header).value, header, header + greeting)
      && U.Lost(answer) == greeting
  {
    var pulls := [header + greeting];
    assert pulls[..0] == [] && pulls[..1] == pulls;
    assert U.Join(pulls) == header + greeting;
    U.HeaderEndStays(header, header + greeting);
    assert (header + greeting)[..|header|] == header;
    U.AnswerIsTheStreams(http, pulls);
    U.LossExactly(http, pulls);
    U.OpenAtFirst(pulls);
    U.AnswerParts(http, pulls);
  }

  /** A network on which everything succeeds, upstream's stream arrives in one pull, and the tunnel
      is idle. */
  function OnePullNet(http: U.Http, stream: Bytes, preamble: Bytes, idle: seq<T.State>): ConnectNet {
    ConnectNet(true, true, None, true, true, |preamble|, [], http, [stream], |ESTABLISHED|, stream, idle)
  }

  lemma OnePullTunnels(cfg: Config, http: U.Http, stream: Bytes, preamble: Bytes, idle: seq<T.State>)
    requires !cfg.tls && U.ReadAnswer(http, [stream]).Answer? && U.ReadAnswer(http, [stream]).head.status == 200
    ensures ExitOf(true, cfg, OnePullNet(http, stream, preamble, idle), preamble) == Tunnelled
  {
    assert preamble + [] == preamble;
  }

  lemma IdlePlausible(cfg: Config, net: ConnectNet)
    requires cfg.extra == map[] && net.headerOrder == [] && net.pulls == [net.upstreamSends] && net.upstreamSends != []
    requires T.IsRun(cfg.idleTimeout, net.tunnel) && T.Last(net.tunnel).returned
    requires T.Last(net.tunnel).copy.upstream.read == [] == T.Last(net.tunnel).copy.upstream.accepted
    requires AnswerOf(net).taken == net.upstreamSends
    ensures Plausible(cfg, net)
    ensures AnswerOf(net).taken + Downloaded(net) == net.upstreamSends
  {
  }

  lemma IdleReply(net: ConnectNet)
    requires net.tunnel != [] && T.Last(net.tunnel).copy.upstream.accepted == []
    ensures ReplyAt(Tunnelled, net) == ESTABLISHED
  {
  }

  /** The loss is real: whatever header upstream says 200 with, a greeting that arrives together
      with it is lost, on a run that reaches the tunnel and relays all there is to relay. */
  lemma GreetingIsLost(cfg: Config, host: string, http: U.Http, header: Bytes, greeting: Bytes)
      returns (net: ConnectNet)
    requires cfg.extra == map[] && !cfg.tls && cfg.idleTimeout > 0
    requires U.HeaderEnd(header) == Some(|header|) && http.parse(header).Some? && http.parse(header).value.status == 200
    requires greeting != [] && |header| + |greeting| <= U.CAPACITY
    ensures Plausible(cfg, net) && net.http == http && net.upstreamSends == header + greeting && |net.pulls| == 1
    ensures ExitOf(true, cfg, net, Preamble(cfg, host, net.headerOrder)) == Tunnelled
    ensures ReplyAt(Tunnelled, net) == ESTABLISHED && U.Lost(AnswerOf(net)) == greeting
    ensures AnswerOf(net).taken + Downloaded(net) == net.upstreamSends
  {
    var idle := IdleTunnel(cfg.idleTimeout);
    net := OnePullNet(http, header + greeting, Preamble(cfg, host, []), idle);
    OnePull(http, header, greeting);
    OnePullTunnels(cfg, http, header + greeting, Preamble(cfg, host, []), idle);
    IdlePlausible(cfg, net);
    IdleReply(net);
  }
}
