/** What a CONNECT comes to, read from the outside: what upstream and the client can tell from the
    bytes they get, and what the audit log and the counters tell about the peers. */
module ConnectLaws {
  import opened Text
  import opened HostPort
  import opened Ledgers
  import opened Exchanges
  import opened HeaderTexts
  import HR = HeaderRewrite
  import T = Tunnel
  import U = UpstreamReaders

  // ---------------------------------------------------------------------------
  // What upstream reads
  // ---------------------------------------------------------------------------

  /** A configuration and host that can be written on header lines. */
  predicate Writable(cfg: Config, host: string) {
    && Inline(host) && Inline(cfg.auth)
    && forall n :: n in cfg.extra ==> HR.IsToken(n) && Inline(cfg.extra[n])
  }

  function ExtraFields(extra: map<string, string>, order: seq<string>): (fields: seq<(Bytes, Bytes)>)
    requires forall n :: n in order ==> n in extra
    ensures |fields| == |order|
  {
    seq(|order|, i requires 0 <= i < |order| => (order[i], extra[order[i]]))
  }

  lemma {:induction false} ExtraLinesCons(extra: map<string, string>, order: seq<string>)
    requires order != [] && forall n :: n in order ==> n in extra
    ensures ExtraLines(extra, order) == HeaderLine(order[0], extra[order[0]]) + ExtraLines(extra, order[1..])
  {
    var init, last := order[..|order| - 1], order[|order| - 1];
    if |order| == 1 {
      assert init == [] && order[1..] == [];
      NoExtraLines(extra);
    } else {
      ExtraLinesCons(extra, init);
      assert order[1..] == init[1..] + [last] && order == init + [last];
      ExtraLinesSnoc(extra, init[1..], last);
      ExtraLinesSnoc(extra, init, last);
      Associate(HeaderLine(order[0], extra[order[0]]), ExtraLines(extra, init[1..]), HeaderLine(last, extra[last]));
    }
  }

  lemma NoExtraLines(extra: map<string, string>)
    ensures ExtraLines(extra, []) == []
  {
  }

  lemma ExtraLinesSnoc(extra: map<string, string>, order: seq<string>, last: string)
    requires last in extra && forall n :: n in order ==> n in extra
    ensures ExtraLines(extra, order + [last]) == ExtraLines(extra, order) + HeaderLine(last, extra[last])
  {
    assert (order + [last])[..|order|] == order;
  }

  lemma Associate(a: Bytes, b: Bytes, c: Bytes)
    ensures (a + b) + c == a + (b + c)
  {
  }

  lemma TokenIsInline(name: string)
    requires HR.IsToken(name)
    ensures Inline(name) && ':' !in name
  {
    assert forall c :: c in name ==> HR.IsTokenChar(c);
    assert !HR.IsTokenChar('\n') && !HR.IsTokenChar('\r') && !HR.IsTokenChar(':');
  }

  lemma ReadsHeaderLine(name: string, value: string, more: Bytes)
    requires Inline(name) && Inline(value) && ':' !in name && ReadFields(more).Some?
    ensures
      var f := ReadFields(more).value;
      ReadFields(HeaderLine(name, value) + more) == Some(Fields([(name, value)] + f.fields, f.rest))
  {
    ReadsOneField(name, value, more);
  }

  lemma Prepend(a: Bytes, b: Bytes, c: Bytes, d: Bytes)
    ensures (a + b) + c + d == a + (b + c + d)
  {
  }

  lemma ExtraFieldsCons(extra: map<string, string>, order: seq<string>)
    requires order != [] && forall n :: n in order ==> n in extra
    ensures ExtraFields(extra, order) == [(order[0], extra[order[0]])] + ExtraFields(extra, order[1..])
  {
  }

  lemma ReadsFirstExtra(extra: map<string, string>, order: seq<string>, rest: Bytes)
    requires order != [] && forall n :: n in order ==> n in extra
    requires HR.IsToken(order[0]) && Inline(extra[order[0]])
    requires ReadFields(ExtraLines(extra, order[1..]) + CRLF + rest).Some?
    ensures
      var f := ReadFields(ExtraLines(extra, order[1..]) + CRLF + rest).value;
      ReadFields(ExtraLines(extra, order) + CRLF + rest) ==
        Some(Fields([(order[0], extra[order[0]])] + f.fields, f.rest))
  {
    var name, more := order[0], ExtraLines(extra, order[1..]);
    TokenIsInline(name);
    ReadsHeaderLine(name, extra[name], more + CRLF + rest);
    ExtraLinesCons(extra, order);
    Prepend(HeaderLine(name, extra[name]), more, CRLF, rest);
  }

  lemma {:induction false} ReadsExtra(extra: map<string, string>, order: seq<string>, rest: Bytes)
    requires forall n :: n in order ==> n in extra
    requires forall n :: n in extra ==> HR.IsToken(n) && Inline(extra[n])
    ensures ReadFields(ExtraLines(extra, order) + CRLF + rest) == Some(Fields(ExtraFields(extra, order), rest))
  {
    if order == [] {
      ReadsBlank(rest);
      NoExtraLines(extra);
      assert [] + CRLF + rest == "\r\n" + rest;
    } else {
      ReadsExtra(extra, order[1..], rest);
      ReadsFirstExtra(extra, order, rest);
      ExtraFieldsCons(extra, order);
    }
  }

  /** The fields upstream finds: the host, the credentials if any are configured, and the extra
      headers with their values in the order of iteration. */
  function FieldsSent(cfg: Config, host: string, order: seq<string>): seq<(Bytes, Bytes)>
    requires forall n :: n in order ==> n in cfg.extra
  {
    [("Host", host)] + (if cfg.auth == "" then [] else [("Proxy-Authorization", cfg.auth)]) +
    ExtraFields(cfg.extra, order)
  }

  lemma Regroup(a: Bytes, b: Bytes, c: Bytes, d: Bytes, e: Bytes)
    ensures a + b + c + d + e == a + (b + (c + d + e))
  {
  }

  function AuthLine(auth: string): Bytes {
    if auth == "" then [] else HeaderLine("Proxy-Authorization", auth)
  }

  lemma ReadsAuthLine(auth: string, more: Bytes)
    requires Inline(auth) && ReadFields(more).Some?
    ensures
      var f := ReadFields(more).value;
      ReadFields(AuthLine(auth) + more) ==
        Some(Fields((if auth == "" then [] else [("Proxy-Authorization", auth)]) + f.fields, f.rest))
  {
    var f := ReadFields(more).value;
    if auth == "" {
      assert [] + more == more && [] + f.fields == f.fields;
    } else {
      ReadsHeaderLine("Proxy-Authorization", auth, more);
    }
  }

  lemma ReadsOpeningFields(cfg: Config, host: string, order: seq<string>, rest: Bytes)
    requires Writable(cfg, host) && forall n :: n in order ==> n in cfg.extra
    ensures
      ReadFields(HeaderLine("Host", host) + AuthLine(cfg.auth) + ExtraLines(cfg.extra, order) + CRLF + rest) ==
        Some(Fields(FieldsSent(cfg, host, order), rest))
  {
    var extra := ExtraLines(cfg.extra, order);
    ReadsExtra(cfg.extra, order, rest);
    ReadsAuthLine(cfg.auth, extra + CRLF + rest);
    HostLine(host, AuthLine(cfg.auth) + (extra + CRLF + rest));
    Regroup(HeaderLine("Host", host), AuthLine(cfg.auth), extra, CRLF, rest);
    FieldsGroup([("Host", host)], if cfg.auth == "" then [] else [("Proxy-Authorization", cfg.auth)],
                ExtraFields(cfg.extra, order));
  }

  lemma FieldsGroup(a: seq<(Bytes, Bytes)>, b: seq<(Bytes, Bytes)>, c: seq<(Bytes, Bytes)>)
    ensures a + (b + c) == a + b + c
  {
  }

  lemma HostLine(host: string, more: Bytes)
    requires Inline(host) && ReadFields(more).Some?
    ensures
      var f := ReadFields(more).value;
      ReadFields(HeaderLine("Host", host) + more) == Some(Fields([("Host", host)] + f.fields, f.rest))
  {
    ReadsHeaderLine("Host", host, more);
  }

  lemma PreambleParts(cfg: Config, host: string, order: seq<string>, rest: Bytes)
    requires forall n :: n in order ==> n in cfg.extra
    ensures Preamble(cfg, host, order) + rest ==
      RequestLine(host) + (HeaderLine("Host", host) + AuthLine(cfg.auth) + ExtraLines(cfg.extra, order) + CRLF + rest)
  {
    var start, hostLine, auth := RequestLine(host), HeaderLine("Host", host), AuthLine(cfg.auth);
    assert Opening(cfg, host) == start + hostLine + auth;
    Shift(start, hostLine, auth, ExtraLines(cfg.extra, order), CRLF, rest);
  }

  lemma Shift(a: Bytes, b: Bytes, c: Bytes, d: Bytes, e: Bytes, f: Bytes)
    ensures (a + b + c) + d + e + f == a + (b + c + d + e + f)
  {
  }

  lemma StartLine(host: string, more: Bytes)
    requires Inline(host) && ReadFields(more).Some?
    ensures
      var f := ReadFields(more).value;
      ReadRequest(RequestLine(host) + more) == Some(Request("CONNECT", host, "HTTP/1.1", f.fields, f.rest))
  {
    RequestLineParts(host, more);
    ReadsStart("CONNECT", host, "HTTP/1.1", more);
  }

  lemma RequestLineParts(host: string, more: Bytes)
    ensures RequestLine(host) + more == "CONNECT" + " " + host + " " + "HTTP/1.1" + "\r\n" + more
  {
    assert "CONNECT " == "CONNECT" + " " && " HTTP/1.1" == " " + "HTTP/1.1";
    Shift("CONNECT " + host, " ", "HTTP/1.1", CRLF, more, []);
  }

  /** The preamble read back: a CONNECT request for the host, with exactly these fields, and
      whatever follows untouched. */
  lemma PreambleReads(cfg: Config, host: string, order: seq<string>, rest: Bytes)
    requires Writable(cfg, host) && forall n :: n in order ==> n in cfg.extra
    ensures ReadRequest(Preamble(cfg, host, order) + rest) ==
      Some(Request("CONNECT", host, "HTTP/1.1", FieldsSent(cfg, host, order), rest))
  {
    var more := HeaderLine("Host", host) + AuthLine(cfg.auth) + ExtraLines(cfg.extra, order) + CRLF + rest;
    ReadsOpeningFields(cfg, host, order, rest);
    PreambleParts(cfg, host, order, rest);
    StartLine(host, more);
  }

  // ---------------------------------------------------------------------------
  // The preamble is one header
  // ---------------------------------------------------------------------------

  function FieldLine(name: string, value: string): Line {
    Line(name + ": " + value, true)
  }

  lemma FieldLineFits(name: string, value: string)
    requires Inline(name) && Inline(value)
    ensures OneLine(FieldLine(name, value).text) && !Blank(FieldLine(name, value))
    ensures FieldLine(name, value).Raw() == HeaderLine(name, value)
  {
    assert FieldLine(name, value).text[|name|] == ':';
  }

  function ExtraTextLines(extra: map<string, string>, order: seq<string>): seq<Line>
    requires forall n :: n in order ==> n in extra
  {
    seq(|order|, i requires 0 <= i < |order| => FieldLine(order[i], extra[order[i]]))
  }

  lemma ExtraLinesFit(extra: map<string, string>, order: seq<string>)
    requires forall n :: n in order ==> n in extra
    requires forall n :: n in extra ==> HR.IsToken(n) && Inline(extra[n])
    ensures
      var lines := ExtraTextLines(extra, order);
      forall i :: 0 <= i < |lines| ==> OneLine(lines[i].text) && !Blank(lines[i])
  {
    forall i | 0 <= i < |order|
      ensures var l := ExtraTextLines(extra, order)[i]; OneLine(l.text) && !Blank(l)
    {
      assert order[i] in order;
      TokenIsInline(order[i]);
      FieldLineFits(order[i], extra[order[i]]);
    }
  }

  lemma {:induction false} ExtraText(extra: map<string, string>, order: seq<string>, before: seq<Line>)
    requires forall n :: n in order ==> n in extra
    requires forall n :: n in extra ==> HR.IsToken(n) && Inline(extra[n])
    ensures TextOf(before + ExtraTextLines(extra, order)) == TextOf(before) + ExtraLines(extra, order)
  {
    var lines := ExtraTextLines(extra, order);
    if order == [] {
      assert before + lines == before;
    } else {
      var init, last := order[..|order| - 1], order[|order| - 1];
      ExtraText(extra, init, before);
      TokenIsInline(last);
      FieldLineFits(last, extra[last]);
      OneMoreLine(before + ExtraTextLines(extra, init), FieldLine(last, extra[last]));
      assert before + lines == before + ExtraTextLines(extra, init) + [FieldLine(last, extra[last])];
    }
  }

  lemma OneMoreLine(lines: seq<Line>, line: Line)
    ensures TextOf(lines + [line]) == TextOf(lines) + line.Raw()
  {
    assert (lines + [line])[..|lines|] == lines;
  }

  function OpeningLines(cfg: Config, host: string): seq<Line> {
    [Line("CONNECT " + host + " HTTP/1.1", true), FieldLine("Host", host)] +
    if cfg.auth == "" then [] else [FieldLine("Proxy-Authorization", cfg.auth)]
  }

  lemma TwoLines(a: Line, b: Line)
    ensures TextOf([a, b]) == a.Raw() + b.Raw()
  {
    OneMoreLine([], a);
    OneMoreLine([a], b);
    assert [] + [a] == [a] && [a] + [b] == [a, b];
  }

  lemma OpeningText(cfg: Config, host: string)
    requires Inline(host) && Inline(cfg.auth)
    ensures TextOf(OpeningLines(cfg, host)) == Opening(cfg, host)
  {
    var start, hostLine := Line("CONNECT " + host + " HTTP/1.1", true), FieldLine("Host", host);
    FieldLineFits("Host", host);
    FieldLineFits("Proxy-Authorization", cfg.auth);
    TwoLines(start, hostLine);
    if cfg.auth != "" {
      OneMoreLine([start, hostLine], FieldLine("Proxy-Authorization", cfg.auth));
    } else {
      assert OpeningLines(cfg, host) == [start, hostLine];
    }
  }

  lemma OpeningFits(cfg: Config, host: string)
    requires Inline(host) && Inline(cfg.auth)
    ensures HeaderLines(OpeningLines(cfg, host))
  {
    FieldLineFits("Host", host);
    FieldLineFits("Proxy-Authorization", cfg.auth);
  }

  /** The preamble is one header and nothing more: it ends where its header does, whatever
      follows. */
  lemma PreambleIsOneHeader(cfg: Config, host: string, order: seq<string>, rest: Bytes)
    requires Writable(cfg, host) && forall n :: n in order ==> n in cfg.extra
    ensures U.HeaderEnd(Preamble(cfg, host, order) + rest) == Some(|Preamble(cfg, host, order)|)
  {
    var opening, extra := OpeningLines(cfg, host), ExtraTextLines(cfg.extra, order);
    OpeningText(cfg, host);
    OpeningFits(cfg, host);
    ExtraText(cfg.extra, order, opening);
    ExtraLinesFit(cfg.extra, order);
    assert HeaderLines(opening + extra);
    HeaderEndsAtBlank(opening + extra, true, rest);
    assert Line("", true).Raw() == CRLF;
  }

  // ---------------------------------------------------------------------------
  // What the client reads
  // ---------------------------------------------------------------------------

  /** Three digits between the ninth character and the thirteenth. */
  lemma ReadsThreeDigits(s: Bytes, a: char, b: char, c: char)
    requires |s| > 12 && ' ' !in s[..8] && s[8] == ' ' && s[12] == ' '
    requires s[9] == a && s[10] == b && s[11] == c && IsDigit(a) && IsDigit(b) && IsDigit(c)
    ensures ReadStatus(s) == Some(100 * (a as int - 48) + 10 * (b as int - 48) + (c as int - 48))
  {
    IndexIs(s, ' ', 8);
    assert IndexFrom(s, ' ', 9) == 12;
    var digits := s[9..12];
    assert digits == [a, b, c] && digits[..2] == [a, b] && digits[..2][..1] == [a] && [a][..0] == [];
    assert DecimalValue([a]) == a as int - 48;
    assert DecimalValue([a, b]) == 10 * DecimalValue([a]) + (b as int - 48);
  }

  lemma EstablishedReads(rest: Bytes)
    ensures ReadStatus(ESTABLISHED + rest) == Some(200)
  {
    var line := "HTTP/1.1 200 Connection established";
    var s := ESTABLISHED + rest;
    assert s[..|line|] == line;
    assert line[..8] == "HTTP/1.1" && s[..8] == line[..8];
    assert s[8] == ' ' && s[9] == '2' && s[10] == '0' && s[11] == '0' && s[12] == ' ';
    ReadsThreeDigits(s, '2', '0', '0');
  }

  lemma BadGatewayReads(rest: Bytes)
    ensures ReadStatus(BAD_GATEWAY + rest) == Some(502)
  {
    var line := "HTTP/1.1 502 Bad Gateway";
    var s := BAD_GATEWAY + rest;
    assert s[..|line|] == line;
    assert line[..8] == "HTTP/1.1" && s[..8] == line[..8];
    assert s[8] == ' ' && s[9] == '5' && s[10] == '0' && s[11] == '2' && s[12] == ' ';
    ReadsThreeDigits(s, '5', '0', '2');
  }

  /** Both are one header and nothing more. */
  lemma RepliesAreOneHeader(rest: Bytes)
    ensures U.HeaderEnd(ESTABLISHED + rest) == Some(|ESTABLISHED|)
    ensures U.HeaderEnd(BAD_GATEWAY + rest) == Some(|BAD_GATEWAY|)
  {
    OneLineHeader("HTTP/1.1 200 Connection established", rest);
    OneLineHeader("HTTP/1.1 502 Bad Gateway", rest);
  }

  lemma OneLineHeader(line: Bytes, rest: Bytes)
    requires OneLine(line)
    ensures U.HeaderEnd(line + CRLF + CRLF + rest) == Some(|line| + 4)
  {
    var lines := [Line(line, true)];
    OneMoreLine([], lines[0]);
    assert [] + lines == lines && TextOf(lines) == line + CRLF;
    HeaderEndsAtBlank(lines, true, rest);
    assert TextOf(lines) + Line("", true).Raw() == line + CRLF + CRLF;
  }

  lemma RejectionReads(head: U.Head)
    ensures ReadStatus(RejectionLine(head)) == Some(head.status)
  {
    ReadsStatus("HTTP/1.1", head.status, head.statusLine + CRLF + CRLF);
    assert "HTTP/1.1 " == "HTTP/1.1" + " ";
    assert RejectionLine(head) ==
      "HTTP/1.1" + " " + Decimal(head.status) + " " + (head.statusLine + CRLF + CRLF);
  }

  /** A rejection is one header too, if the status line is one line. */
  lemma RejectionIsOneHeader(head: U.Head)
    requires OneLine(head.statusLine)
    ensures U.HeaderEnd(RejectionLine(head)) == Some(|RejectionLine(head)|)
  {
    var line := "HTTP/1.1 " + Decimal(head.status) + " " + head.statusLine;
    assert forall c :: c in Decimal(head.status) ==> c != '\n';
    assert OneLine(line);
    OneLineHeader(line, []);
    assert RejectionLine(head) == line + CRLF + CRLF + [];
  }

  // ---------------------------------------------------------------------------
  // What the books tell about the peers
  // ---------------------------------------------------------------------------

  /** The books a CONNECT ends with, by the contract of HandleConnect. */
  function BooksOf(allowed: bool, cfg: Config, net: ConnectNet, target: (string, Port), preamble: Bytes): Ledger
    requires net.tunnel != []
  {
    BooksAt(ExitOf(allowed, cfg, net, preamble), net, target, preamble)
  }

  /** There is a connection to upstream to write to: the request was allowed, the client's
      connection could be taken over, and dial and TLS part succeeded. */
  predicate Connected(allowed: bool, cfg: Config, net: ConnectNet) {
    allowed && net.canHijack && net.hijackOk && net.dialOk && (!cfg.tls || (cfg.hasCerts && net.handshakeOk))
  }

  /** Upstream has taken the whole preamble and said yes to it. */
  predicate SaidYes(allowed: bool, cfg: Config, net: ConnectNet, preamble: Bytes) {
    && Connected(allowed, cfg, net) && |preamble| <= net.upstreamTakes
    && AnswerOf(net).Answer? && AnswerOf(net).head.status == 200
  }

  /** An allow event, an allow count, a byte to upstream beyond the preamble: each means that
      everything before has succeeded and that upstream's answer was 200. */
  lemma TunnelNeedsYes(allowed: bool, cfg: Config, net: ConnectNet, target: (string, Port), preamble: Bytes)
    requires net.tunnel != []
    ensures
      var l := BooksOf(allowed, cfg, net, target, preamble);
      && ((exists e :: e in l.audits && e.Audited? && e.decision.Allow?) ==> SaidYes(allowed, cfg, net, preamble))
      && (Allowed in l.counts ==> SaidYes(allowed, cfg, net, preamble))
      && (|l.sent| > |preamble| ==> SaidYes(allowed, cfg, net, preamble))
      && (l.moved != (0, 0) ==> SaidYes(allowed, cfg, net, preamble))
  {
  }

  /** The counters tell the way out: each goes up exactly when the peers behaved like this. */
  lemma CountsTellPeers(allowed: bool, cfg: Config, net: ConnectNet, target: (string, Port), preamble: Bytes)
    requires net.tunnel != []
    ensures
      var l := BooksOf(allowed, cfg, net, target, preamble);
      && |l.counts| <= 1
      && (Denied in l.counts <==> !allowed)
      && (UpstreamError in l.counts <==>
          && allowed && net.canHijack && net.hijackOk
          && (!Connected(allowed, cfg, net) || (|preamble| <= net.upstreamTakes && AnswerOf(net).NoAnswer?)))
      && (UpstreamRejected in l.counts <==>
          && Connected(allowed, cfg, net) && |preamble| <= net.upstreamTakes
          && AnswerOf(net).Answer? && AnswerOf(net).head.status != 200)
      && (Allowed in l.counts <==>
          && SaidYes(allowed, cfg, net, preamble) && |ESTABLISHED| <= net.clientTakes
          && |preamble| + |Buffered(net)| <= net.upstreamTakes)
      && BadRequest !in l.counts
      && (l.dialErrors == 1 <==> allowed && net.canHijack && net.hijackOk && !Connected(allowed, cfg, net))
      && (l.dialErrors == 0 || l.dialErrors == 1)
  {
  }

  /** Answers through the ResponseWriter: 403 exactly for what is not allowed, 500 exactly if the
      connection cannot be taken over, and none otherwise; and nothing reaches either peer then. */
  lemma ResponsesTellPeers(allowed: bool, cfg: Config, net: ConnectNet, target: (string, Port), preamble: Bytes)
    requires net.tunnel != []
    ensures
      var l := BooksOf(allowed, cfg, net, target, preamble);
      && (l.responses == [403] <==> !allowed)
      && (l.responses == [500] <==> allowed && !net.canHijack)
      && (l.responses == [] <==> allowed && net.canHijack)
      && (!allowed || !net.canHijack || !net.hijackOk ==> l.sent == [] && l.reply == [])
      && (!Connected(allowed, cfg, net) ==> l.sent == [])
  {
  }

  /** The audit event names the pair AllowHost was asked about. A deny event carries 403 and no
      bytes. An allow event carries 200 and the bytes of the tunnel alone: what the client got
      after the 200 line, and what upstream got after the preamble and the bytes sent ahead; and
      these are what the byte counters go up by. */
  lemma AuditTellsBytes(allowed: bool, cfg: Config, net: ConnectNet, target: (string, Port), preamble: Bytes)
    requires net.tunnel != []
    ensures
      var l := BooksOf(allowed, cfg, net, target, preamble);
      && (!allowed ==> l.audits == [Audited(Deny, target.0, target.1, 403, 0, 0)] && l.moved == (0, 0))
      && (allowed && Allowed !in l.counts ==> l.audits == [] && l.moved == (0, 0))
      && (Allowed in l.counts ==>
          && |l.reply| >= |ESTABLISHED| && |l.sent| >= |preamble| + |Buffered(net)|
          && l.moved == (|l.sent| - |preamble| - |Buffered(net)|, |l.reply| - |ESTABLISHED|)
          && l.audits == [Audited(Allow, target.0, target.1, 200, l.moved.1, l.moved.0)])
  {
  }

  /** What upstream has got is a beginning of the preamble, the bytes the client had sent ahead and
      what the tunnel uploaded, in this order: as much of the preamble as it took, and more only
      after its yes. */
  lemma SentIsInOrder(allowed: bool, cfg: Config, net: ConnectNet, target: (string, Port), preamble: Bytes)
    requires net.tunnel != []
    ensures
      var l := BooksOf(allowed, cfg, net, target, preamble);
      && l.sent <= preamble + Buffered(net) + Uploaded(net)
      && (Connected(allowed, cfg, net) && |preamble| > net.upstreamTakes ==> |l.sent| == net.upstreamTakes)
      && (Connected(allowed, cfg, net) && |preamble| <= net.upstreamTakes ==> preamble <= l.sent)
      && (SaidYes(allowed, cfg, net, preamble) && net.clientTakes >= |ESTABLISHED| && Allowed !in l.counts ==>
          |l.sent| == net.upstreamTakes)
  {
    var p, b, u := preamble, Buffered(net), Uploaded(net);
    assert p + b <= p + b + u && p <= p + b;
  }

  lemma EstablishedPrefix(s: Bytes)
    ensures ESTABLISHED <= s ==> ReadStatus(s) == Some(200)
  {
    if ESTABLISHED <= s {
      EstablishedReads(s[|ESTABLISHED|..]);
      assert s == ESTABLISHED + s[|ESTABLISHED|..];
    }
  }

  lemma RepliesRead(down: Bytes)
    ensures ReadStatus(ESTABLISHED) == ReadStatus(ESTABLISHED + down) == Some(200)
    ensures ReadStatus(BAD_GATEWAY) == Some(502)
  {
    EstablishedReads(down);
    EstablishedReads([]);
    BadGatewayReads([]);
    assert ESTABLISHED + [] == ESTABLISHED && BAD_GATEWAY + [] == BAD_GATEWAY;
  }

  lemma OthersAreNotEstablished(head: U.Head)
    ensures !(ESTABLISHED <= BAD_GATEWAY)
    ensures head.status != 200 ==> !(ESTABLISHED <= RejectionLine(head))
  {
    EstablishedPrefix(BAD_GATEWAY);
    RepliesRead([]);
    EstablishedPrefix(RejectionLine(head));
    RejectionReads(head);
  }

  /** The client is told that the connection is established exactly if upstream has said yes. */
  lemma EstablishedMeansYes(allowed: bool, cfg: Config, net: ConnectNet, target: (string, Port), preamble: Bytes)
    requires net.tunnel != []
    ensures
      var l := BooksOf(allowed, cfg, net, target, preamble);
      ESTABLISHED <= l.reply <==> SaidYes(allowed, cfg, net, preamble) && |ESTABLISHED| <= net.clientTakes
  {
    OthersAreNotEstablished(if AnswerOf(net).Answer? then AnswerOf(net).head else U.Head(0, "", U.Unframed));
  }

  lemma WholeReply(allowed: bool, cfg: Config, net: ConnectNet, target: (string, Port), preamble: Bytes)
    requires net.tunnel != []
    requires |ESTABLISHED| <= net.clientTakes && |BAD_GATEWAY| <= net.clientTakes
    requires AnswerOf(net).Answer? ==> |RejectionLine(AnswerOf(net).head)| <= net.clientTakes
    ensures
      var reply := BooksOf(allowed, cfg, net, target, preamble).reply;
      if !allowed || !net.canHijack || !net.hijackOk then reply == []
      else if !Connected(allowed, cfg, net) then reply == BAD_GATEWAY
      else if net.upstreamTakes < |preamble| then reply == []
      else if AnswerOf(net).NoAnswer? then reply == BAD_GATEWAY
      else if AnswerOf(net).head.status != 200 then reply == RejectionLine(AnswerOf(net).head)
      else reply == ESTABLISHED || reply == ESTABLISHED + Downloaded(net)
  {
  }

  /** What a client that takes whole answers reads: nothing if it was never taken over, or if
      upstream's connection failed within the preamble; 502 if upstream could not be reached or
      gave no answer; and otherwise the code upstream has given. */
  lemma ClientReadsStatus(allowed: bool, cfg: Config, net: ConnectNet, target: (string, Port), preamble: Bytes)
    requires net.tunnel != []
    requires |ESTABLISHED| <= net.clientTakes && |BAD_GATEWAY| <= net.clientTakes
    requires AnswerOf(net).Answer? ==> |RejectionLine(AnswerOf(net).head)| <= net.clientTakes
    ensures
      var reply := BooksOf(allowed, cfg, net, target, preamble).reply;
      if !allowed || !net.canHijack || !net.hijackOk then reply == []
      else if !Connected(allowed, cfg, net) then ReadStatus(reply) == Some(502)
      else if net.upstreamTakes < |preamble| then reply == []
      else if AnswerOf(net).NoAnswer? then ReadStatus(reply) == Some(502)
      else ReadStatus(reply) == Some(AnswerOf(net).head.status)
  {
    RepliesRead(Downloaded(net));
    if AnswerOf(net).Answer? {
      RejectionReads(AnswerOf(net).head);
    }
    WholeReply(allowed, cfg, net, target, preamble);
  }
}
