/** The buffered reader handleConnect puts on the upstream connection to read the answer to its
    CONNECT, and what is left in it when the tunnel goes on with the connection itself.

    The reader takes bytes off the socket one socket read at a time, and only when it has used up
    what it holds: until the header is complete, and then, when the response body is closed, until
    the announced body is. How the network cuts the stream into these reads, the pulls, is a
    parameter. */
module UpstreamReaders {
  import opened Text

  /** The size of the reader's buffer, the default of bufio.NewReader. */
  const CAPACITY: nat := 4096

  // ---------------------------------------------------------------------------
  // The answer to CONNECT
  // ---------------------------------------------------------------------------

  /** The text ends with a blank line: a line end directly after another one. */
  predicate EndsBlank(s: Bytes) {
    HasSuffix(s, "\n\n") || HasSuffix(s, "\n\r\n")
  }

  /** Where the header ends: after the first blank line. */
  function HeaderEnd(s: Bytes): (end: Option<nat>)
    ensures end.Some? ==> 0 < end.value <= |s|
  {
    if s == [] then None
    else
      match HeaderEnd(s[..|s| - 1])
      case Some(e) => Some(e)
      case None => if EndsBlank(s) then Some(|s|) else None
  }

  /** It is the end of a blank line, and of the first one. */
  lemma {:induction false} HeaderEndIsFirst(s: Bytes, e: nat)
    requires e <= |s|
    ensures HeaderEnd(s) == Some(e) ==> EndsBlank(s[..e])
    ensures EndsBlank(s[..e]) ==> HeaderEnd(s).Some? && HeaderEnd(s).value <= e
    ensures HeaderEnd(s) == Some(e) ==> HeaderEnd(s[..e]) == Some(e)
  {
    if e == |s| {
      assert s[..e] == s;
    } else {
      HeaderEndIsFirst(s[..|s| - 1], e);
      assert s[..|s| - 1][..e] == s[..e];
    }
  }

  /** What closing the response body reads through. A response without Content-Length, or one that
      announces the end of the connection, is Unframed: closing its body reads nothing. */
  datatype Framing = Unframed | Sized(n: nat) | Chunked(ends: Bytes -> bool)

  predicate BodyDone(body: Framing, rest: Bytes) {
    match body
    case Unframed => true
    case Sized(n) => |rest| >= n
    case Chunked(ends) => rest != [] && ends(rest)
  }

  predicate AnnouncesBody(body: Framing) {
    !BodyDone(body, [])
  }

  /** What the handler uses of a response header: the code, the status line (code and text), and
      the framing of the body. */
  datatype Head = Head(status: nat, statusLine: string, body: Framing)

  /** How net/http parses header text; None for text it rejects. */
  datatype Http = Http(parse: Bytes -> Option<Head>)

  // ---------------------------------------------------------------------------
  // Pulls
  // ---------------------------------------------------------------------------

  function Join(pulls: seq<Bytes>): Bytes {
    if pulls == [] then [] else Join(pulls[..|pulls| - 1]) + pulls[|pulls| - 1]
  }

  /** Every pull brings at least one byte. */
  predicate Substantial(pulls: seq<Bytes>) {
    forall r :: r in pulls ==> r != []
  }

  /** The header is not complete after n pulls. */
  predicate HeaderOpen(pulls: seq<Bytes>, n: nat)
    requires n <= |pulls|
  {
    HeaderEnd(Join(pulls[..n])).None?
  }

  /** After how many pulls, k at least, the header is complete or no more come. */
  function HeaderPulls(pulls: seq<Bytes>, k: nat): (n: nat)
    requires k <= |pulls|
    ensures k <= n <= |pulls| && (n < |pulls| ==> !HeaderOpen(pulls, n))
    ensures forall m :: k <= m < n ==> HeaderOpen(pulls, m)
    decreases |pulls| - k
  {
    if k == |pulls| || !HeaderOpen(pulls, k) then k else HeaderPulls(pulls, k + 1)
  }

  /** After how many pulls, k at least, the body is read through or no more come. */
  function BodyPulls(body: Framing, at: nat, pulls: seq<Bytes>, k: nat): (n: nat)
    requires k <= |pulls| && at <= |Join(pulls[..k])|
    ensures k <= n <= |pulls|
    decreases |pulls| - k
  {
    if k == |pulls| || BodyDone(body, Join(pulls[..k])[at..]) then k
    else
      JoinOneMore(pulls, k);
      BodyPulls(body, at, pulls, k + 1)
  }

  lemma JoinOneMore(pulls: seq<Bytes>, k: nat)
    requires k < |pulls|
    ensures Join(pulls[..k + 1]) == Join(pulls[..k]) + pulls[k]
  {
    assert pulls[..k + 1][..k] == pulls[..k];
  }

  /** What the reader makes of the pulls: all it has taken off the socket, and the answer with its
      header, if there is one. */
  datatype Reading =
    | NoAnswer(taken: Bytes)
    | Answer(head: Head, header: Bytes, taken: Bytes)
  {
    function Response(): Option<Head> {
      if Answer? then Some(head) else None
    }
  }

  function ReadAnswer(http: Http, pulls: seq<Bytes>): Reading {
    var k := HeaderPulls(pulls, 0);
    var got := Join(pulls[..k]);
    match HeaderEnd(got)
    case None => NoAnswer(got)
    case Some(e) =>
      match http.parse(got[..e])
      case None => NoAnswer(got)
      case Some(head) => Answer(head, got[..e], Join(pulls[..BodyPulls(head.body, e, pulls, k)]))
  }

  /** bufio.NewReader(upstream), with the response read from it. */
  class UpstreamReader {
    var taken: Bytes             // everything taken off the socket
    var coming: seq<Bytes>       // what further socket reads return, until the connection fails
    var headLength: nat          // how much of it is the response header
    ghost const pulls: seq<Bytes>
    ghost var used: nat

    ghost predicate Valid()
      reads this
    {
      used <= |pulls| && taken == Join(pulls[..used]) && coming == pulls[used..] && headLength <= |taken|
    }

    constructor (pulls: seq<Bytes>)
      ensures Valid() && this.pulls == pulls && used == 0
    {
      this.taken, this.coming, this.headLength, this.pulls, this.used := [], pulls, 0, pulls, 0;
    }

    /** One read from the socket. */
    method Fill()
      requires Valid() && coming != []
      modifies this`taken, this`coming, this`used
      ensures Valid() && used == old(used) + 1 && |coming| == |old(coming)| - 1
    {
      JoinOneMore(pulls, used);
      taken := taken + coming[0];
      coming := coming[1..];
      used := used + 1;
    }

    /** http.ReadResponse: None if the connection fails before the header is complete, or if the
        header is malformed. */
    method ReadResponse(http: Http) returns (head: Option<Head>)
      requires Valid() && used == 0
      modifies this
      ensures Valid() && used == HeaderPulls(pulls, 0)
      ensures head == ReadAnswer(http, pulls).Response()
      ensures head.None? ==> taken == ReadAnswer(http, pulls).taken
      ensures head.Some? ==> headLength == |ReadAnswer(http, pulls).header|
    {
      var end := HeaderEnd(taken);
      while end.None? && coming != []
        invariant Valid() && end == HeaderEnd(taken)
        invariant HeaderPulls(pulls, 0) == HeaderPulls(pulls, used)
        decreases |coming|
      {
        Fill();
        end := HeaderEnd(taken);
      }
      if end.None? {
        return None;
      }
      headLength := end.value;
      head := http.parse(taken[..headLength]);
    }

    /** resp.Body.Close: reads through what is left of the announced body. */
    method CloseBody(http: Http, body: Framing)
      requires Valid() && used == HeaderPulls(pulls, 0)
      requires ReadAnswer(http, pulls).Response().Some? && body == ReadAnswer(http, pulls).head.body
      requires headLength == |ReadAnswer(http, pulls).header|
      modifies this`taken, this`coming, this`used
      ensures Valid() && taken == ReadAnswer(http, pulls).taken
    {
      while !BodyDone(body, taken[headLength..]) && coming != []
        invariant Valid()
        invariant BodyPulls(body, headLength, pulls, old(used)) == BodyPulls(body, headLength, pulls, used)
        decreases |coming|
      {
        Fill();
      }
    }
  }

  // ---------------------------------------------------------------------------
  // The answer does not depend on the cuts
  // ---------------------------------------------------------------------------

  lemma {:induction false} JoinGrows(pulls: seq<Bytes>, k: nat, n: nat)
    requires k <= n <= |pulls|
    ensures Join(pulls[..k]) <= Join(pulls[..n])
    ensures Substantial(pulls) ==> |Join(pulls[..n])| - |Join(pulls[..k])| >= n - k
  {
    if k < n {
      JoinGrows(pulls, k, n - 1);
      JoinOneMore(pulls, n - 1);
      assert pulls[n - 1] in pulls;
    }
  }

  /** A header that is complete stays so, whatever follows. */
  lemma {:induction false} HeaderEndStays(s: Bytes, t: Bytes)
    requires s <= t
    ensures HeaderEnd(s).Some? ==> HeaderEnd(t) == HeaderEnd(s)
    ensures HeaderEnd(s).None? && HeaderEnd(t).Some? ==> HeaderEnd(t).value > |s|
  {
    if s != t {
      HeaderEndStays(s, t[..|t| - 1]);
    }
  }

  /** The stream has a complete and well-formed header. */
  predicate HasAnswer(http: Http, stream: Bytes) {
    HeaderEnd(stream).Some? && http.parse(stream[..HeaderEnd(stream).value]).Some?
  }

  lemma HeaderOfCut(pulls: seq<Bytes>)
    requires HeaderEnd(Join(pulls)).Some?
    ensures Join(pulls[..HeaderPulls(pulls, 0)]) <= Join(pulls)
    ensures HeaderEnd(Join(pulls[..HeaderPulls(pulls, 0)])) == HeaderEnd(Join(pulls))
  {
    var k := HeaderPulls(pulls, 0);
    assert pulls[..|pulls|] == pulls;
    JoinGrows(pulls, k, |pulls|);
    HeaderEndStays(Join(pulls[..k]), Join(pulls));
  }

  lemma AnswerParts(http: Http, pulls: seq<Bytes>)
    requires ReadAnswer(http, pulls).Answer?
    ensures
      var answer := ReadAnswer(http, pulls);
      var k := HeaderPulls(pulls, 0);
      var got := Join(pulls[..k]);
      var n := BodyPulls(answer.head.body, |answer.header|, pulls, k);
      && answer.header <= got
      && HeaderEnd(got) == Some(|answer.header|) && HeaderEnd(answer.header) == Some(|answer.header|)
      && got <= answer.taken == Join(pulls[..n])
  {
    var answer := ReadAnswer(http, pulls);
    var k := HeaderPulls(pulls, 0);
    var got := Join(pulls[..k]);
    var e := HeaderEnd(got).value;
    JoinGrows(pulls, k, BodyPulls(answer.head.body, e, pulls, k));
    HeaderEndIsFirst(got, e);
  }

  /** However the network cuts the stream, the reader finds the same answer. */
  lemma AnswerIsTheStreams(http: Http, pulls: seq<Bytes>)
    requires HasAnswer(http, Join(pulls))
    ensures
      var answer := ReadAnswer(http, pulls);
      var e := HeaderEnd(Join(pulls)).value;
      && answer.Answer? && answer.header == Join(pulls)[..e] && Some(answer.head) == http.parse(answer.header)
      && answer.header <= answer.taken <= Join(pulls)
  {
    HeaderOfCut(pulls);
    var got, e := Join(pulls[..HeaderPulls(pulls, 0)]), HeaderEnd(Join(pulls)).value;
    assert got[..e] == Join(pulls)[..e];
    AnswerParts(http, pulls);
    var answer := ReadAnswer(http, pulls);
    assert pulls[..|pulls|] == pulls;
    JoinGrows(pulls, BodyPulls(answer.head.body, e, pulls, HeaderPulls(pulls, 0)), |pulls|);
  }

  // ---------------------------------------------------------------------------
  // What the tunnel misses
  // ---------------------------------------------------------------------------

  /** Bytes of upstream's that the reader has taken and the tunnel will not see, and that are not
      part of the header. */
  function Lost(answer: Reading): Bytes
    requires answer.Answer? && answer.header <= answer.taken
  {
    answer.taken[|answer.header|..]
  }

  /** Some pull ends exactly where the header ends, and then either no body is announced or
      nothing more comes. */
  ghost predicate CleanCut(pulls: seq<Bytes>, header: Bytes, body: Framing) {
    exists k :: 0 <= k <= |pulls| && Join(pulls[..k]) == header && (AnnouncesBody(body) ==> k == |pulls|)
  }

  /** The reader stops at the header exactly if its last pull for it ends there, and it either has
      no body to look for or finds nothing. */
  lemma StopsAtHeader(body: Framing, pulls: seq<Bytes>, header: Bytes, k: nat)
    requires Substantial(pulls) && k <= |pulls| && header <= Join(pulls[..k])
    ensures
      Join(pulls[..BodyPulls(body, |header|, pulls, k)]) == header <==>
        Join(pulls[..k]) == header && (AnnouncesBody(body) ==> k == |pulls|)
  {
    JoinGrows(pulls, k, BodyPulls(body, |header|, pulls, k));
    if Join(pulls[..k]) == header {
      assert Join(pulls[..k])[|header|..] == [];
    }
  }

  /** Only the last pull for the header can end where the header does. */
  lemma HeaderCutIsLast(pulls: seq<Bytes>, m: nat)
    requires Substantial(pulls) && m <= |pulls| && HeaderEnd(Join(pulls[..m])) == Some(|Join(pulls[..m])|)
    ensures m == HeaderPulls(pulls, 0)
  {
    var k := HeaderPulls(pulls, 0);
    assert !HeaderOpen(pulls, m);
    JoinGrows(pulls, k, m);
    HeaderEndStays(Join(pulls[..k]), Join(pulls[..m]));
  }

  /** Nothing is lost if and only if no pull brings bytes from past the header's end: one of them
      ends there, and none follows to look for a body. */
  lemma LossExactly(http: Http, pulls: seq<Bytes>)
    requires ReadAnswer(http, pulls).Answer? && Substantial(pulls)
    ensures
      var answer := ReadAnswer(http, pulls);
      && answer.header <= answer.taken
      && (Lost(answer) == [] <==> CleanCut(pulls, answer.header, answer.head.body))
  {
    AnswerParts(http, pulls);
    var answer := ReadAnswer(http, pulls);
    StopsAtHeader(answer.head.body, pulls, answer.header, HeaderPulls(pulls, 0));
    if m :|
      0 <= m <= |pulls| && Join(pulls[..m]) == answer.header && (AnnouncesBody(answer.head.body) ==> m == |pulls|)
    {
      HeaderCutIsLast(pulls, m);
    }
  }

  lemma OpenAtFirst(pulls: seq<Bytes>)
    ensures HeaderOpen(pulls, 0)
  {
    assert Join(pulls[..0]) == [];
  }

  lemma FirstClosed(pulls: seq<Bytes>, k: nat)
    requires 0 < k <= |pulls| && HeaderOpen(pulls, k - 1) && !HeaderOpen(pulls, k)
    ensures Join(pulls[..k]) == Join(pulls[..k - 1]) + pulls[k - 1]
    ensures HeaderEnd(Join(pulls[..k])).value > |Join(pulls[..k - 1])|
  {
    JoinOneMore(pulls, k - 1);
    HeaderEndStays(Join(pulls[..k - 1]), Join(pulls[..k]));
  }

  /** The pull that completes the header brings at least its last byte. */
  lemma LastHeaderPull(pulls: seq<Bytes>)
    requires !HeaderOpen(pulls, HeaderPulls(pulls, 0))
    ensures
      var k := HeaderPulls(pulls, 0);
      && 0 < k && Join(pulls[..k]) == Join(pulls[..k - 1]) + pulls[k - 1]
      && HeaderEnd(Join(pulls[..k])).value > |Join(pulls[..k - 1])|
  {
    var k := HeaderPulls(pulls, 0);
    OpenAtFirst(pulls);
    FirstClosed(pulls, k);
  }

  lemma NothingToRead(body: Framing, at: nat, pulls: seq<Bytes>, k: nat)
    requires !AnnouncesBody(body) && k <= |pulls| && at <= |Join(pulls[..k])|
    ensures BodyPulls(body, at, pulls, k) == k
  {
  }

  /** Without a body to read through, what is lost fits into one pull with at least one byte of the
      header. */
  lemma LossFitsTheBuffer(http: Http, pulls: seq<Bytes>)
    requires ReadAnswer(http, pulls).Answer? && !AnnouncesBody(ReadAnswer(http, pulls).head.body)
    requires forall p :: p in pulls ==> |p| <= CAPACITY
    ensures
      var answer := ReadAnswer(http, pulls);
      answer.header <= answer.taken && |Lost(answer)| < CAPACITY
  {
    var k := HeaderPulls(pulls, 0);
    AnswerParts(http, pulls);
    NothingToRead(ReadAnswer(http, pulls).head.body, |ReadAnswer(http, pulls).header|, pulls, k);
    LastHeaderPull(pulls);
    assert pulls[k - 1] in pulls;
  }

  /** Closing a body of n bytes takes pulls until n bytes past the header are there or no more come,
      and not one more; so it takes none if they are there already, as for n == 0. */
  lemma {:induction false} SizedBodyTakes(n: nat, at: nat, pulls: seq<Bytes>, k: nat)
    requires k <= |pulls| && at <= |Join(pulls[..k])|
    ensures
      var m := BodyPulls(Sized(n), at, pulls, k);
      && (m == |pulls| || |Join(pulls[..m])| >= at + n)
      && (forall j :: k <= j < m ==> |Join(pulls[..j])| < at + n)
    ensures |Join(pulls[..k])| >= at + n ==> BodyPulls(Sized(n), at, pulls, k) == k
    ensures AnnouncesBody(Sized(n)) <==> n > 0
    ensures BodyPulls(Unframed, at, pulls, k) == k
    decreases |pulls| - k
  {
    if k < |pulls| && |Join(pulls[..k])| < at + n {
      JoinOneMore(pulls, k);
      SizedBodyTakes(n, at, pulls, k + 1);
    }
  }

  // ---------------------------------------------------------------------------
  // What upstream can do about it
  // ---------------------------------------------------------------------------

  /** A way for the network to deliver the stream to the reader. */
  ghost predicate Cuts(pulls: seq<Bytes>, stream: Bytes) {
    Join(pulls) == stream && Substantial(pulls) && forall p :: p in pulls ==> |p| <= CAPACITY
  }

  /** Some byte past the header does not reach the client. */
  predicate Loses(http: Http, pulls: seq<Bytes>) {
    var answer := ReadAnswer(http, pulls);
    answer.Answer? && |answer.taken| > |answer.header|
  }

  lemma {:induction false} JoinSplits(a: seq<Bytes>, b: seq<Bytes>)
    ensures Join(a + b) == Join(a) + Join(b)
  {
    if b == [] {
      assert a + b == a;
    } else {
      JoinSplits(a, b[..|b| - 1]);
      assert (a + b)[..|a + b| - 1] == a + b[..|b| - 1];
    }
  }

  function Singles(s: Bytes): seq<Bytes> {
    seq(|s|, i requires 0 <= i < |s| => [s[i]])
  }

  lemma {:induction false} SinglesCut(s: Bytes)
    ensures Cuts(Singles(s), s)
  {
    if s != [] {
      var init := s[..|s| - 1];
      SinglesCut(init);
      assert Singles(s)[..|s| - 1] == Singles(init);
    }
  }

  /** The stream byte by byte, but for two bytes that come together. */
  function PairedAt(s: Bytes, e: nat): seq<Bytes>
    requires 0 < e < |s|
  {
    Singles(s[..e - 1]) + [s[e - 1..e + 1]] + Singles(s[e + 1..])
  }

  lemma PairedParts(s: Bytes, e: nat)
    requires 0 < e < |s|
    ensures
      var all := PairedAt(s, e);
      && |all| == |s| - 1 && all[..e - 1] == Singles(s[..e - 1]) && all[..e] == Singles(s[..e - 1]) + [s[e - 1..e + 1]]
      && all == all[..e] + Singles(s[e + 1..])
  {
  }

  lemma PairedPrefixes(s: Bytes, e: nat)
    requires 0 < e < |s|
    ensures |PairedAt(s, e)| == |s| - 1
    ensures Join(PairedAt(s, e)[..e - 1]) == s[..e - 1] && Join(PairedAt(s, e)[..e]) == s[..e + 1]
  {
    PairedParts(s, e);
    SinglesCut(s[..e - 1]);
    JoinOneMore(PairedAt(s, e), e - 1);
  }

  lemma PairedCut(s: Bytes, e: nat)
    requires 0 < e < |s|
    ensures Cuts(PairedAt(s, e), s)
  {
    PairedPrefixes(s, e);
    PairedParts(s, e);
    SinglesCut(s[e + 1..]);
    JoinSplits(PairedAt(s, e)[..e], Singles(s[e + 1..]));
    assert s == s[..e + 1] + s[e + 1..];
  }

  /** No pull of it ends at e. */
  lemma PairedMisses(s: Bytes, e: nat, k: nat)
    requires 0 < e < |s| && k <= |PairedAt(s, e)|
    ensures |Join(PairedAt(s, e)[..k])| != e
  {
    PairedPrefixes(s, e);
    if k < e {
      JoinGrows(PairedAt(s, e), k, e - 1);
    } else {
      JoinGrows(PairedAt(s, e), e, k);
    }
  }

  /** Whether the client gets everything is out of upstream's hands as soon as it sends anything
      after the header before the tunnel is up: every cut of what it sends by then is safe if and
      only if that ends with the header. */
  lemma EveryCutIsSafe(http: Http, early: Bytes)
    requires HasAnswer(http, early)
    ensures (forall pulls :: Cuts(pulls, early) ==> !Loses(http, pulls)) <==> HeaderEnd(early) == Some(|early|)
  {
    var e := HeaderEnd(early).value;
    if e == |early| {
      forall pulls | Cuts(pulls, early) ensures !Loses(http, pulls) {
        AnswerIsTheStreams(http, pulls);
      }
    } else {
      var pulls := PairedAt(early, e);
      PairedCut(early, e);
      AnswerIsTheStreams(http, pulls);
      LossExactly(http, pulls);
      forall k | 0 <= k <= |pulls| ensures |Join(pulls[..k])| != e {
        PairedMisses(early, e, k);
      }
      assert Loses(http, pulls);
    }
  }

  /** If it does not end with the header, then some cut is safe if and only if no body is
      announced: closing a body takes bytes from the tunnel however the stream is cut. */
  lemma SomeCutIsSafe(http: Http, early: Bytes)
    requires HasAnswer(http, early) && HeaderEnd(early) != Some(|early|)
    ensures
      var body := http.parse(early[..HeaderEnd(early).value]).value.body;
      (exists pulls :: Cuts(pulls, early) && !Loses(http, pulls)) <==> !AnnouncesBody(body)
  {
    var e := HeaderEnd(early).value;
    var body := http.parse(early[..e]).value.body;
    if !AnnouncesBody(body) {
      var pulls := Singles(early);
      SinglesCut(early);
      SinglesCut(early[..e]);
      assert pulls[..e] == Singles(early[..e]);
      AnswerIsTheStreams(http, pulls);
      LossExactly(http, pulls);
      assert CleanCut(pulls, early[..e], body);
      assert !Loses(http, pulls);
    } else {
      forall pulls | Cuts(pulls, early) ensures Loses(http, pulls) {
        AnswerIsTheStreams(http, pulls);
        LossExactly(http, pulls);
        assert pulls[..|pulls|] == pulls;
      }
    }
  }
}
