/** From the target text of a request to the verdict: splitting and AllowHost together do not
    depend on how a host is spelled. */
module Spelling {
  import opened Text
  import opened HostPort
  import opened ServiceEntries

  /** The decision on the target text of a request. */
  ghost function DecideTarget(entries: seq<ServiceEntry>, text: string, defaultPort: Port): Answer {
    var (host, port) := Target(text, defaultPort);
    Decide(entries, host, port)
  }

  /** A host name that needs no brackets and does not end in a dot. */
  predicate PlainHost(host: string) {
    ':' !in host && '[' !in host && ']' !in host && !HasSuffix(host, ".")
  }

  lemma FoldKeepsPlain(host: string, other: string)
    requires PlainHost(host) && EqualFold(host, other)
    ensures PlainHost(other)
  {
    assert |host| == |other|;
    forall i | 0 <= i < |host|
      ensures other[i] != ':' && other[i] != '[' && other[i] != ']' && (other[i] == '.' ==> host[i] == '.')
    {
      assert ToLower(host)[i] == ToLower(other)[i];
      assert host[i] in host;
    }
    DotSuffix(host);
    DotSuffix(other);
  }

  lemma DotSuffix(s: string)
    ensures HasSuffix(s, ".") <==> s != [] && s[|s| - 1] == '.'
  {
    if s != [] {
      assert s[|s| - 1..] == [s[|s| - 1]];
    }
  }

  lemma DotIsTrimmed(host: string)
    requires PlainHost(host)
    ensures Normalize(host) == ToLower(host) && Normalize(host + ".") == ToLower(host)
  {
    assert (host + ".")[|host|..] == "." && (host + ".")[..|host|] == host;
  }

  /** How a client may spell a host and port. */
  function Spelled(host: string, dot: bool, port: Option<Port>): string {
    var h := if dot then host + "." else host;
    match port
    case None => h
    case Some(p) => h + ":" + Decimal(p)
  }

  lemma SpelledTarget(host: string, dot: bool, port: Option<Port>, d: Port)
    requires PlainHost(host)
    ensures
      var (h, p) := Target(Spelled(host, dot, port), d);
      Normalize(h) == ToLower(host) && p == if port.Some? then port.value else d
  {
    var h := if dot then host + "." else host;
    DotIsTrimmed(host);
    match port
    case None => BareHost(h, d);
    case Some(p) => HostPortRoundTrip(h, p, d);
  }

  /** Spelling invariance: letter case, one trailing dot, and the default port explicit or left
      out make no difference to the decision. */
  lemma SpellingDoesNotMatter(entries: seq<ServiceEntry>, host: string, other: string,
                              dot: bool, dot': bool, port: Option<Port>, port': Option<Port>, d: Port)
    requires PlainHost(host) && EqualFold(host, other)
    requires port.GetOr(d) == port'.GetOr(d)
    ensures DecideTarget(entries, Spelled(host, dot, port), d) == DecideTarget(entries, Spelled(other, dot', port'), d)
  {
    FoldKeepsPlain(host, other);
    SpelledTarget(host, dot, port, d);
    SpelledTarget(other, dot', port', d);
  }

  /** A target without a port is decided as on port 443 if its scheme is https, and as on port 80 if
      it is http or any other. */
  lemma SchemeDecides(entries: seq<ServiceEntry>, host: string, scheme: string)
    requires PlainHost(host)
    ensures DecideTarget(entries, host, DefaultPortForScheme("https")) == DecideTarget(entries, host + ":443", 0)
    ensures scheme != "https" ==>
      DecideTarget(entries, host, DefaultPortForScheme(scheme)) == DecideTarget(entries, host + ":80", 0)
  {
    SchemePorts(host, scheme);
    SchemePorts(host, "http");
  }

  /** The same for the scheme's default port, as the forward path calls it. */
  lemma SchemePortMayBeOmitted(entries: seq<ServiceEntry>, host: string, scheme: string)
    requires PlainHost(host)
    ensures
      var d := DefaultPortForScheme(scheme);
      DecideTarget(entries, host + ":" + Decimal(d), d) == DecideTarget(entries, host, d)
  {
    var d := DefaultPortForScheme(scheme);
    SpellingDoesNotMatter(entries, host, host, false, false, Some(d), None, d);
  }
}
