/** Host and port splitting: splitHostPort and defaultPortForScheme of the proxy handler. */
module HostPort {
  import opened Text

  datatype Split = Split(host: string, port: string) | Malformed

  /** Position of the first c at or after `from`, or |s|. */
  function IndexFrom(s: string, c: char, from: nat): (i: nat)
    requires from <= |s|
    ensures from <= i <= |s|
    ensures i < |s| ==> s[i] == c
    ensures forall j :: from <= j < i ==> s[j] != c
    decreases |s| - from
  {
    if from == |s| || s[from] == c then from else IndexFrom(s, c, from + 1)
  }

  /** Position of the last c, or -1. */
  function LastIndex(s: string, c: char): (i: int)
    ensures -1 <= i < |s|
    ensures i >= 0 ==> s[i] == c
    ensures forall j :: i < j < |s| ==> s[j] != c
  {
    if s == [] then -1
    else if s[|s| - 1] == c then |s| - 1
    else LastIndex(s[..|s| - 1], c)
  }

  /** The host:port grammar of package net: the port follows the last colon, and a host
      holding a colon stands in brackets. */
  function SplitHostPort(s: string): Split {
    var i := LastIndex(s, ':');
    if i < 0 then Malformed
    else if s[0] == '[' then
      var end := IndexFrom(s, ']', 0);
      if end == |s| || end + 1 != i then Malformed
      else if '[' in s[1..] || ']' in s[end + 1..] then Malformed
      else Split(s[1..end], s[i + 1..])
    else if ':' in s[..i] || '[' in s || ']' in s then Malformed
    else Split(s[..i], s[i + 1..])
  }

  /** A base-10 number of at most 32 bits. */
  function ParsePort(s: string): Option<Port> {
    if s == [] || exists c :: c in s && !IsDigit(c) then None
    else if DecimalValue(s) < 0x1_0000_0000 then Some(DecimalValue(s))
    else None
  }

  /** The pair the access decision and the audit log work with. */
  function Target(hostport: string, defaultPort: Port): (string, Port) {
    match SplitHostPort(hostport)
    case Malformed => (hostport, defaultPort)
    case Split(host, port) =>
      match ParsePort(port)
      case None => (host, defaultPort)
      case Some(p) => (host, p)
  }

  function DefaultPortForScheme(scheme: string): Port {
    if scheme == "https" then 443 else 80
  }

  /** host:port text as clients write it, with brackets around a host that holds a colon. */
  function Join(host: string, port: string): string {
    if ':' in host then "[" + host + "]:" + port else host + ":" + port
  }

  ghost predicate Bracketless(s: string) {
    '[' !in s && ']' !in s
  }

  lemma DecimalIsPlain(p: Port)
    ensures ':' !in Decimal(p) && Bracketless(Decimal(p))
    ensures ParsePort(Decimal(p)) == Some(p)
  {
    DecimalRoundTrip(p);
  }

  lemma LastIndexIs(s: string, c: char, i: nat)
    requires i < |s| && s[i] == c && c !in s[i + 1..]
    ensures LastIndex(s, c) == i
  {
    assert forall j :: i < j < |s| ==> s[j] == s[i + 1..][j - i - 1];
  }

  lemma IndexIs(s: string, c: char, i: nat)
    requires i < |s| && s[i] == c && c !in s[..i]
    ensures IndexFrom(s, c, 0) == i
  {
    assert forall j :: 0 <= j < i ==> s[j] == s[..i][j];
  }

  lemma LastColon(prefix: string, port: string)
    requires ':' !in port
    ensures LastIndex(prefix + ":" + port, ':') == |prefix|
  {
    var s := prefix + ":" + port;
    assert s[|prefix| + 1..] == port;
    LastIndexIs(s, ':', |prefix|);
  }

  lemma JoinSplitsPlain(host: string, port: string)
    requires ':' !in host && Bracketless(host) && Bracketless(port) && ':' !in port
    ensures SplitHostPort(host + ":" + port) == Split(host, port)
  {
    var s := host + ":" + port;
    LastColon(host, port);
    assert s[..|host|] == host && s[|host| + 1..] == port;
    assert forall c :: c in s ==> c in host || c == ':' || c in port;
    assert s[0] in s;
  }

  lemma JoinSplitsBracketed(host: string, port: string)
    requires Bracketless(host) && Bracketless(port) && ':' !in port
    ensures SplitHostPort("[" + host + "]:" + port) == Split(host, port)
  {
    var s, prefix := "[" + host + "]:" + port, "[" + host + "]";
    assert s == prefix + ":" + port;
    LastColon(prefix, port);
    assert s[..|host| + 1] == "[" + host;
    IndexIs(s, ']', |host| + 1);
    assert s[1..] == host + "]:" + port;
    assert s[|host| + 2..] == ":" + port;
    assert s[1..|host| + 1] == host && s[|prefix| + 1..] == port;
  }

  /** A joined address splits into its two parts whenever the host has no bracket. */
  lemma JoinSplits(host: string, port: string)
    requires Bracketless(host) && Bracketless(port) && ':' !in port
    ensures SplitHostPort(Join(host, port)) == Split(host, port)
  {
    if ':' in host {
      JoinSplitsBracketed(host, port);
    } else {
      JoinSplitsPlain(host, port);
    }
  }

  /** The grammar itself: the pieces a split may return, and the texts it returns them for. */
  ghost predicate Spells(s: string, host: string, port: string) {
    && Bracketless(host) && Bracketless(port) && ':' !in port
    && (s == "[" + host + "]:" + port || (':' !in host && s == host + ":" + port))
  }

  /** The index arithmetic accepts exactly the texts of the grammar and cuts them where the
      grammar does. */
  lemma SplitIsTheGrammar(s: string, host: string, port: string)
    ensures SplitHostPort(s) == Split(host, port) <==> Spells(s, host, port)
  {
    if Spells(s, host, port) {
      if s == "[" + host + "]:" + port {
        JoinSplitsBracketed(host, port);
      } else {
        JoinSplitsPlain(host, port);
      }
    }
    if SplitHostPort(s) == Split(host, port) {
      SplitSpells(s, host, port);
    }
  }

  lemma SplitSpells(s: string, host: string, port: string)
    requires SplitHostPort(s) == Split(host, port)
    ensures Spells(s, host, port)
  {
    var i := LastIndex(s, ':');
    assert s == s[..i] + ":" + s[i + 1..];
    assert ':' !in port by {
      assert forall j :: 0 <= j < |port| ==> port[j] == s[i + 1 + j];
    }
    if s[0] == '[' {
      BracketedParts(s, host, port);
    } else {
      SubstringIn(s, 0, i);
      SubstringIn(s, i + 1, |s|);
    }
  }

  lemma SubstringIn(s: string, lo: nat, hi: nat)
    requires lo <= hi <= |s|
    ensures forall c :: c in s[lo..hi] ==> c in s
  {
  }

  lemma BracketedParts(s: string, host: string, port: string)
    requires SplitHostPort(s) == Split(host, port) && s[0] == '['
    ensures Bracketless(host) && Bracketless(port) && s == "[" + host + "]:" + port
  {
    var end := IndexFrom(s, ']', 0);
    assert s[1..][..end - 1] == host && s[1..][end + 1..] == port;
    SubstringIn(s[1..], 0, end - 1);
    SubstringIn(s[1..], end + 1, |s| - 1);
    assert s[end + 1..][1..] == port;
    SubstringIn(s[end + 1..], 1, |s| - end - 1);
    assert forall j :: 0 <= j < |host| ==> host[j] == s[j + 1] && s[j + 1] != ']';
    assert s == [s[0]] + host + [s[end], s[end + 1]] + port;
  }

  /** A host that does hold a bracket never comes back. */
  lemma BracketsNeverReturn(host: string, port: string, d: Port)
    requires !Bracketless(host) && ':' !in port
    ensures Target(Join(host, port), d).0 != host
  {
    var s := Join(host, port);
    if ':' in host {
      var prefix := "[" + host + "]";
      assert s == prefix + ":" + port;
      LastColon(prefix, port);
      assert s[1..] == host + ("]:" + port);
      if '[' in host {
        assert '[' in s[1..];
      } else {
        var k :| 0 <= k < |host| && host[k] == ']';
        assert s[k + 1] == ']';
        assert IndexFrom(s, ']', 0) <= k + 1;
      }
    } else {
      LastColon(host, port);
      assert s[0] == host[0];
      assert forall c :: c in host ==> c in s;
      if s[0] != '[' {
        assert '[' in s || ']' in s;
      }
    }
  }

  /** The host:port round trip, with the exact bound on hosts: every host without brackets,
      and no other, comes back with its 32-bit port. */
  lemma HostPortRoundTrip(host: string, p: Port, d: Port)
    ensures Target(Join(host, Decimal(p)), d) == (host, p) <==> Bracketless(host)
  {
    DecimalIsPlain(p);
    if Bracketless(host) {
      JoinSplits(host, Decimal(p));
    } else {
      BracketsNeverReturn(host, Decimal(p), d);
    }
  }

  /** Any other port text (empty, not a number, or 2^32 and above) leaves the host intact and
      gives the default port. */
  lemma BadPortFallsBack(host: string, port: string, d: Port)
    requires Bracketless(host) && Bracketless(port) && ':' !in port
    requires port == [] || (exists c :: c in port && !IsDigit(c)) || DecimalValue(port) >= 0x1_0000_0000
    ensures Target(Join(host, port), d) == (host, d)
  {
    JoinSplits(host, port);
  }

  /** Text the grammar does not spell in any way is taken whole, with the default port. */
  lemma MalformedIsWhole(s: string, d: Port)
    ensures SplitHostPort(s).Malformed? <==> forall host, port :: !Spells(s, host, port)
    ensures (forall host, port :: !Spells(s, host, port)) ==> Target(s, d) == (s, d)
  {
    match SplitHostPort(s)
    case Split(host, port) => SplitIsTheGrammar(s, host, port);
    case Malformed =>
      forall host, port ensures !Spells(s, host, port) {
        SplitIsTheGrammar(s, host, port);
      }
  }

  /** The ports, as numerals: http goes to 80, https to 443, and anything else where http does. */
  lemma SchemePorts(host: string, scheme: string)
    requires ':' !in host && Bracketless(host)
    ensures Target(host, DefaultPortForScheme("http")) == Target(host + ":80", 0) == (host, 80)
    ensures Target(host, DefaultPortForScheme("https")) == Target(host + ":443", 0) == (host, 443)
    ensures scheme != "https" ==> Target(host, DefaultPortForScheme(scheme)) == (host, 80)
  {
    BareHost(host, DefaultPortForScheme(scheme));
    BareHost(host, 80);
    BareHost(host, 443);
    assert Decimal(8) == "8" && Decimal(80) == "80";
    assert Decimal(4) == "4" && Decimal(44) == "44" && Decimal(443) == "443";
    assert host + ":" + "80" == host + ":80" && host + ":" + "443" == host + ":443";
    HostPortRoundTrip(host, 80, 0);
    HostPortRoundTrip(host, 443, 0);
  }

  /** A bare host without a colon is a target on the default port. */
  lemma BareHost(host: string, d: Port)
    requires ':' !in host
    ensures Target(host, d) == (host, d)
  {
    assert LastIndex(host, ':') < 0;
  }
}
