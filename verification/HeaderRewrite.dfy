/** Header rewriting on the forward path: hop-by-hop headers of the client are dropped, then the
    proxy's own Proxy-Authorization and the configured extra headers are set; upstream's response
    headers are copied to the client without the hop-by-hop ones. */
module HeaderRewrite {
  import opened Text
  import opened HeaderNames

  type Headers = map<string, seq<string>>

  const HOP_BY_HOP: set<string> := {
    "connection", "keep-alive", "proxy-authenticate", "proxy-authorization",
    "te", "trailers", "transfer-encoding", "upgrade" }

  const PROXY_AUTH := "Proxy-Authorization"

  predicate IsHopByHop(name: string) {
    ToLower(name) in HOP_BY_HOP
  }

  /** Bytes a header name may hold (the tokens of section 5.6.2 of RFC 9110). */
  predicate IsTokenChar(c: char) {
    'a' <= c <= 'z' || 'A' <= c <= 'Z' || '0' <= c <= '9' || c in "!#$%&'*+-.^_`|~"
  }

  /** The key net/http files a header under: the canonical spelling of a token, any other text as
      it is. */
  function HeaderKey(name: string): string {
    if forall c :: c in name ==> IsTokenChar(c) then Canonical(name) else name
  }

  predicate Dropped(k: string) {
    IsHopByHop(k) || EqualFold(k, PROXY_AUTH)
  }

  // ---------------------------------------------------------------------------
  // Keys
  // ---------------------------------------------------------------------------

  lemma KeyFixed(name: string)
    ensures HeaderKey(HeaderKey(name)) == HeaderKey(name)
    ensures EqualFold(HeaderKey(name), name)
    ensures Dropped(HeaderKey(name)) == Dropped(name)
  {
    var k := HeaderKey(name);
    if forall c :: c in name ==> IsTokenChar(c) {
      forall i | 0 <= i < |name|
        ensures IsTokenChar(k[i]) && ToLower(k)[i] == ToLower(name)[i] && Canonical(k)[i] == k[i]
      {
        assert name[i] in name;
        if i > 0 { assert (k[i - 1] == '-') == (name[i - 1] == '-'); }
      }
    }
  }

  /** The names the loop drops are tokens, so deleting one deletes its canonical spelling. */
  lemma DroppedIsToken(k: string)
    requires Dropped(k)
    ensures HeaderKey(k) == Canonical(k)
  {
    var low := ToLower(k);
    assert ToLower(PROXY_AUTH) == "proxy-authorization";
    assert low in HOP_BY_HOP;
    assert forall i :: 0 <= i < |low| ==> IsTokenChar(low[i]) by { HopNamesAreTokens(low); }
    forall c | c in k ensures IsTokenChar(c) {
      var i :| 0 <= i < |k| && k[i] == c;
      assert low[i] == LowerChar(c);
    }
  }

  lemma HopNamesAreTokens(low: string)
    requires low in HOP_BY_HOP
    ensures forall i :: 0 <= i < |low| ==> IsTokenChar(low[i])
  {
  }

  // ---------------------------------------------------------------------------
  // The rewriting, declaratively
  // ---------------------------------------------------------------------------

  /** A dropped name in canonical spelling. */
  predicate Doomed(k: string) {
    Dropped(k) && HeaderKey(k) == k
  }

  /** What survives of the client's headers. */
  function Stripped(client: Headers): Headers {
    map k | k in client && !Doomed(k) :: client[k]
  }

  function Authorized(h: Headers, auth: string): Headers {
    if auth == "" then h else h[PROXY_AUTH := [auth]]
  }

  /** No two extra headers compete for one key with different values. */
  ghost predicate NoClash(extra: map<string, string>) {
    forall a, b :: a in extra && b in extra && HeaderKey(a) == HeaderKey(b) ==> extra[a] == extra[b]
  }

  ghost predicate IsExtraKey(extra: map<string, string>, k: string) {
    exists n :: n in extra && HeaderKey(n) == k
  }

  /** The extra headers with their values, and for every other key what h holds. */
  ghost predicate Overrides(out: Headers, h: Headers, extra: map<string, string>) {
    && (forall n :: n in extra ==> HeaderKey(n) in out && out[HeaderKey(n)] == [extra[n]])
    && (forall k :: !IsExtraKey(extra, k) ==> (k in out <==> k in h) && (k in h ==> out[k] == h[k]))
  }

  /** The rewritten headers: the extra headers, else the proxy's own authorization, else what
      survives of the client's. */
  ghost predicate Rewritten(out: Headers, client: Headers, auth: string, extra: map<string, string>) {
    Overrides(out, Authorized(Stripped(client), auth), extra)
  }

  // ---------------------------------------------------------------------------
  // The code
  // ---------------------------------------------------------------------------

  /** An iteration order over the keys of a map: every key, once. */
  ghost predicate Orders(order: seq<string>, keys: set<string>) {
    && (forall k :: k in keys <==> k in order)
    && (forall i, j :: 0 <= i < j < |order| ==> order[i] != order[j])
  }

  /** Of the keys visited so far the doomed ones are gone, and nothing but doomed keys is. */
  ghost predicate GoneSoFar(order: seq<string>, i: nat, gone: set<string>)
    requires i <= |order|
  {
    (forall k :: k in gone ==> Doomed(k)) && forall j :: 0 <= j < i && Doomed(order[j]) ==> order[j] in gone
  }

  /** A visited key that is dropped takes its canonical spelling with it, which is doomed, and is
      the key itself if that is. */
  lemma VisitDrops(order: seq<string>, i: nat, gone: set<string>)
    requires i < |order| && GoneSoFar(order, i, gone) && Dropped(order[i])
    ensures GoneSoFar(order, i + 1, gone + {HeaderKey(order[i])})
  {
    KeyFixed(order[i]);
  }

  lemma VisitKeeps(client: Headers, order: seq<string>, i: nat, gone: set<string>)
    requires Orders(order, client.Keys) && i < |order| && GoneSoFar(order, i, gone)
    requires order[i] !in client - gone || !Dropped(order[i])
    ensures GoneSoFar(order, i + 1, gone)
  {
    assert order[i] in client;
  }

  lemma OneMoreGone(client: Headers, gone: set<string>, k: string)
    ensures client - gone - {k} == client - (gone + {k})
  {
  }

  lemma AllGone(client: Headers, order: seq<string>, gone: set<string>)
    requires Orders(order, client.Keys) && GoneSoFar(order, |order|, gone)
    ensures client - gone == Stripped(client)
  {
  }

  /** The deletion loop: a key deleted before its turn is not visited. Whatever the order, and
      whatever the spelling of the client's keys, exactly the canonical dropped names go. */
  method StripHopByHop(client: Headers, order: seq<string>) returns (header: Headers)
    requires Orders(order, client.Keys)
    ensures header == Stripped(client)
  {
    header := client;
    ghost var gone: set<string> := {};
    for i := 0 to |order|
      invariant header == client - gone && GoneSoFar(order, i, gone)
    {
      var k := order[i];
      if k in header && Dropped(k) {
        VisitDrops(order, i, gone);
        OneMoreGone(client, gone, HeaderKey(k));
        header := header - {HeaderKey(k)};
        gone := gone + {HeaderKey(k)};
      } else {
        VisitKeeps(client, order, i, gone);
      }
    }
    AllGone(client, order, gone);
  }

  /** The header part of buildUpstreamRequest, for any iteration order of the extra headers. */
  method BuildUpstreamHeaders(client: Headers, clientOrder: seq<string>, auth: string,
                              extra: map<string, string>, extraOrder: seq<string>) returns (header: Headers)
    requires Orders(clientOrder, client.Keys) && Orders(extraOrder, extra.Keys)
    ensures header == Overridden(Authorized(Stripped(client), auth), extra, extraOrder)
    ensures NoClash(extra) ==> Rewritten(header, client, auth, extra)
    ensures !IsExtraKey(extra, "Proxy-Authorization") ==>
      && ("Proxy-Authorization" in header <==> auth != "")
      && (auth != "" ==> header["Proxy-Authorization"] == [auth])
    ensures forall k :: !IsExtraKey(extra, k) && !IsHopByHop(k) ==>
      (k in header <==> k in client) && (k in client ==> header[k] == client[k])
  {
    header := StripHopByHop(client, clientOrder);
    if auth != "" {
      header := header[PROXY_AUTH := [auth]];
    }
    ghost var base := header;
    for i := 0 to |extraOrder|
      invariant header == Overridden(base, extra, extraOrder[..i])
    {
      assert extraOrder[..i + 1][..i] == extraOrder[..i];
      header := header[HeaderKey(extraOrder[i]) := [extra[extraOrder[i]]]];
    }
    assert extraOrder[..|extraOrder|] == extraOrder;
    if NoClash(extra) {
      OverrideRewrites(client, auth, extra, extraOrder);
    }
    UpstreamGetsAll(client, auth, extra, extraOrder);
  }

  /** Setting the listed extra headers one after the other. */
  function Overridden(h: Headers, extra: map<string, string>, order: seq<string>): Headers
    requires forall n :: n in order ==> n in extra
  {
    if order == [] then h
    else
      var n := order[|order| - 1];
      Overridden(h, extra, order[..|order| - 1])[HeaderKey(n) := [extra[n]]]
  }

  lemma {:induction false} OverrideMeans(h: Headers, extra: map<string, string>, order: seq<string>)
    requires NoClash(extra) && forall n :: n in order ==> n in extra
    ensures
      var out := Overridden(h, extra, order);
      && (forall n :: n in order ==> HeaderKey(n) in out && out[HeaderKey(n)] == [extra[n]])
      && (forall k :: (forall n :: n in order ==> HeaderKey(n) != k) ==>
          (k in out <==> k in h) && (k in h ==> out[k] == h[k]))
  {
    if order != [] {
      var init, last := order[..|order| - 1], order[|order| - 1];
      OverrideMeans(h, extra, init);
      assert forall n :: n in order <==> n in init || n == last;
    }
  }

  lemma AnyOrderOverrides(h: Headers, extra: map<string, string>, order: seq<string>)
    requires Orders(order, extra.Keys) && NoClash(extra)
    ensures Overrides(Overridden(h, extra, order), h, extra)
  {
    OverrideMeans(h, extra, order);
    forall k | !IsExtraKey(extra, k) ensures forall n :: n in order ==> HeaderKey(n) != k {
    }
  }

  lemma OverridesOnce(a: Headers, b: Headers, h: Headers, extra: map<string, string>)
    requires Overrides(a, h, extra) && Overrides(b, h, extra)
    ensures a == b
  {
    forall k ensures (k in a <==> k in b) && (k in a ==> a[k] == b[k]) {
      if n :| n in extra && HeaderKey(n) == k {
        assert a[HeaderKey(n)] == [extra[n]] && b[HeaderKey(n)] == [extra[n]];
      } else {
        assert !IsExtraKey(extra, k);
      }
    }
  }

  lemma OverrideRewrites(client: Headers, auth: string, extra: map<string, string>, order: seq<string>)
    requires Orders(order, extra.Keys) && NoClash(extra)
    ensures Rewritten(Overridden(Authorized(Stripped(client), auth), extra, order), client, auth, extra)
  {
    AnyOrderOverrides(Authorized(Stripped(client), auth), extra, order);
  }

  // ---------------------------------------------------------------------------
  // Consequences
  // ---------------------------------------------------------------------------

  /** In a request whose header keys are canonical, as net/http parses them, no hop-by-hop name
      survives, nor the client's Proxy-Authorization, and everything else does. */
  lemma NoHopByHopSurvives(client: Headers)
    requires forall k :: k in client ==> HeaderKey(k) == k
    ensures forall k :: k in Stripped(client) ==> !Dropped(k)
    ensures Stripped(client) == map k | k in client && !Dropped(k) :: client[k]
  {
  }

  /** For keys of any spelling: no dropped name survives if and only if those of the client's keys
      that are dropped are canonical. */
  lemma StrippedExactly(client: Headers)
    ensures (forall k :: k in Stripped(client) ==> !Dropped(k)) <==>
      (forall k :: k in client && Dropped(k) ==> HeaderKey(k) == k)
  {
    if forall k :: k in Stripped(client) ==> !Dropped(k) {
      forall k | k in client && Dropped(k) ensures HeaderKey(k) == k {
        assert k !in Stripped(client);
      }
    }
  }

  /** The rewriting is a function of the headers and the configuration. */
  lemma RewrittenOnce(a: Headers, b: Headers, client: Headers, auth: string, extra: map<string, string>)
    requires Rewritten(a, client, auth, extra) && Rewritten(b, client, auth, extra)
    ensures a == b
  {
    OverridesOnce(a, b, Authorized(Stripped(client), auth), extra);
  }

  /** Stripping and authorizing rewritten headers again brings back what was overridden. */
  lemma StripAgain(once: Headers, client: Headers, auth: string, extra: map<string, string>, k: string)
    requires Rewritten(once, client, auth, extra) && !IsExtraKey(extra, k)
    ensures
      var h' := Authorized(Stripped(once), auth);
      (k in once <==> k in h') && (k in h' ==> once[k] == h'[k])
  {
    var h := Authorized(Stripped(client), auth);
    assert (k in once <==> k in h) && (k in h ==> once[k] == h[k]);
    if k != PROXY_AUTH {
      assert k in h <==> k in Stripped(client);
    } else {
      assert Doomed(PROXY_AUTH) by {
        assert ToLower(PROXY_AUTH) == "proxy-authorization";
      }
    }
  }

  /** Rewriting rewritten headers changes nothing. */
  lemma RewriteTwice(once: Headers, twice: Headers, client: Headers, auth: string, extra: map<string, string>)
    requires Rewritten(once, client, auth, extra) && Rewritten(twice, once, auth, extra)
    ensures twice == once
  {
    var h' := Authorized(Stripped(once), auth);
    forall k | !IsExtraKey(extra, k) ensures (k in once <==> k in h') && (k in h' ==> once[k] == h'[k]) {
      StripAgain(once, client, auth, extra, k);
    }
    OverridesOnce(once, twice, h', extra);
  }

  /** The order in which the extra headers are visited does not matter if and only if no two of
      them set one key to different values. */
  lemma OrderMattersExactly(h: Headers, extra: map<string, string>)
    ensures NoClash(extra) <==>
      forall a, b :: Orders(a, extra.Keys) && Orders(b, extra.Keys) ==>
        Overridden(h, extra, a) == Overridden(h, extra, b)
  {
    if NoClash(extra) {
      forall a, b | Orders(a, extra.Keys) && Orders(b, extra.Keys)
        ensures Overridden(h, extra, a) == Overridden(h, extra, b)
      {
        AnyOrderOverrides(h, extra, a);
        AnyOrderOverrides(h, extra, b);
        OverridesOnce(Overridden(h, extra, a), Overridden(h, extra, b), h, extra);
      }
    } else {
      var m, n :| m in extra && n in extra && HeaderKey(m) == HeaderKey(n) && extra[m] != extra[n];
      var a := EndingIn(extra, m);
      var b := EndingIn(extra, n);
      assert Overridden(h, extra, a)[HeaderKey(m)] == [extra[m]];
      assert Overridden(h, extra, b)[HeaderKey(m)] == [extra[n]];
    }
  }

  /** An iteration order of the extra headers that ends in a given one. */
  lemma EndingIn(extra: map<string, string>, last: string) returns (order: seq<string>)
    requires last in extra
    ensures Orders(order, extra.Keys) && order != [] && order[|order| - 1] == last
  {
    var rest := Enumerated(extra.Keys - {last});
    order := rest + [last];
    assert forall k :: k in order <==> k in rest || k == last;
  }

  lemma {:induction false} Enumerated(keys: set<string>) returns (order: seq<string>)
    ensures forall k :: k in keys <==> k in order
    ensures forall i, j :: 0 <= i < j < |order| ==> order[i] != order[j]
    decreases |keys|
  {
    if keys == {} {
      order := [];
    } else {
      var k :| k in keys;
      var rest := Enumerated(keys - {k});
      order := rest + [k];
      assert forall x :: x in order <==> x in rest || x == k;
    }
  }

  /** Extra headers touch no other key, whatever their order and whether they clash or not. */
  lemma {:induction false} OverriddenElsewhere(h: Headers, extra: map<string, string>, order: seq<string>, k: string)
    requires (forall n :: n in order ==> n in extra) && !IsExtraKey(extra, k)
    ensures
      var out := Overridden(h, extra, order);
      (k in out <==> k in h) && (k in out ==> out[k] == h[k])
  {
    if order != [] {
      OverriddenElsewhere(h, extra, order[..|order| - 1], k);
      assert order[|order| - 1] in order;
    }
  }

  /** What upstream gets under a key that no extra header sets: under Proxy-Authorization the
      proxy's own credentials if there are any, and nothing otherwise; nothing under a hop-by-hop
      name; and the client's own values under every other canonical key. */
  lemma UpstreamGets(client: Headers, auth: string, extra: map<string, string>, order: seq<string>, k: string)
    requires (forall n :: n in order ==> n in extra) && !IsExtraKey(extra, k)
    ensures
      var out := Overridden(Authorized(Stripped(client), auth), extra, order);
      && (k == "Proxy-Authorization" ==> (k in out <==> auth != "") && (auth != "" ==> out[k] == [auth]))
      && (k != "Proxy-Authorization" && HeaderKey(k) == k && IsHopByHop(k) ==> k !in out)
      && (!IsHopByHop(k) ==> (k in out <==> k in client) && (k in client ==> out[k] == client[k]))
  {
    OverriddenElsewhere(Authorized(Stripped(client), auth), extra, order, k);
    ProxyAuthIsDoomed();
    assert !IsHopByHop(k) ==> !Dropped(k) by {
      assert ToLower(PROXY_AUTH) == "proxy-authorization";
    }
  }

  lemma UpstreamGetsAll(client: Headers, auth: string, extra: map<string, string>, order: seq<string>)
    requires forall n :: n in order ==> n in extra
    ensures
      var out := Overridden(Authorized(Stripped(client), auth), extra, order);
      && (!IsExtraKey(extra, "Proxy-Authorization") ==>
          && ("Proxy-Authorization" in out <==> auth != "")
          && (auth != "" ==> out["Proxy-Authorization"] == [auth]))
      && (forall k :: !IsExtraKey(extra, k) && !IsHopByHop(k) ==>
          (k in out <==> k in client) && (k in client ==> out[k] == client[k]))
  {
    var out := Overridden(Authorized(Stripped(client), auth), extra, order);
    forall k | !IsExtraKey(extra, k)
      ensures k == "Proxy-Authorization" ==> (k in out <==> auth != "") && (auth != "" ==> out[k] == [auth])
      ensures !IsHopByHop(k) ==> (k in out <==> k in client) && (k in client ==> out[k] == client[k])
    {
      UpstreamGets(client, auth, extra, order, k);
    }
  }

  lemma ProxyAuthIsDoomed()
    ensures Doomed(PROXY_AUTH) && IsHopByHop(PROXY_AUTH)
  {
    assert ToLower(PROXY_AUTH) == "proxy-authorization";
    DroppedIsToken(PROXY_AUTH);
    assert forall i :: 0 <= i < |PROXY_AUTH| ==> Canonical(PROXY_AUTH)[i] == PROXY_AUTH[i];
  }

  const HOP_KEYS := [
    "Connection", "Keep-Alive", "Proxy-Authenticate", "Proxy-Authorization",
    "Te", "Trailers", "Transfer-Encoding", "Upgrade" ]

  lemma HopKeyIsDoomed(i: nat)
    requires i < 8
    ensures IsHopByHop(HOP_KEYS[i]) && HeaderKey(HOP_KEYS[i]) == HOP_KEYS[i]
  {
    if i < 4 {
      FirstHopKeys(i);
    } else {
      LastHopKeys(i);
    }
    CanonicalHopKey(i);
    DroppedIsToken(HOP_KEYS[i]);
  }

  lemma FirstHopKeys(i: nat)
    requires i < 4
    ensures IsHopByHop(HOP_KEYS[i])
  {
    match i
    case 0 => assert ToLower("Connection") == "connection";
    case 1 => assert ToLower("Keep-Alive") == "keep-alive";
    case 2 => assert ToLower("Proxy-Authenticate") == "proxy-authenticate";
    case _ => assert ToLower("Proxy-Authorization") == "proxy-authorization";
  }

  lemma LastHopKeys(i: nat)
    requires 4 <= i < 8
    ensures IsHopByHop(HOP_KEYS[i])
  {
    match i
    case 4 => assert ToLower("Te") == "te";
    case 5 => assert ToLower("Trailers") == "trailers";
    case 6 => assert ToLower("Transfer-Encoding") == "transfer-encoding";
    case _ => assert ToLower("Upgrade") == "upgrade";
  }

  lemma CanonicalHopKey(i: nat)
    requires i < 8
    ensures Canonical(HOP_KEYS[i]) == HOP_KEYS[i]
  {
    if i < 4 {
      CanonicalFirstKeys(i);
    } else {
      CanonicalLastKeys(i);
    }
  }

  lemma CanonicalFirstKeys(i: nat)
    requires i < 4
    ensures Canonical(HOP_KEYS[i]) == HOP_KEYS[i]
  {
    match i
    case 0 => assert Canonical("Connection") == "Connection";
    case 1 => assert Canonical("Keep-Alive") == "Keep-Alive";
    case 2 => assert Canonical("Proxy-Authenticate") == "Proxy-Authenticate";
    case _ => assert Canonical("Proxy-Authorization") == "Proxy-Authorization";
  }

  lemma CanonicalLastKeys(i: nat)
    requires 4 <= i < 8
    ensures Canonical(HOP_KEYS[i]) == HOP_KEYS[i]
  {
    match i
    case 4 => assert Canonical("Te") == "Te";
    case 5 => assert Canonical("Trailers") == "Trailers";
    case 6 => assert Canonical("Transfer-Encoding") == "Transfer-Encoding";
    case _ => assert Canonical("Upgrade") == "Upgrade";
  }

  /** The eight hop-by-hop headers by name: none goes to upstream unless it is configured, or is the
      proxy's own Proxy-Authorization, and none comes back to the client. */
  lemma HopKeysStop(client: Headers, auth: string, extra: map<string, string>, order: seq<string>,
                    response: Headers, visited: seq<string>, i: nat)
    requires (forall n :: n in order ==> n in extra) && (forall k :: k in visited ==> k in response) && i < 8
    ensures
      var k := HOP_KEYS[i];
      && (!IsExtraKey(extra, k) && (k == "Proxy-Authorization" ==> auth == "") ==>
          k !in Overridden(Authorized(Stripped(client), auth), extra, order))
      && k !in Relayed(response, visited)
  {
    HopKeyIsDoomed(i);
    if !IsExtraKey(extra, HOP_KEYS[i]) {
      UpstreamGets(client, auth, extra, order, HOP_KEYS[i]);
    }
    NoHopByHopRelayed(response, visited);
  }

  /** Token characters are the visible ASCII characters that are no delimiters (section 5.6.2 of
      RFC 9110). */
  lemma TokenIsVisible(c: char)
    ensures IsTokenChar(c) <==> '!' <= c <= '~' && c !in "\"(),/:;<=>?@[\\]{}"
  {
  }

  // ---------------------------------------------------------------------------
  // Extra headers that come from the environment
  // ---------------------------------------------------------------------------

  /** Line i sets a header, and no later line sets the same one. */
  predicate Wins(environ: seq<string>, i: nat)
    requires i < |environ|
  {
    Setting(environ[i]).Some? && forall j :: i < j < |environ| ==> !SetsName(environ[j], Setting(environ[i]).value.0)
  }

  /** The lines that win agree on the value wherever they set one key. */
  ghost predicate LinesAgree(environ: seq<string>) {
    forall i, j :: 0 <= i < |environ| && 0 <= j < |environ| && Wins(environ, i) && Wins(environ, j) ==>
      var a, b := Setting(environ[i]).value, Setting(environ[j]).value;
      HeaderKey(a.0) == HeaderKey(b.0) ==> a.1 == b.1
  }

  lemma WinnerIsParsed(environ: seq<string>, i: nat)
    requires i < |environ| && Wins(environ, i)
    ensures
      var setting := Setting(environ[i]).value;
      setting.0 in Parsed(environ) && Parsed(environ)[setting.0] == setting.1
  {
    var setting := Setting(environ[i]).value;
    assert LastSet(environ, i, setting.0, setting.1);
    LastLineWins(environ, setting.0, setting.1);
  }

  lemma ParsedHasWinner(environ: seq<string>, name: string) returns (i: nat)
    requires name in Parsed(environ)
    ensures i < |environ| && Wins(environ, i) && Setting(environ[i]) == Some((name, Parsed(environ)[name]))
  {
    LastLineWins(environ, name, Parsed(environ)[name]);
    i :| LastSet(environ, i, name, Parsed(environ)[name]);
  }

  /** The configured headers do not clash, so that it does not matter in which order they are set,
      if and only if the winning lines of the environment agree. */
  lemma ClashExactly(environ: seq<string>)
    ensures NoClash(Parsed(environ)) <==> LinesAgree(environ)
  {
    if NoClash(Parsed(environ)) {
      forall i, j | 0 <= i < |environ| && 0 <= j < |environ| && Wins(environ, i) && Wins(environ, j)
        ensures
          var a, b := Setting(environ[i]).value, Setting(environ[j]).value;
          HeaderKey(a.0) == HeaderKey(b.0) ==> a.1 == b.1
      {
        WinnerIsParsed(environ, i);
        WinnerIsParsed(environ, j);
      }
    }
    if LinesAgree(environ) {
      forall a, b | a in Parsed(environ) && b in Parsed(environ) && HeaderKey(a) == HeaderKey(b)
        ensures Parsed(environ)[a] == Parsed(environ)[b]
      {
        var i := ParsedHasWinner(environ, a);
        var j := ParsedHasWinner(environ, b);
        assert Wins(environ, i) && Wins(environ, j);
      }
    }
  }

  predicate IsToken(s: string) {
    forall c :: c in s ==> IsTokenChar(c)
  }

  function Dashed(s: string): (r: string)
    ensures |r| == |s|
  {
    seq(|s|, i requires 0 <= i < |s| => if s[i] == '_' then '-' else s[i])
  }

  /** Two variables set one key exactly if they are the same but for letter case and for '_' in
      place of '-'. */
  lemma SameKeyExactly(x: string, y: string)
    requires IsToken(x) && IsToken(y)
    ensures HeaderKey(HeaderName(x)) == HeaderKey(HeaderName(y)) <==> EqualFold(Dashed(x), Dashed(y))
  {
    NameOfToken(x);
    NameOfToken(y);
    CanonicalIsFold(HeaderName(x), HeaderName(y));
  }

  lemma NameOfToken(x: string)
    requires IsToken(x)
    ensures HeaderKey(HeaderName(x)) == Canonical(HeaderName(x)) && EqualFold(HeaderName(x), Dashed(x))
  {
    var name := HeaderName(x);
    forall i | 0 <= i < |x| ensures IsTokenChar(name[i]) {
      assert x[i] in x;
    }
    assert IsToken(name);
    assert ToLower(name) == ToLower(Dashed(x));
  }

  lemma LineSets(x: string, value: string)
    requires IsToken(x)
    ensures Setting(PREFIX + x + "=" + value) == Some((HeaderName(x), value))
  {
    var line := PREFIX + x + "=" + value;
    var rest := line[|PREFIX|..];
    assert rest == x + "=" + value && line[..|PREFIX|] == PREFIX;
    forall j | 0 <= j < |x| ensures rest[j] != '=' {
      assert x[j] in x;
    }
    assert rest[|x|] == '=';
    assert FirstEq(rest) == |x|;
    assert rest[..|x|] == x && rest[|x| + 1..] == value;
  }

  /** Two variables of one key with different names and values, such as X-A and X_A, do clash. */
  lemma TwoSpellingsClash(x: string, y: string, v: string, w: string)
    requires IsToken(x) && IsToken(y) && EqualFold(Dashed(x), Dashed(y)) && HeaderName(x) != HeaderName(y) && v != w
    ensures !NoClash(Parsed([PREFIX + x + "=" + v, PREFIX + y + "=" + w]))
  {
    LineSets(x, v);
    LineSets(y, w);
    SameKeyExactly(x, y);
    var environ := [PREFIX + x + "=" + v, PREFIX + y + "=" + w];
    assert Wins(environ, 0) && Wins(environ, 1);
    ClashExactly(environ);
  }

  lemma PlainIsFixed(name: string)
    requires PlainName(name)
    ensures HeaderKey(Canonical(name)) == Canonical(name)
  {
    var c := Canonical(name);
    forall i | 0 <= i < |name| ensures IsTokenChar(c[i]) && Canonical(c)[i] == c[i] {
      assert name[i] in name;
      if i > 0 { assert (c[i - 1] == '-') == (name[i - 1] == '-'); }
    }
  }

  /** Headers the chart renders do not clash, whatever order the environment comes in. */
  lemma ChartHeadersDoNotClash(values: map<string, string>, environ: seq<string>)
    requires forall name :: name in values ==> PlainName(name)
    requires forall a, b :: a in values && b in values && EqualFold(a, b) ==> a == b
    requires Renders(environ, values)
    ensures NoClash(Parsed(environ))
  {
    ChartRoundTrip(values, environ);
    forall n | n in Parsed(environ) ensures HeaderKey(n) == n {
      var name :| name in values && n == Canonical(name);
      PlainIsFixed(name);
    }
  }

  // ---------------------------------------------------------------------------
  // The response on its way back
  // ---------------------------------------------------------------------------

  /** Header.Add for each of the values. */
  function AddAll(h: Headers, name: string, values: seq<string>): Headers {
    if values == [] then h
    else
      var key := HeaderKey(name);
      h[key := (if key in h then h[key] else []) + values]
  }

  /** The copied headers after visiting these keys. */
  function Relayed(response: Headers, order: seq<string>): Headers
    requires forall k :: k in order ==> k in response
  {
    if order == [] then map[]
    else
      var k := order[|order| - 1];
      var before := Relayed(response, order[..|order| - 1]);
      if IsHopByHop(k) then before else AddAll(before, k, response[k])
  }

  lemma AddOneMore(h: Headers, name: string, values: seq<string>, i: nat)
    requires i < |values|
    ensures AddAll(AddAll(h, name, values[..i]), name, [values[i]]) == AddAll(h, name, values[..i + 1])
  {
    assert values[..i + 1] == values[..i] + [values[i]];
    if i == 0 {
      assert values[..0] == [] && values[..1] == [values[0]];
    } else {
      var key := HeaderKey(name);
      var held := if key in h then h[key] else [];
      assert held + values[..i + 1] == (held + values[..i]) + [values[i]];
    }
  }

  /** The loop that copies the response headers, for any iteration order. */
  method CopyResponseHeaders(response: Headers, order: seq<string>) returns (header: Headers)
    requires Orders(order, response.Keys)
    ensures header == Relayed(response, order)
  {
    header := map[];
    for i := 0 to |order|
      invariant header == Relayed(response, order[..i])
    {
      var k := order[i];
      assert order[..i + 1][..i] == order[..i];
      if IsHopByHop(k) {
        continue;
      }
      var values := response[k];
      ghost var before := header;
      for j := 0 to |values|
        invariant header == AddAll(before, k, values[..j])
      {
        AddOneMore(before, k, values, j);
        header := AddAll(header, k, [values[j]]);
      }
      assert values[..|values|] == values;
    }
    assert order[..|order|] == order;
  }

  /** No hop-by-hop header of the response reaches the client, whatever its spelling: the test
      ignores case and adding only changes case. */
  lemma {:induction false} NoHopByHopRelayed(response: Headers, order: seq<string>)
    requires forall k :: k in order ==> k in response
    ensures forall k :: k in Relayed(response, order) ==> !IsHopByHop(k)
  {
    if order != [] {
      NoHopByHopRelayed(response, order[..|order| - 1]);
      KeyFixed(order[|order| - 1]);
    }
  }

  /** The values of all headers that end up under one key, in the order they are visited. */
  function Merged(response: Headers, order: seq<string>, key: string): seq<string>
    requires forall k :: k in order ==> k in response
  {
    if order == [] then []
    else
      var k := order[|order| - 1];
      Merged(response, order[..|order| - 1], key) +
      if HeaderKey(k) == key && !IsHopByHop(k) then response[k] else []
  }

  /** Under every key the client gets all values of all spellings of it, and nothing else. */
  lemma {:induction false} RelayedMerges(response: Headers, order: seq<string>, key: string)
    requires forall k :: k in order ==> k in response
    ensures
      var out, values := Relayed(response, order), Merged(response, order, key);
      (key in out <==> values != []) && (key in out ==> out[key] == values)
  {
    if order != [] {
      RelayedMerges(response, order[..|order| - 1], key);
      assert order[|order| - 1] in order;
    }
  }

  ghost predicate Distinct(order: seq<string>) {
    forall i, j :: 0 <= i < j < |order| ==> order[i] != order[j]
  }

  lemma {:induction false} RelayedSoFar(response: Headers, order: seq<string>)
    requires (forall k :: k in order ==> k in response && HeaderKey(k) == k) && Distinct(order)
    ensures Relayed(response, order) ==
      map k | k in response && k in order && !IsHopByHop(k) && response[k] != [] :: response[k]
  {
    if order != [] {
      var init, last := order[..|order| - 1], order[|order| - 1];
      RelayedSoFar(response, init);
      assert last !in init;
      assert forall k :: k in order <==> k in init || k == last;
      assert last !in Relayed(response, init) && HeaderKey(last) == last;
      assert [] + response[last] == response[last];
    }
  }

  /** For a response with canonical keys the client gets exactly the other headers, with all their
      values in order, whatever the iteration order. */
  lemma RelayedExactly(response: Headers, order: seq<string>)
    requires Orders(order, response.Keys) && forall k :: k in response ==> HeaderKey(k) == k
    ensures Relayed(response, order) == map k | k in response && !IsHopByHop(k) && response[k] != [] :: response[k]
  {
    RelayedSoFar(response, order);
  }
}
