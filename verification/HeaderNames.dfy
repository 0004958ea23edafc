/** Extra headers from the environment: EXTRA_HEADER_X_CORP_ID=value becomes X-Corp-Id: value. */
module HeaderNames {
  import opened Text

  const PREFIX := "EXTRA_HEADER_"

  /** Capitals at the start and after each separator, small letters elsewhere. */
  function Capitalized(s: string, separator: char, i: nat): char
    requires i < |s|
  {
    if i == 0 || s[i - 1] == separator then UpperChar(s[i]) else LowerChar(s[i])
  }

  function HeaderName(s: string): (name: string)
    ensures |name| == |s|
  {
    seq(|s|, i requires 0 <= i < |s| => if s[i] == '_' then '-' else Capitalized(s, '_', i))
  }

  method HeaderNameFromEnv(s: string) returns (out: string)
    ensures |out| == |s|
    ensures forall i :: 0 <= i < |s| ==> out[i] == if s[i] == '_' then '-' else Capitalized(s, '_', i)
    ensures out == HeaderName(s)
  {
    out := [];
    var upper := true;
    for i := 0 to |s|
      invariant |out| == i
      invariant upper <==> i == 0 || s[i - 1] == '_'
      invariant forall j :: 0 <= j < i ==> out[j] == if s[j] == '_' then '-' else Capitalized(s, '_', j)
    {
      var c := s[i];
      if c == '_' {
        out := out + ['-'];
        upper := true;
      } else {
        if upper {
          if 'a' <= c <= 'z' {
            c := (c as int - 32) as char;
          }
          upper := false;
        } else if 'A' <= c <= 'Z' {
          c := (c as int + 32) as char;
        }
        out := out + [c];
      }
    }
  }

  // ---------------------------------------------------------------------------
  // One name
  // ---------------------------------------------------------------------------

  predicate IsNameChar(c: char) {
    'a' <= c <= 'z' || 'A' <= c <= 'Z' || '0' <= c <= '9' || c == '-'
  }

  predicate PlainName(s: string) {
    forall c :: c in s ==> IsNameChar(c)
  }

  /** The canonical spelling of a header name. */
  function Canonical(s: string): (name: string)
    ensures |name| == |s|
  {
    seq(|s|, i requires 0 <= i < |s| => Capitalized(s, '-', i))
  }

  /** The chart's variable name for a header: upper case, '-' replaced by '_'. */
  function ChartEncode(s: string): (r: string)
    ensures |r| == |s|
  {
    seq(|s|, i requires 0 <= i < |s| => if s[i] == '-' then '_' else UpperChar(s[i]))
  }

  /** Decoding the chart's encoding of a header name gives its canonical spelling, the same name
      up to case, which encodes to the same variable again. */
  lemma NameRoundTrip(s: string)
    requires PlainName(s)
    ensures HeaderName(ChartEncode(s)) == Canonical(s)
    ensures EqualFold(Canonical(s), s)
    ensures ChartEncode(HeaderName(ChartEncode(s))) == ChartEncode(s)
  {
    var e, c := ChartEncode(s), Canonical(s);
    forall i | 0 <= i < |s|
      ensures HeaderName(e)[i] == c[i] && ToLower(c)[i] == ToLower(s)[i] && ChartEncode(c)[i] == e[i]
    {
      assert s[i] in s && IsNameChar(s[i]);
      if i > 0 { assert s[i - 1] in s && IsNameChar(s[i - 1]); }
    }
  }

  /** Names that differ only in case have one canonical spelling, and only those. */
  lemma CanonicalIsFold(s: string, t: string)
    ensures Canonical(s) == Canonical(t) <==> EqualFold(s, t)
  {
    if EqualFold(s, t) {
      assert |s| == |t|;
      forall i | 0 <= i < |s| ensures Canonical(s)[i] == Canonical(t)[i] {
        assert ToLower(s)[i] == ToLower(t)[i];
        if i > 0 { assert ToLower(s)[i - 1] == ToLower(t)[i - 1]; }
      }
    }
    if Canonical(s) == Canonical(t) {
      assert |s| == |t|;
      forall i | 0 <= i < |s| ensures ToLower(s)[i] == ToLower(t)[i] {
        assert Canonical(s)[i] == Canonical(t)[i];
      }
    }
  }

  // ---------------------------------------------------------------------------
  // The whole environment
  // ---------------------------------------------------------------------------

  function FirstEq(s: string): (i: nat)
    ensures i <= |s|
    ensures i < |s| ==> s[i] == '='
    ensures forall j :: 0 <= j < i ==> s[j] != '='
  {
    if s == [] || s[0] == '=' then 0 else 1 + FirstEq(s[1..])
  }

  /** The header a line of the environment sets: its name is what stands between the prefix and
      the first '=', its value everything after it. */
  function Setting(line: string): Option<(string, string)> {
    if PREFIX < line then
      var rest := line[|PREFIX|..];
      var eq := FirstEq(rest);
      if eq < |rest| then Some((HeaderName(rest[..eq]), rest[eq + 1..])) else None
    else None
  }

  function Parsed(environ: seq<string>): map<string, string> {
    if environ == [] then map[]
    else
      var before := Parsed(environ[..|environ| - 1]);
      match Setting(environ[|environ| - 1])
      case None => before
      case Some((name, value)) => before[name := value]
  }

  predicate SetsName(line: string, name: string) {
    Setting(line).Some? && Setting(line).value.0 == name
  }

  /** Line i sets the header to the value, and no later line sets it. */
  ghost predicate LastSet(environ: seq<string>, i: nat, name: string, value: string) {
    && i < |environ| && Setting(environ[i]) == Some((name, value))
    && forall j :: i < j < |environ| ==> !SetsName(environ[j], name)
  }

  /** Each header has the value of the last line that sets it, and no other header is set. */
  lemma {:induction false} LastLineWins(environ: seq<string>, name: string, value: string)
    ensures name in Parsed(environ) && Parsed(environ)[name] == value <==>
      exists i: nat :: LastSet(environ, i, name, value)
  {
    if environ != [] {
      var n := |environ| - 1;
      var init, last := environ[..n], environ[n];
      LastLineWins(init, name, value);
      if SetsName(last, name) {
        assert LastSet(environ, n, name, Setting(last).value.1);
        assert forall i: nat :: LastSet(environ, i, name, value) ==> i == n;
      } else {
        forall i: nat ensures LastSet(environ, i, name, value) <==> LastSet(init, i, name, value) {
          if LastSet(init, i, name, value) {
            assert forall j :: i < j < n ==> environ[j] == init[j];
          }
          if LastSet(environ, i, name, value) {
            assert i < n;
            assert forall j :: i < j < n ==> environ[j] == init[j];
          }
        }
      }
    }
  }

  method ParseExtraHeaders(environ: seq<string>) returns (headers: map<string, string>)
    ensures headers == Parsed(environ)
  {
    headers := map[];
    for k := 0 to |environ|
      invariant headers == Parsed(environ[..k])
    {
      assert environ[..k + 1][..k] == environ[..k];
      var e := environ[k];
      if |e| > |PREFIX| && e[..|PREFIX|] == PREFIX {
        var rest := e[|PREFIX|..];
        var i := 0;
        while i < |rest| && rest[i] != '='
          invariant i <= FirstEq(rest)
        {
          i := i + 1;
        }
        if i < |rest| {
          var name := HeaderNameFromEnv(rest[..i]);
          headers := headers[name := rest[i + 1..]];
        }
      }
    }
    assert environ[..|environ|] == environ;
  }

  lemma ExampleName()
    ensures HeaderName("X_CORP_ID") == "X-Corp-Id"
  {
  }

  /** The example of the documentation, with a value that holds an equals sign. */
  lemma ExampleSets()
    ensures Setting("EXTRA_HEADER_X_CORP_ID=a=b") == Some(("X-Corp-Id", "a=b"))
  {
    var line := "EXTRA_HEADER_X_CORP_ID=a=b";
    var rest := line[|PREFIX|..];
    assert line[..|PREFIX|] == PREFIX;
    assert rest == "X_CORP_ID=a=b";
    assert rest[9] == '=' && forall j :: 0 <= j < 9 ==> rest[j] != '=';
    assert FirstEq(rest) == 9;
    assert rest[..9] == "X_CORP_ID" && rest[10..] == "a=b";
    ExampleName();
  }

  /** The environment line the chart renders for a header. */
  function ChartLine(name: string, value: string): string {
    PREFIX + ChartEncode(name) + "=" + value
  }

  lemma ChartLineSets(name: string, value: string)
    requires PlainName(name)
    ensures Setting(ChartLine(name, value)) == Some((Canonical(name), value))
  {
    var line, e := ChartLine(name, value), ChartEncode(name);
    var rest := line[|PREFIX|..];
    assert rest == e + "=" + value;
    forall j | 0 <= j < |e| ensures rest[j] != '=' {
      assert name[j] in name && IsNameChar(name[j]);
    }
    assert rest[|e|] == '=';
    assert FirstEq(rest) == |e|;
    assert rest[..|e|] == e && rest[|e| + 1..] == value;
    NameRoundTrip(name);
    assert line[..|PREFIX|] == PREFIX;
  }

  /** The chart's lines are all there, and no other line sets a header. */
  ghost predicate Renders(environ: seq<string>, values: map<string, string>) {
    && (forall name :: name in values ==> ChartLine(name, values[name]) in environ)
    && (forall line :: line in environ && Setting(line).Some? ==>
        exists name :: name in values && line == ChartLine(name, values[name]))
  }

  lemma {:induction false} LastSetter(environ: seq<string>, k: nat, name: string) returns (i: nat)
    requires k < |environ| && SetsName(environ[k], name)
    ensures i < |environ| && SetsName(environ[i], name) && LastSet(environ, i, name, Setting(environ[i]).value.1)
    decreases |environ| - k
  {
    if j :| k < j < |environ| && SetsName(environ[j], name) {
      i := LastSetter(environ, j, name);
    } else {
      i := k;
    }
  }

  /** The extra-header round trip: whatever order the environment comes in and whatever else it
      holds, the proxy ends up with exactly the chart's headers under their canonical names. */
  lemma ChartRoundTrip(values: map<string, string>, environ: seq<string>)
    requires forall name :: name in values ==> PlainName(name)
    requires forall a, b :: a in values && b in values && EqualFold(a, b) ==> a == b
    requires Renders(environ, values)
    ensures forall name :: name in values ==>
      Canonical(name) in Parsed(environ) && Parsed(environ)[Canonical(name)] == values[name]
    ensures forall n :: n in Parsed(environ) ==> exists name :: name in values && n == Canonical(name)
  {
    forall name | name in values
      ensures Canonical(name) in Parsed(environ) && Parsed(environ)[Canonical(name)] == values[name]
    {
      var n := Canonical(name);
      ChartLineSets(name, values[name]);
      var k :| 0 <= k < |environ| && environ[k] == ChartLine(name, values[name]);
      var i := LastSetter(environ, k, n);
      var other :| other in values && environ[i] == ChartLine(other, values[other]);
      ChartLineSets(other, values[other]);
      CanonicalIsFold(name, other);
      LastLineWins(environ, n, values[name]);
    }
    forall n | n in Parsed(environ) ensures exists name :: name in values && n == Canonical(name) {
      LastLineWins(environ, n, Parsed(environ)[n]);
      var i: nat :| LastSet(environ, i, n, Parsed(environ)[n]);
      var name :| name in values && environ[i] == ChartLine(name, values[name]);
      ChartLineSets(name, values[name]);
    }
  }
}
