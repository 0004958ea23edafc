/** Byte strings as the Go sources use them. A `char` stands for one byte; letter case is
    the case of the ASCII letters. */
module Text {

  type Bytes = string

  /** An unsigned 32-bit number, the type of every port in the program. */
  type Port = p: int | 0 <= p < 0x1_0000_0000

  datatype Option<+T> = None | Some(value: T) {
    function GetOr(default: T): T {
      match this
      case None => default
      case Some(v) => v
    }
  }

  function LowerChar(c: char): char {
    if 'A' <= c <= 'Z' then (c as int + 32) as char else c
  }

  function UpperChar(c: char): char {
    if 'a' <= c <= 'z' then (c as int - 32) as char else c
  }

  function ToLower(s: string): (r: string)
    ensures |r| == |s|
  {
    seq(|s|, i requires 0 <= i < |s| => LowerChar(s[i]))
  }

  /** Equality up to the case of letters. */
  predicate EqualFold(s: string, t: string) {
    ToLower(s) == ToLower(t)
  }

  predicate HasSuffix(s: string, suffix: string) {
    |suffix| <= |s| && s[|s| - |suffix|..] == suffix
  }

  function TrimDot(s: string): string {
    if HasSuffix(s, ".") then s[..|s| - 1] else s
  }

  const CAPITALS := "ABCDEFGHIJKLMNOPQRSTUVWXYZ"
  const SMALLS := "abcdefghijklmnopqrstuvwxyz"

  /** Letter case is the case of the 26 letters, and other characters have none. */
  lemma LetterCase(c: char, i: nat)
    requires i < 26
    ensures LowerChar(CAPITALS[i]) == SMALLS[i] == LowerChar(SMALLS[i])
    ensures UpperChar(SMALLS[i]) == CAPITALS[i] == UpperChar(CAPITALS[i])
    ensures c !in CAPITALS ==> LowerChar(c) == c
    ensures c !in SMALLS ==> UpperChar(c) == c
  {
    assert forall k :: 0 <= k < 26 ==> CAPITALS[k] as int == 65 + k && SMALLS[k] as int == 97 + k;
    if 'A' <= c <= 'Z' {
      assert CAPITALS[c as int - 65] == c;
    }
    if 'a' <= c <= 'z' {
      assert SMALLS[c as int - 97] == c;
    }
  }

  lemma SuffixMeansEnd(s: string, suffix: string)
    ensures HasSuffix(s, suffix) <==> exists before :: s == before + suffix
  {
    if HasSuffix(s, suffix) {
      assert s == s[..|s| - |suffix|] + suffix;
    }
    if before :| s == before + suffix {
      assert s[|before|..] == suffix;
    }
  }

  /** One dot at the end is dropped, and one only. */
  lemma TrimsOneDot(s: string)
    ensures TrimDot(s + ".") == s
    ensures (s == "" || s[|s| - 1] != '.') ==> TrimDot(s) == s
  {
    assert (s + ".")[|s|..] == "." && (s + ".")[..|s|] == s;
    if s != "" {
      assert s[|s| - 1..] == [s[|s| - 1]];
    }
  }

  lemma LowerFixed(s: string)
    ensures ToLower(ToLower(s)) == ToLower(s)
  {
  }

  lemma LowerConcat(s: string, t: string)
    ensures ToLower(s + t) == ToLower(s) + ToLower(t)
  {
  }

  /** Two suffixes of one string are suffixes of each other. */
  lemma SuffixesNest(s: string, a: string, b: string)
    requires HasSuffix(s, a) && HasSuffix(s, b) && |b| <= |a|
    ensures HasSuffix(a, b)
  {
    assert a[|a| - |b|..] == s[|s| - |b|..];
  }

  lemma SuffixTransitive(s: string, a: string, b: string)
    requires HasSuffix(s, a) && HasSuffix(a, b)
    ensures HasSuffix(s, b)
  {
    assert s[|s| - |b|..] == a[|a| - |b|..];
  }

  predicate IsDigit(c: char) {
    '0' <= c <= '9'
  }

  /** The decimal numeral of n, without leading zeros. */
  function Decimal(n: nat): (s: string)
    ensures |s| > 0
    ensures forall c :: c in s ==> IsDigit(c)
  {
    if n < 10 then [('0' as int + n) as char]
    else Decimal(n / 10) + [('0' as int + n % 10) as char]
  }

  /** The number a string of digits denotes. */
  function DecimalValue(s: string): nat
    requires forall c :: c in s ==> IsDigit(c)
  {
    if s == [] then 0
    else
      var last := s[|s| - 1];
      assert last in s && IsDigit(last);
      10 * DecimalValue(s[..|s| - 1]) + (last as int - '0' as int)
  }

  lemma {:induction false} DecimalRoundTrip(n: nat)
    ensures DecimalValue(Decimal(n)) == n
  {
    if n < 10 {
      assert Decimal(n)[..0] == [];
    } else {
      var s := Decimal(n);
      assert s[..|s| - 1] == Decimal(n / 10);
      DecimalRoundTrip(n / 10);
    }
  }
}
