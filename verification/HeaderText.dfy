/** Messages as text: lines with their ends, where a header ends, and how a reader takes a request
    or a status line apart. Nothing here is about how the proxy writes or looks for them. */
module HeaderTexts {
  import opened Text
  import opened HostPort
  import U = UpstreamReaders

  // ---------------------------------------------------------------------------
  // Lines
  // ---------------------------------------------------------------------------

  /** A line and the way it ends. */
  datatype Line = Line(text: Bytes, crlf: bool) {
    function Raw(): Bytes {
      text + if crlf then "\r\n" else "\n"
    }
  }

  function TextOf(lines: seq<Line>): Bytes {
    if lines == [] then [] else TextOf(lines[..|lines| - 1]) + lines[|lines| - 1].Raw()
  }

  /** One line only. */
  predicate OneLine(text: Bytes) {
    '\n' !in text
  }

  /** A line that a reader takes for blank: nothing before its end. */
  predicate Blank(line: Line) {
    line.text == "" || (line.text == "\r" && !line.crlf)
  }

  /** Lines of a header: the first may be anything, the others are not blank. */
  predicate HeaderLines(lines: seq<Line>) {
    && (forall i :: 0 <= i < |lines| ==> OneLine(lines[i].text))
    && (forall i :: 0 < i < |lines| ==> !Blank(lines[i]))
  }

  /** The text before the line end. */
  function Stem(line: Line): Bytes {
    if line.crlf then line.text + "\r" else line.text
  }

  lemma RawIsStem(line: Line, before: Bytes)
    ensures before + line.Raw() == before + Stem(line) + "\n"
  {
  }

  lemma TextSnoc(lines: seq<Line>)
    requires lines != []
    ensures TextOf(lines) == TextOf(lines[..|lines| - 1]) + Stem(lines[|lines| - 1]) + "\n"
  {
    RawIsStem(lines[|lines| - 1], TextOf(lines[..|lines| - 1]));
  }

  lemma LastTwo(s: Bytes)
    ensures HasSuffix(s, "\n\n") <==> |s| >= 2 && s[|s| - 2] == '\n' && s[|s| - 1] == '\n'
  {
    if |s| >= 2 {
      assert s[|s| - 2..] == [s[|s| - 2], s[|s| - 1]];
    }
  }

  lemma LastThree(s: Bytes)
    ensures HasSuffix(s, "\n\r\n") <==> |s| >= 3 && s[|s| - 3] == '\n' && s[|s| - 2] == '\r' && s[|s| - 1] == '\n'
  {
    if |s| >= 3 {
      assert s[|s| - 3..] == [s[|s| - 3], s[|s| - 2], s[|s| - 1]];
    }
  }

  lemma BlankChars(s: Bytes)
    ensures U.EndsBlank(s) <==>
      && |s| >= 2 && s[|s| - 1] == '\n'
      && (s[|s| - 2] == '\n' || (|s| >= 3 && s[|s| - 2] == '\r' && s[|s| - 3] == '\n'))
  {
    LastTwo(s);
    LastThree(s);
  }

  /** The end of a line that is not blank ends no header. */
  lemma StemEndsNothing(before: Bytes, stem: Bytes)
    requires OneLine(stem) && (before == [] || (stem != "" && stem != "\r"))
    ensures !U.EndsBlank(before + stem + "\n")
  {
    BlankChars(before + stem + "\n");
  }

  lemma {:induction false} TailEndsNothing(before: Bytes, tail: Bytes)
    requires U.HeaderEnd(before) == None && OneLine(tail)
    ensures U.HeaderEnd(before + tail) == None
  {
    if tail == [] {
      assert before + tail == before;
    } else {
      var init, s := tail[..|tail| - 1], before + tail;
      TailEndsNothing(before, init);
      assert s[..|s| - 1] == before + init;
      BlankChars(s);
    }
  }

  lemma OneMoreByte(s: Bytes, c: char)
    ensures U.HeaderEnd(s + [c]) ==
      if U.HeaderEnd(s).Some? then U.HeaderEnd(s) else if U.EndsBlank(s + [c]) then Some(|s| + 1) else None
  {
    assert (s + [c])[..|s|] == s;
  }

  /** As long as only the first line is blank there is no header end. */
  lemma {:induction false} NoHeaderEnd(lines: seq<Line>, tail: Bytes)
    requires HeaderLines(lines) && OneLine(tail)
    ensures U.HeaderEnd(TextOf(lines) + tail) == None
  {
    if lines != [] {
      var init, last := lines[..|lines| - 1], lines[|lines| - 1];
      NoHeaderEnd(init, Stem(last));
      StemEndsNothing(TextOf(init), Stem(last));
      OneMoreByte(TextOf(init) + Stem(last), '\n');
      TextSnoc(lines);
    }
    TailEndsNothing(TextOf(lines), tail);
  }

  lemma BlankLineEnds(before: Bytes, crlf: bool)
    ensures
      var stem := if crlf then "\r" else "";
      U.EndsBlank(before + "\n" + stem + "\n")
  {
    BlankChars(before + "\n" + (if crlf then "\r" else "") + "\n");
  }

  /** The header ends with the first blank line after the first line, whatever follows. */
  lemma HeaderEndsAtBlank(lines: seq<Line>, crlf: bool, rest: Bytes)
    requires lines != [] && HeaderLines(lines)
    ensures
      var header := TextOf(lines) + Line("", crlf).Raw();
      U.HeaderEnd(header + rest) == Some(|header|)
  {
    var text, stem := TextOf(lines), if crlf then "\r" else "";
    var header := text + Line("", crlf).Raw();
    NoHeaderEnd(lines, stem);
    TextSnoc(lines);
    BlankLineEnds(text[..|text| - 1], crlf);
    assert header == text + stem + ['\n'];
    assert text == text[..|text| - 1] + "\n";
    OneMoreByte(text + stem, '\n');
    U.HeaderEndStays(header, header + rest);
  }

  /** So the header of a response is parsed whole, however the network cuts the stream. */
  lemma WholeHeaderIsParsed(http: U.Http, lines: seq<Line>, crlf: bool, rest: Bytes, pulls: seq<Bytes>)
    requires lines != [] && HeaderLines(lines)
    requires U.Join(pulls) == TextOf(lines) + Line("", crlf).Raw() + rest
    requires http.parse(TextOf(lines) + Line("", crlf).Raw()).Some?
    ensures
      var header, answer := TextOf(lines) + Line("", crlf).Raw(), U.ReadAnswer(http, pulls);
      answer.Answer? && answer.header == header && Some(answer.head) == http.parse(header)
  {
    var header := TextOf(lines) + Line("", crlf).Raw();
    HeaderEndsAtBlank(lines, crlf, rest);
    assert U.Join(pulls)[..|header|] == header;
    U.AnswerIsTheStreams(http, pulls);
  }

  // ---------------------------------------------------------------------------
  // Reading a request
  // ---------------------------------------------------------------------------

  /** The first line, without its end, and what follows. */
  function ReadLine(s: Bytes): (r: Option<(Bytes, Bytes)>)
    ensures r.Some? ==> |r.value.1| < |s|
  {
    var i := IndexFrom(s, '\n', 0);
    if i == |s| then None
    else Some((if 0 < i && s[i - 1] == '\r' then s[..i - 1] else s[..i], s[i + 1..]))
  }

  /** A field line, cut at its first colon; one space after it is not part of the value. */
  function ReadField(line: Bytes): Option<(Bytes, Bytes)> {
    var i := IndexFrom(line, ':', 0);
    if i == |line| then None
    else Some((line[..i], if i + 1 < |line| && line[i + 1] == ' ' then line[i + 2..] else line[i + 1..]))
  }

  datatype Fields = Fields(fields: seq<(Bytes, Bytes)>, rest: Bytes)

  /** All field lines up to the blank line, and what follows that. */
  function ReadFields(s: Bytes): Option<Fields>
    decreases |s|
  {
    match ReadLine(s)
    case None => None
    case Some((line, rest)) =>
      if line == "" then Some(Fields([], rest))
      else
        match (ReadField(line), ReadFields(rest))
        case (Some(field), Some(more)) => Some(Fields([field] + more.fields, more.rest))
        case _ => None
  }

  datatype Request = Request(verb: Bytes, target: Bytes, version: Bytes, fields: seq<(Bytes, Bytes)>, rest: Bytes)

  /** The request line, cut at its first space and its last, and the fields. */
  function ReadRequest(s: Bytes): Option<Request> {
    match ReadLine(s)
    case None => None
    case Some((line, rest)) =>
      var i, j := IndexFrom(line, ' ', 0), LastIndex(line, ' ');
      if i >= j then None
      else
        match ReadFields(rest)
        case None => None
        case Some(f) => Some(Request(line[..i], line[i + 1..j], line[j + 1..], f.fields, f.rest))
  }

  /** Text that fits on a line and does not interfere with its end. */
  predicate Inline(text: Bytes) {
    '\n' !in text && '\r' !in text
  }

  lemma IndexOfFirst(before: Bytes, c: char, after: Bytes)
    requires c !in before
    ensures IndexFrom(before + [c] + after, c, 0) == |before|
  {
    var s := before + [c] + after;
    assert s[..|before|] == before && s[|before|] == c;
    IndexIs(s, c, |before|);
  }

  lemma ReadsLine(line: Bytes, rest: Bytes)
    requires Inline(line)
    ensures ReadLine(line + "\r\n" + rest) == Some((line, rest))
  {
    var s := line + "\r\n" + rest;
    assert s == (line + "\r") + ['\n'] + rest;
    IndexOfFirst(line + "\r", '\n', rest);
    assert s[..|line|] == line && s[|line| + 2..] == rest;
  }

  lemma ReadsField(name: Bytes, value: Bytes)
    requires ':' !in name
    ensures ReadField(name + ": " + value) == Some((name, value))
  {
    var line := name + ": " + value;
    assert line == name + [':'] + (" " + value);
    IndexOfFirst(name, ':', " " + value);
    assert line[..|name|] == name && line[|name| + 2..] == value;
  }

  lemma ReadsOneField(name: Bytes, value: Bytes, more: Bytes)
    requires Inline(name) && Inline(value) && ':' !in name && ReadFields(more).Some?
    ensures
      var f := ReadFields(more).value;
      ReadFields(name + ": " + value + "\r\n" + more) == Some(Fields([(name, value)] + f.fields, f.rest))
  {
    ReadsLine(name + ": " + value, more);
    ReadsField(name, value);
  }

  lemma ReadsBlank(rest: Bytes)
    ensures ReadFields("\r\n" + rest) == Some(Fields([], rest))
  {
    ReadsLine("", rest);
    assert "" + "\r\n" + rest == "\r\n" + rest;
  }

  lemma ReadsStart(verb: Bytes, target: Bytes, version: Bytes, more: Bytes)
    requires Inline(verb) && Inline(target) && Inline(version) && ' ' !in verb && ' ' !in version
    requires ReadFields(more).Some?
    ensures
      var f := ReadFields(more).value;
      ReadRequest(verb + " " + target + " " + version + "\r\n" + more) ==
        Some(Request(verb, target, version, f.fields, f.rest))
  {
    var line := verb + " " + target + " " + version;
    ReadsLine(line, more);
    assert line == verb + [' '] + (target + " " + version);
    IndexOfFirst(verb, ' ', target + " " + version);
    var j := |verb| + 1 + |target|;
    assert line[j + 1..] == version;
    LastIndexIs(line, ' ', j);
    assert line[..|verb|] == verb && line[|verb| + 1..j] == target;
  }

  // ---------------------------------------------------------------------------
  // Reading a status line
  // ---------------------------------------------------------------------------

  /** The code of a response: the number between the first two spaces. */
  function ReadStatus(s: Bytes): Option<nat> {
    var i := IndexFrom(s, ' ', 0);
    if i == |s| then None
    else
      var j := IndexFrom(s, ' ', i + 1);
      if j == |s| || j == i + 1 || exists c :: c in s[i + 1..j] && !IsDigit(c) then None
      else Some(DecimalValue(s[i + 1..j]))
  }

  lemma ReadsStatus(version: Bytes, code: nat, more: Bytes)
    requires ' ' !in version
    ensures ReadStatus(version + " " + Decimal(code) + " " + more) == Some(code)
  {
    DecimalRoundTrip(code);
    ReadsDigits(version, Decimal(code), more);
  }

  lemma ReadsDigits(version: Bytes, digits: Bytes, more: Bytes)
    requires ' ' !in version && digits != [] && forall c :: c in digits ==> IsDigit(c)
    ensures ReadStatus(version + " " + digits + " " + more) == Some(DecimalValue(digits))
  {
    var s, i, j := version + " " + digits + " " + more, |version|, |version| + 1 + |digits|;
    assert s == version + [' '] + (digits + " " + more);
    IndexOfFirst(version, ' ', digits + " " + more);
    SecondSpace(s, i + 1, j);
    assert s[i + 1..j] == digits;
  }

  lemma SecondSpace(s: Bytes, i: nat, j: nat)
    requires i <= j < |s| && s[j] == ' ' && forall c :: c in s[i..j] ==> IsDigit(c)
    ensures IndexFrom(s, ' ', i) == j
  {
    forall k | i <= k < j ensures s[k] != ' ' {
      assert s[k] == s[i..j][k - i] && s[i..j][k - i] in s[i..j];
    }
  }
}
