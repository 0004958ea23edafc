/** The allowlist's decision read off the entries themselves: which hosts a line applies to, which
    entry governs a host, and what it says. */
module PlainDecisions {
  import opened Text
  import opened ServiceEntries

  // ---------------------------------------------------------------------------
  // What a line applies to
  // ---------------------------------------------------------------------------

  lemma NormalizeDrops(s: string)
    ensures |Normalize(s)| == if s != "" && s[|s| - 1] == '.' then |s| - 1 else |s|
    ensures Normalize(s) == ToLower(s[..|Normalize(s)|])
  {
    if s != "" {
      assert s[|s| - 1..] == [s[|s| - 1]];
      if s[|s| - 1] == '.' {
        assert TrimDot(s) == s[..|s| - 1];
      } else {
        assert TrimDot(s) == s == s[..|s|];
      }
    } else {
      assert s[..0] == s;
    }
  }

  lemma WildcardNormal(domain: string)
    requires domain != ""
    ensures Normalize("*." + domain) == "*." + Normalize(domain)
  {
    NormalizeDrops("*." + domain);
    NormalizeDrops(domain);
    var n := |Normalize(domain)|;
    assert ("*." + domain)[..n + 2] == "*." + domain[..n];
    LowerConcat("*.", domain[..n]);
    assert ToLower("*.") == "*.";
  }

  /** A wildcard line applies to the hosts that end in its domain after a dot, and to no others:
      neither to the domain itself nor to one that only ends in the same letters. */
  lemma WildcardApplies(domain: string, host: string)
    requires domain != ""
    ensures Applies("*." + domain, host) <==> exists sub :: Normalize(host) == sub + "." + Normalize(domain)
  {
    WildcardNormal(domain);
    WildcardSpans(Normalize(domain), Normalize(host));
  }

  lemma WildcardSpans(domain: string, host: string)
    ensures (Names("*." + domain, host) || Spans("*." + domain, host)) <==> exists sub :: host == sub + "." + domain
  {
    var line := "*." + domain;
    assert line[..2] == "*." && line[1..] == "." + domain;
    SuffixMeansEnd(host, "." + domain);
    if sub :| host == sub + ("." + domain) {
      assert host == sub + "." + domain;
    }
    if sub :| host == sub + "." + domain {
      assert host == sub + ("." + domain);
    }
  }

  /** Any other line applies to the host it names, up to letter case and one dot at the end. */
  lemma PlainApplies(line: string, host: string)
    requires |line| < 2 || line[..2] != "*." || |line| == 2
    ensures Applies(line, host) <==> Normalize(line) == Normalize(host)
  {
    if IsWildcard(Normalize(line)) {
      WildcardIsWritten(line);
      assert false;
    }
  }

  lemma WildcardIsWritten(line: string)
    requires IsWildcard(Normalize(line))
    ensures |line| > 2 && line[..2] == "*."
  {
    NormalizeDrops(line);
    var l := Normalize(line);
    assert l[0] == LowerChar(line[0]) && l[1] == LowerChar(line[1]);
    assert l[..2] == "*." && l[0] == '*' && l[1] == '.';
    assert line[..2] == [line[0], line[1]];
  }

  // ---------------------------------------------------------------------------
  // Which entry governs
  // ---------------------------------------------------------------------------

  /** Where line j of entry k stands among all lines. */
  function Position(entries: seq<ServiceEntry>, k: nat, j: nat): nat
    requires k <= |entries|
  {
    |Rules(entries[..k])| + j
  }

  lemma {:induction false} RuleAt(entries: seq<ServiceEntry>, k: nat, j: nat)
    requires k < |entries| && j < |entries[k].hosts|
    ensures Position(entries, k, j) < |Rules(entries)|
    ensures Rules(entries)[Position(entries, k, j)] == Rule(Normalize(entries[k].hosts[j]), EntryOf(entries[k]))
  {
    var n := |entries| - 1;
    if k < n {
      RuleAt(entries[..n], k, j);
      assert entries[..n][..k] == entries[..k];
    }
  }

  lemma {:induction false} PositionOf(entries: seq<ServiceEntry>, i: nat) returns (k: nat, j: nat)
    requires i < |Rules(entries)|
    ensures k < |entries| && j < |entries[k].hosts| && i == Position(entries, k, j)
  {
    var n := |entries| - 1;
    if i < |Rules(entries[..n])| {
      k, j := PositionOf(entries[..n], i);
      assert entries[..n][..k] == entries[..k];
    } else {
      k, j := n, i - |Rules(entries[..n])|;
    }
  }

  lemma {:induction false} RulesGrow(entries: seq<ServiceEntry>, k: nat, l: nat)
    requires k < l <= |entries|
    ensures |Rules(entries[..k])| + |entries[k].hosts| <= |Rules(entries[..l])|
  {
    assert entries[..l][..l - 1] == entries[..l - 1];
    if k < l - 1 {
      RulesGrow(entries, k, l - 1);
    }
  }

  /** Lines are ordered by entry and then by place in the entry. */
  predicate Earlier(k: nat, j: nat, k': nat, j': nat) {
    k < k' || (k == k' && j < j')
  }

  lemma PositionsAreOrdered(entries: seq<ServiceEntry>, k: nat, j: nat, k': nat, j': nat)
    requires k < |entries| && j < |entries[k].hosts| && k' < |entries| && j' < |entries[k'].hosts|
    ensures Position(entries, k, j) < Position(entries, k', j') <==> Earlier(k, j, k', j')
  {
    if k < k' {
      RulesGrow(entries, k, k');
    } else if k' < k {
      RulesGrow(entries, k', k);
    }
  }

  /** The line is an exact one for the host. */
  predicate ExactFor(line: string, host: string) {
    Normalize(line) == Normalize(host) && !("*." <= Normalize(line))
  }

  /** The line is a wildcard that applies to the host. */
  ghost predicate WildFor(line: string, host: string) {
    "*." <= Normalize(line) && HasSuffix(Normalize(host), Normalize(line)[1..])
  }

  /** What an entry answers: its ports decide, none listed permits all; and it is named. */
  ghost predicate AnswersAs(answer: Answer, se: ServiceEntry, port: Port) {
    && (answer.allow <==> se.ports == [] || port in se.ports)
    && answer.entry.namespace == se.namespace && answer.entry.name == se.name
    && answer.entry.ports == se.ports == answer.entry.allowedPorts
  }

  /** An exact line governs, whatever wildcards there are: the last one decides. */
  lemma LastExactDecides(entries: seq<ServiceEntry>, k: nat, j: nat, host: string, port: Port)
    requires k < |entries| && j < |entries[k].hosts| && ExactFor(entries[k].hosts[j], host)
    requires forall k': nat, j': nat ::
      k' < |entries| && j' < |entries[k'].hosts| && Earlier(k, j, k', j') ==> !ExactFor(entries[k'].hosts[j'], host)
    ensures AnswersAs(Decide(entries, host, port), entries[k], port)
  {
    var rules, h, i := Rules(entries), Normalize(host), Position(entries, k, j);
    RuleAt(entries, k, j);
    var last := LastNaming(rules, h);
    if last != i {
      var k', j' := PositionOf(entries, last);
      RuleAt(entries, k', j');
      PositionsAreOrdered(entries, k, j, k', j');
    }
  }

  /** Without one the first wildcard decides. */
  lemma FirstWildcardDecides(entries: seq<ServiceEntry>, k: nat, j: nat, host: string, port: Port)
    requires k < |entries| && j < |entries[k].hosts| && WildFor(entries[k].hosts[j], host)
    requires forall k': nat, j': nat ::
      k' < |entries| && j' < |entries[k'].hosts| ==> !ExactFor(entries[k'].hosts[j'], host)
    requires forall k': nat, j': nat ::
      k' < |entries| && j' < |entries[k'].hosts| && Earlier(k', j', k, j) ==> !WildFor(entries[k'].hosts[j'], host)
    ensures AnswersAs(Decide(entries, host, port), entries[k], port)
  {
    var rules, h, i := Rules(entries), Normalize(host), Position(entries, k, j);
    RuleAt(entries, k, j);
    var named, first := LastNaming(rules, h), FirstSpanning(rules, h);
    if named >= 0 {
      var k', j' := PositionOf(entries, named);
      RuleAt(entries, k', j');
    }
    if first != i {
      var k', j' := PositionOf(entries, first);
      RuleAt(entries, k', j');
      PositionsAreOrdered(entries, k', j', k, j);
    }
  }

  /** Without any line that applies the answer is no, and names no entry. */
  lemma OtherwiseDenied(entries: seq<ServiceEntry>, host: string, port: Port)
    requires forall k: nat, j: nat :: k < |entries| && j < |entries[k].hosts| ==>
      !ExactFor(entries[k].hosts[j], host) && !WildFor(entries[k].hosts[j], host)
    ensures Decide(entries, host, port) == Answer(false, HostEntry("", "", [], []))
  {
    var rules, h := Rules(entries), Normalize(host);
    var named, first := LastNaming(rules, h), FirstSpanning(rules, h);
    if named >= 0 {
      var k, j := PositionOf(entries, named);
      RuleAt(entries, k, j);
    } else if first < |rules| {
      var k, j := PositionOf(entries, first);
      RuleAt(entries, k, j);
    }
  }
}
