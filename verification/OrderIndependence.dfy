/** List fixes no order on the entries it returns. When does the verdict not depend on it?
    Exactly when lines that compete for a host permit the same ports. */
module OrderIndependence {
  import opened Text
  import opened ServiceEntries

  /** Two port lists that permit the same ports. */
  ghost predicate SamePorts(p: seq<Port>, q: seq<Port>) {
    forall port: Port :: Permits(p, port) <==> Permits(q, port)
  }

  /** Two normalised lines compete: the same exact name, or wildcards one of which ends with
      the other. */
  ghost predicate Compete(a: string, b: string) {
    || (!IsWildcard(a) && a == b)
    || (IsWildcard(a) && IsWildcard(b) && (HasSuffix(a[1..], b[1..]) || HasSuffix(b[1..], a[1..])))
  }

  ghost predicate Agree(e1: ServiceEntry, e2: ServiceEntry) {
    (exists i, j :: 0 <= i < |e1.hosts| && 0 <= j < |e2.hosts| &&
      Compete(Normalize(e1.hosts[i]), Normalize(e2.hosts[j]))) ==> SamePorts(e1.ports, e2.ports)
  }

  ghost predicate Consistent(entries: seq<ServiceEntry>) {
    forall e1, e2 :: e1 in entries && e2 in entries ==> Agree(e1, e2)
  }

  ghost predicate Permutation(a: seq<ServiceEntry>, b: seq<ServiceEntry>) {
    multiset(a) == multiset(b)
  }

  ghost predicate SameVerdicts(a: seq<ServiceEntry>, b: seq<ServiceEntry>) {
    forall host: string, port: Port :: Verdict(a, host, port) <==> Verdict(b, host, port)
  }

  ghost predicate OrderFree(entries: seq<ServiceEntry>) {
    forall other :: Permutation(other, entries) ==> SameVerdicts(other, entries)
  }

  /** The allowlist is independent of the order of the entry list if and only if competing
      lines permit the same ports. */
  lemma OrderFreeExactlyWhenConsistent(entries: seq<ServiceEntry>)
    ensures OrderFree(entries) <==> Consistent(entries)
  {
    if Consistent(entries) {
      forall other | Permutation(other, entries) ensures SameVerdicts(other, entries) {
        ConsistentIsOrderFree(entries, other);
      }
    }
    if OrderFree(entries) {
      forall e1, e2 | e1 in entries && e2 in entries ensures Agree(e1, e2) {
        if !Agree(e1, e2) {
          DisagreementShows(entries, e1, e2);
        }
      }
    }
  }

  // ---------------------------------------------------------------------------
  // Consistent lists
  // ---------------------------------------------------------------------------

  /** In a consistent list, any line naming a host settles its verdict. */
  lemma NamedVerdict(entries: seq<ServiceEntry>, se: ServiceEntry, j: nat, host: string, port: Port)
    requires Consistent(entries) && se in entries && j < |se.hosts|
    requires Names(Normalize(se.hosts[j]), Normalize(host))
    ensures Verdict(entries, host, port) <==> Permits(se.ports, port)
  {
    var rules := Rules(entries);
    var i := RuleListed(entries, se, j);
    var last := LastNaming(rules, Normalize(host));
    var e2, j2 := RuleOrigin(entries, last);
    assert Compete(Normalize(se.hosts[j]), Normalize(e2.hosts[j2]));
    assert Agree(se, e2);
  }

  /** In a consistent list, any wildcard line spanning an unnamed host settles its verdict. */
  lemma SpannedVerdict(entries: seq<ServiceEntry>, se: ServiceEntry, j: nat, host: string, port: Port)
    requires Consistent(entries) && se in entries && j < |se.hosts|
    requires Spans(Normalize(se.hosts[j]), Normalize(host))
    requires forall e, k :: e in entries && 0 <= k < |e.hosts| ==> !Names(Normalize(e.hosts[k]), Normalize(host))
    ensures Verdict(entries, host, port) <==> Permits(se.ports, port)
  {
    var rules, h := Rules(entries), Normalize(host);
    var i := RuleListed(entries, se, j);
    if LastNaming(rules, h) >= 0 {
      var e, k := RuleOrigin(entries, LastNaming(rules, h));
      assert false;
    }
    var first := FirstSpanning(rules, h);
    var e2, j2 := RuleOrigin(entries, first);
    var a, b := Normalize(se.hosts[j])[1..], Normalize(e2.hosts[j2])[1..];
    if |b| <= |a| {
      SuffixesNest(h, a, b);
    } else {
      SuffixesNest(h, b, a);
    }
    assert Compete(Normalize(se.hosts[j]), Normalize(e2.hosts[j2]));
    assert Agree(se, e2);
  }

  lemma ConsistentIsOrderFree(entries: seq<ServiceEntry>, other: seq<ServiceEntry>)
    requires Consistent(entries) && Permutation(other, entries)
    ensures SameVerdicts(other, entries)
  {
    assert forall e :: e in other <==> e in multiset(other);
    assert forall e :: e in entries <==> e in multiset(entries);
    assert Consistent(other);
    forall host: string, port: Port ensures Verdict(other, host, port) <==> Verdict(entries, host, port) {
      if e, j :| e in entries && 0 <= j < |e.hosts| && Names(Normalize(e.hosts[j]), Normalize(host)) {
        NamedVerdict(entries, e, j, host, port);
        NamedVerdict(other, e, j, host, port);
      } else if e, j :| e in entries && 0 <= j < |e.hosts| && Spans(Normalize(e.hosts[j]), Normalize(host)) {
        SpannedVerdict(entries, e, j, host, port);
        SpannedVerdict(other, e, j, host, port);
      } else {
        UnlistedIsDenied(entries, host, port);
        UnlistedIsDenied(other, host, port);
      }
    }
  }

  // ---------------------------------------------------------------------------
  // Inconsistent lists
  // ---------------------------------------------------------------------------

  /** The list with one of its entries moved to the end. */
  lemma MovedLast(entries: seq<ServiceEntry>, se: ServiceEntry) returns (rest: seq<ServiceEntry>)
    requires se in entries
    ensures Permutation(rest + [se], entries)
  {
    var k :| 0 <= k < |entries| && entries[k] == se;
    rest := entries[..k] + entries[k + 1..];
    assert entries == entries[..k] + [entries[k]] + entries[k + 1..];
  }

  /** The list with one of its entries moved to the front. */
  lemma MovedFirst(entries: seq<ServiceEntry>, se: ServiceEntry) returns (rest: seq<ServiceEntry>)
    requires se in entries
    ensures Permutation([se] + rest, entries)
  {
    var k :| 0 <= k < |entries| && entries[k] == se;
    rest := entries[..k] + entries[k + 1..];
    assert entries == entries[..k] + [entries[k]] + entries[k + 1..];
  }

  /** The entry of the governing line settles the verdict. */
  lemma GoverningSettles(entries: seq<ServiceEntry>, se: ServiceEntry, host: string, port: Port)
    requires Governing(Rules(entries), Normalize(host)) == Some(EntryOf(se))
    ensures Verdict(entries, host, port) <==> Permits(se.ports, port)
  {
  }

  lemma OwnLinesHaveOneEntry(se: ServiceEntry)
    ensures forall r :: r in RulesOf(se) ==> r.entry == EntryOf(se)
  {
  }

  lemma LastInTail(before: seq<Rule>, own: seq<Rule>, j: nat, host: string, e: HostEntry)
    requires j < |own| && Names(own[j].host, host) && forall r :: r in own ==> r.entry == e
    ensures Governing(before + own, host) == Some(e)
  {
    var all := before + own;
    assert all[|before| + j] == own[j];
    var last := LastNaming(all, host);
    assert all[last] == own[last - |before|];
  }

  /** The last entry of a list settles every host it names. */
  lemma LastEntryNames(rest: seq<ServiceEntry>, se: ServiceEntry, j: nat, host: string, port: Port)
    requires j < |se.hosts| && Names(Normalize(se.hosts[j]), Normalize(host))
    ensures Verdict(rest + [se], host, port) <==> Permits(se.ports, port)
  {
    RulesSnoc(rest, se);
    OwnLinesHaveOneEntry(se);
    LastInTail(Rules(rest), RulesOf(se), j, Normalize(host), EntryOf(se));
    GoverningSettles(rest + [se], se, host, port);
  }

  lemma FirstInHead(own: seq<Rule>, after: seq<Rule>, j: nat, host: string, e: HostEntry)
    requires j < |own| && Spans(own[j].host, host) && forall r :: r in own ==> r.entry == e
    requires LastNaming(own + after, host) < 0
    ensures Governing(own + after, host) == Some(e)
  {
    var all := own + after;
    assert all[j] == own[j];
    var first := FirstSpanning(all, host);
    assert all[first] == own[first];
  }

  /** The first entry of a list settles every unnamed host it spans. */
  lemma FirstEntrySpans(rest: seq<ServiceEntry>, se: ServiceEntry, j: nat, host: string, port: Port)
    requires j < |se.hosts| && Spans(Normalize(se.hosts[j]), Normalize(host))
    requires LastNaming(Rules([se] + rest), Normalize(host)) < 0
    ensures Verdict([se] + rest, host, port) <==> Permits(se.ports, port)
  {
    RulesConcat([se], rest);
    RulesSingle(se);
    OwnLinesHaveOneEntry(se);
    FirstInHead(RulesOf(se), Rules(rest), j, Normalize(host), EntryOf(se));
    GoverningSettles([se] + rest, se, host, port);
  }

  /** Any normalised line is what some requested host normalises to. */
  lemma Reachable(line: string)
    requires ToLower(line) == line
    ensures Normalize(line + ".") == line
  {
    assert (line + ".")[|line|..] == ".";
    assert (line + ".")[..|line|] == line;
  }

  lemma NormalizedIsLower(host: string)
    ensures ToLower(Normalize(host)) == Normalize(host)
  {
    LowerFixed(TrimDot(host));
  }

  /** A host that ends with the suffix and is longer than every line. */
  lemma FreshHost(entries: seq<ServiceEntry>, suffix: string) returns (host: string)
    requires ToLower(suffix) == suffix
    ensures HasSuffix(Normalize(host), suffix)
    ensures forall e, k :: e in entries && 0 <= k < |e.hosts| ==> |Normalize(e.hosts[k])| < |Normalize(host)|
  {
    var n := LongestLine(Rules(entries));
    var pad := seq(n + 1, _ => '0');
    var line := pad + suffix;
    LowerConcat(pad, suffix);
    assert ToLower(pad) == pad;
    host := line + ".";
    Reachable(line);
    assert line[|line| - |suffix|..] == suffix;
    forall e, k | e in entries && 0 <= k < |e.hosts| ensures |Normalize(e.hosts[k])| < |line| {
      var i := RuleListed(entries, e, k);
      LongestLineBounds(Rules(entries), i);
    }
  }

  function LongestLine(rules: seq<Rule>): nat {
    if rules == [] then 0
    else
      var n := LongestLine(rules[1..]);
      if n < |rules[0].host| then |rules[0].host| else n
  }

  lemma {:induction false} LongestLineBounds(rules: seq<Rule>, i: nat)
    requires i < |rules|
    ensures |rules[i].host| <= LongestLine(rules)
  {
    if i > 0 {
      LongestLineBounds(rules[1..], i - 1);
    }
  }

  /** No permutation of the list names a host longer than every line. */
  lemma FreshIsUnnamed(entries: seq<ServiceEntry>, other: seq<ServiceEntry>, host: string)
    requires Permutation(other, entries)
    requires forall e, k :: e in entries && 0 <= k < |e.hosts| ==> |Normalize(e.hosts[k])| < |Normalize(host)|
    ensures LastNaming(Rules(other), Normalize(host)) < 0
  {
    assert forall e :: e in other ==> e in multiset(entries);
    var i := LastNaming(Rules(other), Normalize(host));
    if i >= 0 {
      var e, k := RuleOrigin(other, i);
    }
  }

  /** Competing lines with different ports: two orders of the list that answer differently. */
  lemma DisagreementShows(entries: seq<ServiceEntry>, e1: ServiceEntry, e2: ServiceEntry)
    requires e1 in entries && e2 in entries && !Agree(e1, e2)
    ensures !OrderFree(entries)
  {
    var i, j :| 0 <= i < |e1.hosts| && 0 <= j < |e2.hosts| &&
      Compete(Normalize(e1.hosts[i]), Normalize(e2.hosts[j]));
    var port: Port :| !(Permits(e1.ports, port) <==> Permits(e2.ports, port));
    if !IsWildcard(Normalize(e1.hosts[i])) {
      NamesDisagree(entries, e1, e2, i, j, port);
    } else if HasSuffix(Normalize(e1.hosts[i])[1..], Normalize(e2.hosts[j])[1..]) {
      SpansDisagree(entries, e1, e2, i, j, port);
    } else {
      SpansDisagree(entries, e2, e1, j, i, port);
    }
  }

  lemma NamesDisagree(entries: seq<ServiceEntry>, e1: ServiceEntry, e2: ServiceEntry, i: nat, j: nat, port: Port)
    requires e1 in entries && e2 in entries && i < |e1.hosts| && j < |e2.hosts|
    requires Normalize(e1.hosts[i]) == Normalize(e2.hosts[j]) && !IsWildcard(Normalize(e1.hosts[i]))
    requires !(Permits(e1.ports, port) <==> Permits(e2.ports, port))
    ensures !OrderFree(entries)
  {
    var host := Normalize(e1.hosts[i]) + ".";
    NormalizedIsLower(e1.hosts[i]);
    Reachable(Normalize(e1.hosts[i]));
    var rest1 := MovedLast(entries, e1);
    var rest2 := MovedLast(entries, e2);
    LastEntryNames(rest1, e1, i, host, port);
    LastEntryNames(rest2, e2, j, host, port);
    DifferentVerdicts(entries, rest1 + [e1], rest2 + [e2], host, port);
  }

  lemma SpansDisagree(entries: seq<ServiceEntry>, e1: ServiceEntry, e2: ServiceEntry, i: nat, j: nat, port: Port)
    requires e1 in entries && e2 in entries && i < |e1.hosts| && j < |e2.hosts|
    requires IsWildcard(Normalize(e1.hosts[i])) && IsWildcard(Normalize(e2.hosts[j]))
    requires HasSuffix(Normalize(e1.hosts[i])[1..], Normalize(e2.hosts[j])[1..])
    requires !(Permits(e1.ports, port) <==> Permits(e2.ports, port))
    ensures !OrderFree(entries)
  {
    var a, b := Normalize(e1.hosts[i])[1..], Normalize(e2.hosts[j])[1..];
    NormalizedIsLower(e1.hosts[i]);
    assert ToLower(a) == a by {
      assert forall k :: 0 <= k < |a| ==> a[k] == Normalize(e1.hosts[i])[k + 1];
    }
    var host := FreshHost(entries, a);
    SuffixTransitive(Normalize(host), a, b);
    var rest1 := MovedFirst(entries, e1);
    var rest2 := MovedFirst(entries, e2);
    FreshIsUnnamed(entries, [e1] + rest1, host);
    FreshIsUnnamed(entries, [e2] + rest2, host);
    FirstEntrySpans(rest1, e1, i, host, port);
    FirstEntrySpans(rest2, e2, j, host, port);
    DifferentVerdicts(entries, [e1] + rest1, [e2] + rest2, host, port);
  }

  lemma DifferentVerdicts(entries: seq<ServiceEntry>, a: seq<ServiceEntry>, b: seq<ServiceEntry>,
                          host: string, port: Port)
    requires Permutation(a, entries) && Permutation(b, entries)
    requires !(Verdict(a, host, port) <==> Verdict(b, host, port))
    ensures !OrderFree(entries)
  {
    assert OrderFree(entries) ==> SameVerdicts(a, entries) && SameVerdicts(b, entries);
  }
}
