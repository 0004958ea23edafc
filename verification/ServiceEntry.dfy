/** The ServiceEntry allowlist: the index the watcher rebuilds from the cache, the query the
    proxy asks of it, and the plain decision over the raw entry list it must agree with. */
module ServiceEntries {
  import opened Text

  datatype ServiceEntry = ServiceEntry(namespace: string, name: string, hosts: seq<string>, ports: seq<Port>)

  datatype HostEntry = HostEntry(namespace: string, name: string, ports: seq<Port>, allowedPorts: seq<Port>)

  datatype WildcardEntry = WildcardEntry(suffix: string, entry: HostEntry)

  datatype Index = Index(hosts: map<string, HostEntry>, wildcards: seq<WildcardEntry>)

  datatype Answer = Answer(allow: bool, entry: HostEntry)

  const NO_ENTRY := HostEntry("", "", [], [])

  function Normalize(host: string): string {
    ToLower(TrimDot(host))
  }

  function EntryOf(se: ServiceEntry): HostEntry {
    HostEntry(se.namespace, se.name, se.ports, se.ports)
  }

  ghost predicate Permits(ports: seq<Port>, port: Port) {
    ports == [] || port in ports
  }

  // ---------------------------------------------------------------------------
  // The plain decision over the raw list
  // ---------------------------------------------------------------------------

  /** One normalised host line of one entry. */
  datatype Rule = Rule(host: string, entry: HostEntry)

  function RulesOf(se: ServiceEntry): (r: seq<Rule>)
    ensures |r| == |se.hosts|
  {
    seq(|se.hosts|, i requires 0 <= i < |se.hosts| => Rule(Normalize(se.hosts[i]), EntryOf(se)))
  }

  /** All host lines, in list order. */
  function Rules(entries: seq<ServiceEntry>): seq<Rule> {
    if entries == [] then []
    else Rules(entries[..|entries| - 1]) + RulesOf(entries[|entries| - 1])
  }

  predicate IsWildcard(line: string) {
    "*." <= line
  }

  predicate Names(line: string, host: string) {
    !IsWildcard(line) && line == host
  }

  predicate Spans(line: string, host: string) {
    IsWildcard(line) && HasSuffix(host, line[1..])
  }

  /** Position of the last line naming the host, or -1. */
  function LastNaming(rules: seq<Rule>, host: string): (i: int)
    ensures -1 <= i < |rules|
    ensures i >= 0 ==> Names(rules[i].host, host)
    ensures forall j :: i < j < |rules| ==> !Names(rules[j].host, host)
  {
    if rules == [] then -1
    else if Names(rules[|rules| - 1].host, host) then |rules| - 1
    else LastNaming(rules[..|rules| - 1], host)
  }

  /** Position of the first wildcard line spanning the host, or |rules|. */
  function FirstSpanning(rules: seq<Rule>, host: string): (i: nat)
    ensures i <= |rules|
    ensures i < |rules| ==> Spans(rules[i].host, host)
    ensures forall j :: 0 <= j < i ==> !Spans(rules[j].host, host)
  {
    if rules == [] then 0
    else
      var i := FirstSpanning(rules[..|rules| - 1], host);
      if i < |rules| - 1 || Spans(rules[|rules| - 1].host, host) then i else |rules|
  }

  /** The line that governs a normalised host: the last one naming it, otherwise the first
      wildcard spanning it. */
  function Governing(rules: seq<Rule>, host: string): Option<HostEntry> {
    var i, j := LastNaming(rules, host), FirstSpanning(rules, host);
    if i >= 0 then Some(rules[i].entry)
    else if j < |rules| then Some(rules[j].entry)
    else None
  }

  ghost function Decide(entries: seq<ServiceEntry>, host: string, port: Port): Answer {
    match Governing(Rules(entries), Normalize(host))
    case None => Answer(false, NO_ENTRY)
    case Some(e) => Answer(Permits(e.allowedPorts, port), e)
  }

  ghost predicate Verdict(entries: seq<ServiceEntry>, host: string, port: Port) {
    Decide(entries, host, port).allow
  }

  /** A host line as written in an entry applies to a requested host. */
  ghost predicate Applies(line: string, host: string) {
    var l, h := Normalize(line), Normalize(host);
    Names(l, h) || Spans(l, h)
  }

  // ---------------------------------------------------------------------------
  // The index
  // ---------------------------------------------------------------------------

  /** What the index must hold for a list of lines: per named host its last line, and the
      wildcard lines in list order. */
  ghost predicate Indexes(ix: Index, rules: seq<Rule>) {
    && (forall h :: h in ix.hosts <==> LastNaming(rules, h) >= 0)
    && (forall h :: h in ix.hosts ==> ix.hosts[h] == rules[LastNaming(rules, h)].entry)
    && ix.wildcards == Wildcards(rules)
  }

  function Wildcards(rules: seq<Rule>): seq<WildcardEntry> {
    if rules == [] then []
    else
      var last := rules[|rules| - 1];
      Wildcards(rules[..|rules| - 1]) +
      if IsWildcard(last.host) then [WildcardEntry(last.host[1..], last.entry)] else []
  }

  /** One line, written to the index. */
  function Write(ix: Index, r: Rule): Index {
    if IsWildcard(r.host) then ix.(wildcards := ix.wildcards + [WildcardEntry(r.host[1..], r.entry)])
    else ix.(hosts := ix.hosts[r.host := r.entry])
  }

  /** All lines, written in order. */
  function Build(rules: seq<Rule>): Index {
    if rules == [] then Index(map[], [])
    else Write(Build(rules[..|rules| - 1]), rules[|rules| - 1])
  }

  lemma LastNamingOneMore(rules: seq<Rule>, r: Rule, host: string)
    ensures LastNaming(rules + [r], host) == if Names(r.host, host) then |rules| else LastNaming(rules, host)
  {
    assert (rules + [r])[..|rules|] == rules;
  }

  lemma IndexOneMore(ix: Index, rules: seq<Rule>, r: Rule)
    requires Indexes(ix, rules)
    ensures Indexes(Write(ix, r), rules + [r])
  {
    forall h ensures LastNaming(rules + [r], h) == if Names(r.host, h) then |rules| else LastNaming(rules, h) {
      LastNamingOneMore(rules, r, h);
    }
    assert (rules + [r])[..|rules|] == rules;
    assert ix.wildcards + [] == ix.wildcards;
  }

  /** Writing the lines in order leaves exactly the index they call for, and no other index
      meets that description. */
  lemma {:induction false} BuildIndexes(rules: seq<Rule>, other: Index)
    ensures Indexes(other, rules) <==> other == Build(rules)
  {
    if rules != [] {
      var rest, last := rules[..|rules| - 1], rules[|rules| - 1];
      BuildIndexes(rest, Build(rest));
      IndexOneMore(Build(rest), rest, last);
      assert rest + [last] == rules;
    }
    if Indexes(other, rules) {
      IndexUnique(other, Build(rules), rules);
    }
  }

  lemma BuildNextHost(before: seq<Rule>, se: ServiceEntry, i: nat)
    requires i < |se.hosts|
    ensures Build(before + RulesOf(se)[..i + 1]) ==
      Write(Build(before + RulesOf(se)[..i]), Rule(Normalize(se.hosts[i]), EntryOf(se)))
  {
    var more := before + RulesOf(se)[..i + 1];
    assert more[..|more| - 1] == before + RulesOf(se)[..i];
  }

  lemma RulesNextEntry(all: seq<ServiceEntry>, k: nat)
    requires k < |all|
    ensures Rules(all[..k + 1]) == Rules(all[..k]) + RulesOf(all[k])[..|all[k].hosts|]
  {
    assert all[..k + 1][..k] == all[..k];
    assert RulesOf(all[k])[..|all[k].hosts|] == RulesOf(all[k]);
  }

  /** The index of a list is unique. */
  lemma IndexUnique(a: Index, b: Index, rules: seq<Rule>)
    requires Indexes(a, rules) && Indexes(b, rules)
    ensures a == b
  {
    assert a.hosts.Keys == b.hosts.Keys;
  }

  /** First position in the wildcard list whose suffix the host ends with, or its length. */
  function FirstSuffix(wildcards: seq<WildcardEntry>, host: string): (i: nat)
    ensures i <= |wildcards|
    ensures i < |wildcards| ==> HasSuffix(host, wildcards[i].suffix)
    ensures forall j :: 0 <= j < i ==> !HasSuffix(host, wildcards[j].suffix)
  {
    if wildcards == [] then 0
    else
      var i := FirstSuffix(wildcards[..|wildcards| - 1], host);
      if i < |wildcards| - 1 || HasSuffix(host, wildcards[|wildcards| - 1].suffix) then i else |wildcards|
  }

  /** Scanning the wildcard list finds the first spanning line of the raw list. */
  lemma {:induction false} ScanFindsFirstSpanning(rules: seq<Rule>, host: string)
    ensures
      var i, j := FirstSuffix(Wildcards(rules), host), FirstSpanning(rules, host);
      && (i < |Wildcards(rules)| <==> j < |rules|)
      && (j < |rules| ==> Wildcards(rules)[i].entry == rules[j].entry)
  {
    if rules != [] {
      var rest, last := rules[..|rules| - 1], rules[|rules| - 1];
      ScanFindsFirstSpanning(rest, host);
      var w := Wildcards(rules);
      if IsWildcard(last.host) {
        assert w[|w| - 1] == WildcardEntry(last.host[1..], last.entry);
        assert w[..|w| - 1] == Wildcards(rest);
      } else {
        assert w == Wildcards(rest);
      }
    }
  }

  function Allowed(e: HostEntry, port: Port): (ok: bool)
    ensures ok <==> Permits(e.allowedPorts, port)
  {
    e.allowedPorts == [] || port in e.allowedPorts
  }

  /** The second half of a query: the wildcard list, first match wins. */
  function ScanAnswer(wildcards: seq<WildcardEntry>, host: string, port: Port): Answer {
    var i := FirstSuffix(wildcards, host);
    if i < |wildcards| then Answer(Allowed(wildcards[i].entry, port), wildcards[i].entry)
    else Answer(false, NO_ENTRY)
  }

  /** A query of the index, exact hosts first. */
  function Query(ix: Index, host: string, port: Port): Answer {
    var h := Normalize(host);
    if h in ix.hosts then Answer(Allowed(ix.hosts[h], port), ix.hosts[h])
    else ScanAnswer(ix.wildcards, h, port)
  }

  /** Querying the index of a list is the plain decision over the list. */
  lemma IndexDecides(entries: seq<ServiceEntry>, ix: Index, host: string, port: Port)
    requires ix == Build(Rules(entries))
    ensures Query(ix, host, port) == Decide(entries, host, port)
  {
    var rules, h := Rules(entries), Normalize(host);
    BuildIndexes(rules, ix);
    assert h in ix.hosts <==> LastNaming(rules, h) >= 0;
    ScanFindsFirstSpanning(rules, h);
  }

  // ---------------------------------------------------------------------------
  // The watcher
  // ---------------------------------------------------------------------------

  class Watcher {
    var hosts: map<string, HostEntry>
    var wildcards: seq<WildcardEntry>
    var synced: bool
    ghost var entries: seq<ServiceEntry>  // the list the index was built from

    ghost predicate Valid()
      reads this
    {
      Index(hosts, wildcards) == Build(Rules(entries))
    }

    constructor ()
      ensures Valid() && entries == [] && !synced
    {
      hosts, wildcards, synced, entries := map[], [], false, [];
    }

    /** Flattens the listed entries and swaps both fields; a failed List changes nothing. */
    method Rebuild(list: Option<seq<ServiceEntry>>)
      requires Valid()
      modifies this`hosts, this`wildcards, this`entries
      ensures Valid()
      ensures list.None? ==> entries == old(entries) && hosts == old(hosts) && wildcards == old(wildcards)
      ensures list.Some? ==> entries == list.value
    {
      if list.None? {
        return;
      }
      var all := list.value;
      var newHosts: map<string, HostEntry>, newWildcards: seq<WildcardEntry> := map[], [];
      for k := 0 to |all|
        invariant Index(newHosts, newWildcards) == Build(Rules(all[..k]))
      {
        var se := all[k];
        var ports: seq<Port> := [];
        for i := 0 to |se.ports|
          invariant ports == se.ports[..i]
        {
          ports := ports + [se.ports[i]];
        }
        assert ports == se.ports;
        ghost var before := Rules(all[..k]);
        assert before + RulesOf(se)[..0] == before;
        for i := 0 to |se.hosts|
          invariant Index(newHosts, newWildcards) == Build(before + RulesOf(se)[..i])
        {
          var h := ToLower(TrimDot(se.hosts[i]));
          var entry := HostEntry(se.namespace, se.name, ports, ports);
          BuildNextHost(before, se, i);
          if "*." <= h {
            newWildcards := newWildcards + [WildcardEntry(h[1..], entry)];
          } else {
            newHosts := newHosts[h := entry];
          }
        }
        RulesNextEntry(all, k);
      }
      assert all[..|all|] == all;
      hosts := newHosts;
      wildcards := newWildcards;
      entries := all;
    }

    /** The answer of the index is the plain decision over the raw list, entry included. */
    method AllowHost(host: string, port: Port) returns (answer: Answer)
      requires Valid()
      ensures answer == Decide(entries, host, port)
    {
      var h := ToLower(TrimDot(host));
      assert Query(Index(hosts, wildcards), host, port) == Decide(entries, host, port) by {
        IndexDecides(entries, Index(hosts, wildcards), host, port);
      }
      if h in hosts {
        var ok := PortAllowed(hosts[h], port);
        return Answer(ok, hosts[h]);
      }
      for i := 0 to |wildcards|
        invariant FirstSuffix(wildcards, h) >= i
      {
        if HasSuffix(h, wildcards[i].suffix) {
          var ok := PortAllowed(wildcards[i].entry, port);
          return Answer(ok, wildcards[i].entry);
        }
      }
      return Answer(false, NO_ENTRY);
    }
  }

  method PortAllowed(e: HostEntry, port: Port) returns (ok: bool)
    ensures ok <==> Permits(e.allowedPorts, port)
  {
    if |e.allowedPorts| == 0 {
      return true;
    }
    for i := 0 to |e.allowedPorts|
      invariant port !in e.allowedPorts[..i]
    {
      if e.allowedPorts[i] == port {
        return true;
      }
    }
    return false;
  }

  // ---------------------------------------------------------------------------
  // Consequences for the allowlist's users
  // ---------------------------------------------------------------------------

  /** Every line stems from one host of one entry. */
  lemma {:induction false} RuleOrigin(entries: seq<ServiceEntry>, i: nat) returns (se: ServiceEntry, j: nat)
    requires i < |Rules(entries)|
    ensures se in entries && j < |se.hosts|
    ensures Rules(entries)[i] == Rule(Normalize(se.hosts[j]), EntryOf(se))
  {
    var rest := entries[..|entries| - 1];
    if i < |Rules(rest)| {
      se, j := RuleOrigin(rest, i);
    } else {
      se, j := entries[|entries| - 1], i - |Rules(rest)|;
    }
  }

  /** Every host of every entry has its line. */
  lemma {:induction false} RuleListed(entries: seq<ServiceEntry>, se: ServiceEntry, j: nat) returns (i: nat)
    requires se in entries && j < |se.hosts|
    ensures i < |Rules(entries)|
    ensures Rules(entries)[i] == Rule(Normalize(se.hosts[j]), EntryOf(se))
  {
    var rest := entries[..|entries| - 1];
    if se == entries[|entries| - 1] {
      i := |Rules(rest)| + j;
    } else {
      i := RuleListed(rest, se, j);
    }
  }

  lemma RulesSnoc(entries: seq<ServiceEntry>, se: ServiceEntry)
    ensures Rules(entries + [se]) == Rules(entries) + RulesOf(se)
  {
    assert (entries + [se])[..|entries|] == entries;
  }

  lemma {:induction false} RulesConcat(a: seq<ServiceEntry>, b: seq<ServiceEntry>)
    ensures Rules(a + b) == Rules(a) + Rules(b)
  {
    if b == [] {
      assert a + b == a;
    } else {
      var rest, last := b[..|b| - 1], b[|b| - 1];
      assert b == rest + [last] && a + b == (a + rest) + [last];
      calc {
        Rules(a + b);
        { RulesSnoc(a + rest, last); }
        Rules(a + rest) + RulesOf(last);
        { RulesConcat(a, rest); }
        (Rules(a) + Rules(rest)) + RulesOf(last);
        Rules(a) + (Rules(rest) + RulesOf(last));
        { RulesSnoc(rest, last); }
        Rules(a) + Rules(b);
      }
    }
  }

  lemma RulesSingle(se: ServiceEntry)
    ensures Rules([se]) == RulesOf(se)
  {
    assert [se][..0] == [];
  }

  /** Nothing is allowed that no entry lists: an allow names the entry whose host line applies
      and whose ports permit. */
  lemma AllowedIsListed(entries: seq<ServiceEntry>, host: string, port: Port)
    requires Verdict(entries, host, port)
    ensures exists se, j :: (
      && se in entries && 0 <= j < |se.hosts| && Applies(se.hosts[j], host)
      && Permits(se.ports, port) && Decide(entries, host, port).entry == EntryOf(se))
  {
    var rules, h := Rules(entries), Normalize(host);
    var i := LastNaming(rules, h);
    var k := if i >= 0 then i else FirstSpanning(rules, h);
    var se, j := RuleOrigin(entries, k);
    assert Applies(se.hosts[j], host);
  }

  /** A host no line applies to is denied, whatever the port. */
  lemma UnlistedIsDenied(entries: seq<ServiceEntry>, host: string, port: Port)
    requires forall se, j :: se in entries && 0 <= j < |se.hosts| ==> !Applies(se.hosts[j], host)
    ensures !Verdict(entries, host, port)
  {
    if Verdict(entries, host, port) {
      AllowedIsListed(entries, host, port);
    }
  }

  lemma LastNamingSkips(a: seq<Rule>, mid: seq<Rule>, b: seq<Rule>, host: string)
    requires forall r :: r in mid ==> !Names(r.host, host)
    ensures
      var i := LastNaming(a + b, host);
      LastNaming(a + mid + b, host) == if i < |a| then i else i + |mid|
  {
    if b == [] {
      assert a + b == a && a + mid + b == a + mid;
      if mid != [] {
        assert (a + mid)[..|a + mid| - 1] == a + mid[..|mid| - 1];
        assert mid[|mid| - 1] in mid;
        LastNamingSkips(a, mid[..|mid| - 1], b, host);
        assert a + mid[..|mid| - 1] + b == a + mid[..|mid| - 1];
      } else {
        assert a + mid == a;
      }
    } else {
      var rest := b[..|b| - 1];
      assert (a + b)[..|a + b| - 1] == a + rest;
      assert (a + mid + b)[..|a + mid + b| - 1] == a + mid + rest;
      LastNamingSkips(a, mid, rest, host);
    }
  }

  lemma FirstSpanningSkips(a: seq<Rule>, mid: seq<Rule>, b: seq<Rule>, host: string)
    requires forall r :: r in mid ==> !Spans(r.host, host)
    ensures
      var j := FirstSpanning(a + b, host);
      FirstSpanning(a + mid + b, host) == if j < |a| then j else j + |mid|
  {
    if b == [] {
      assert a + b == a && a + mid + b == a + mid;
      if mid != [] {
        assert (a + mid)[..|a + mid| - 1] == a + mid[..|mid| - 1];
        assert mid[|mid| - 1] in mid;
        FirstSpanningSkips(a, mid[..|mid| - 1], b, host);
        assert a + mid[..|mid| - 1] + b == a + mid[..|mid| - 1];
      } else {
        assert a + mid == a;
      }
    } else {
      var rest := b[..|b| - 1];
      assert (a + b)[..|a + b| - 1] == a + rest;
      assert (a + mid + b)[..|a + mid + b| - 1] == a + mid + rest;
      FirstSpanningSkips(a, mid, rest, host);
    }
  }

  lemma GoverningSkips(a: seq<Rule>, mid: seq<Rule>, b: seq<Rule>, host: string)
    requires forall r :: r in mid ==> !Names(r.host, host) && !Spans(r.host, host)
    ensures Governing(a + mid + b, host) == Governing(a + b, host)
  {
    LastNamingSkips(a, mid, b, host);
    FirstSpanningSkips(a, mid, b, host);
  }

  lemma RulesInserted(a: seq<ServiceEntry>, se: ServiceEntry, b: seq<ServiceEntry>)
    ensures Rules(a + [se] + b) == Rules(a) + RulesOf(se) + Rules(b)
  {
    RulesConcat(a + [se], b);
    RulesConcat(a, [se]);
    RulesSingle(se);
  }

  lemma NoLineApplies(se: ServiceEntry, host: string)
    requires forall j :: 0 <= j < |se.hosts| ==> !Applies(se.hosts[j], host)
    ensures forall r :: r in RulesOf(se) ==> !Names(r.host, Normalize(host)) && !Spans(r.host, Normalize(host))
  {
    forall r | r in RulesOf(se) ensures !Names(r.host, Normalize(host)) && !Spans(r.host, Normalize(host)) {
      var j :| 0 <= j < |se.hosts| && RulesOf(se)[j] == r;
      assert !Applies(se.hosts[j], host);
    }
  }

  /** Locality: an entry inserted at any position, or deleted from it, changes the answer for no
      host that none of its lines applies to. */
  lemma EntryIsLocal(a: seq<ServiceEntry>, se: ServiceEntry, b: seq<ServiceEntry>, host: string, port: Port)
    requires forall j :: 0 <= j < |se.hosts| ==> !Applies(se.hosts[j], host)
    ensures Decide(a + [se] + b, host, port) == Decide(a + b, host, port)
  {
    NoLineApplies(se, host);
    GoverningSkips(Rules(a), RulesOf(se), Rules(b), Normalize(host));
    RulesInserted(a, se, b);
    RulesConcat(a, b);
  }
}
