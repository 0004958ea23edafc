/** The watcher as a protocol: cache changes, queued informer events, one serial handler that
    lists, builds and swaps under the write lock, and readers that query under the read lock,
    interleaved in any order. */
module WatcherProtocol {
  import opened Text
  import opened ServiceEntries

  /** Where the handler goroutine stands. The snapshot it works on is the cache's `version`. */
  datatype Handler =
    | Idle
    | Woken                                 // callback entered, List not called yet
    | Listed(version: nat, built: Index)    // new index built in locals
    | Locked(version: nat, built: Index)    // write lock held, nothing written
    | HalfSwapped(version: nat, built: Index)  // w.hosts written, w.wildcards not yet

  /** A query under way, read lock held. */
  datatype Reader =
    | Entered(host: string, port: Port)     // about to look up w.hosts
    | Missed(host: string, port: Port)      // not in w.hosts, about to scan w.wildcards

  datatype Given = Given(host: string, port: Port, answer: Answer, version: nat)

  datatype State = State(
    history: seq<seq<ServiceEntry>>,  // every content the informer cache has had; the last is current
    unsent: nat,                      // cache changes whose event is not queued yet
    queue: nat,                       // events queued for the handler
    handler: Handler,
    hosts: map<string, HostEntry>,    // w.hosts
    wildcards: seq<WildcardEntry>,    // w.wildcards
    published: nat,                   // version of the last completed swap
    listFailed: bool,                 // the last List call failed
    readers: map<nat, Reader>,
    given: seq<Given>,                // answers returned so far
    filled: Option<nat>,              // the cache version at which the initial list was in
    synced: bool)                     // the flag Synced reports

  function Current(s: State): nat
    requires s.history != []
  {
    |s.history| - 1
  }

  function BuildOf(entries: seq<ServiceEntry>): Index {
    Build(Rules(entries))
  }

  predicate Init(s: State) {
    s == State([[]], 0, 0, Idle, map[], [], 0, false, map[], [], None, false)
  }

  datatype Step =
    | Change(entries: seq<ServiceEntry>) | Send | Resync | Dequeue
    | List | ListError | Lock | SwapHosts | SwapWildcards
    | Enter(id: nat, host: string, port: Port) | Lookup(id: nat) | Scan(id: nat)
    | CacheFilled | SetSynced

  predicate WriterIn(h: Handler) {
    h.Locked? || h.HalfSwapped?
  }

  predicate Enabled(s: State, step: Step) {
    match step
    case Change(_) => true
    case Send => s.unsent > 0
    case Resync => true
    case Dequeue => s.handler.Idle? && s.queue > 0
    case List => s.handler.Woken? && s.history != []
    case ListError => s.handler.Woken?
    case Lock => s.handler.Listed? && s.readers == map[]
    case SwapHosts => s.handler.Locked?
    case SwapWildcards => s.handler.HalfSwapped?
    case Enter(id, _, _) => id !in s.readers && !WriterIn(s.handler)
    case Lookup(id) => id in s.readers && s.readers[id].Entered?
    case Scan(id) => id in s.readers && s.readers[id].Missed?
    case CacheFilled => s.filled.None? && s.history != []
    case SetSynced => s.filled.Some?
  }

  function Finish(s: State, id: nat, answer: Answer): State
    requires id in s.readers
  {
    s.(readers := s.readers - {id},
       given := s.given + [Given(s.readers[id].host, s.readers[id].port, answer, s.published)])
  }

  function Apply(s: State, step: Step): State
    requires Enabled(s, step)
  {
    match step
    case Change(entries) => s.(history := s.history + [entries], unsent := s.unsent + 1)
    case Send => s.(unsent := s.unsent - 1, queue := s.queue + 1)
    case Resync => s.(queue := s.queue + 1)
    case Dequeue => s.(queue := s.queue - 1, handler := Woken)
    case List => s.(handler := Listed(Current(s), BuildOf(s.history[Current(s)])), listFailed := false)
    case ListError => s.(handler := Idle, listFailed := true)
    case Lock => s.(handler := Locked(s.handler.version, s.handler.built))
    case SwapHosts => s.(hosts := s.handler.built.hosts, handler := HalfSwapped(s.handler.version, s.handler.built))
    case SwapWildcards =>
      s.(wildcards := s.handler.built.wildcards, published := s.handler.version, handler := Idle)
    case Enter(id, host, port) => s.(readers := s.readers[id := Entered(host, port)])
    case Lookup(id) =>
      var r := s.readers[id];
      var h := Normalize(r.host);
      if h in s.hosts then Finish(s, id, Answer(Allowed(s.hosts[h], r.port), s.hosts[h]))
      else s.(readers := s.readers[id := Missed(r.host, r.port)])
    case Scan(id) =>
      var r := s.readers[id];
      Finish(s, id, ScanAnswer(s.wildcards, Normalize(r.host), r.port))
    case CacheFilled => s.(filled := Some(Current(s)))
    case SetSynced => s.(synced := true)
  }

  ghost predicate Next(s: State, s': State) {
    exists step :: Enabled(s, step) && s' == Apply(s, step)
  }

  ghost predicate NextAt(run: seq<State>, i: nat)
    requires 0 < i < |run|
  {
    Next(run[i - 1], run[i])
  }

  ghost predicate IsRun(run: seq<State>) {
    && run != [] && Init(run[0])
    && forall i :: 0 < i < |run| ==> NextAt(run, i)
  }

  // ---------------------------------------------------------------------------
  // Invariants
  // ---------------------------------------------------------------------------

  /** Outside a swap the two fields are the index of one single cache snapshot. */
  ghost predicate OneSnapshot(s: State) {
    && s.published < |s.history|
    && (!s.handler.HalfSwapped? ==> Index(s.hosts, s.wildcards) == BuildOf(s.history[s.published]))
  }

  ghost predicate HandlerHolds(s: State) {
    && ((s.handler.Listed? || WriterIn(s.handler)) ==>
        && s.published <= s.handler.version < |s.history|
        && s.handler.built == BuildOf(s.history[s.handler.version]))
    && (s.handler.HalfSwapped? ==> s.hosts == s.handler.built.hosts)
  }

  ghost predicate ReadersHold(s: State) {
    && (WriterIn(s.handler) ==> s.readers == map[])
    && forall id :: id in s.readers && s.readers[id].Missed? ==> Normalize(s.readers[id].host) !in s.hosts
  }

  ghost predicate AnswersHold(s: State) {
    && (forall k :: 0 <= k < |s.given| ==>
        && s.given[k].version <= s.published
        && s.given[k].version < |s.history|
        && s.given[k].answer == Decide(s.history[s.given[k].version], s.given[k].host, s.given[k].port))
    && forall j, k :: 0 <= j < k < |s.given| ==> s.given[j].version <= s.given[k].version
  }

  /** The index is current, or something is still on its way that will make it so, or the last
      List failed. */
  ghost predicate CatchesUp(s: State) {
    || s.published == |s.history| - 1
    || s.unsent > 0 || s.queue > 0
    || s.handler.Woken?
    || ((s.handler.Listed? || WriterIn(s.handler)) && s.handler.version == |s.history| - 1)
    || s.listFailed
  }

  /** The flag is set only once the initial list is in the cache. */
  ghost predicate FilledHolds(s: State) {
    && (s.filled.Some? ==> s.filled.value < |s.history|)
    && (s.synced ==> s.filled.Some?)
  }

  ghost predicate Inv(s: State) {
    && s.history != [] && FilledHolds(s)
    && OneSnapshot(s) && HandlerHolds(s) && ReadersHold(s) && AnswersHold(s) && CatchesUp(s)
  }

  lemma InitHolds(s: State)
    requires Init(s)
    ensures Inv(s)
  {
    assert Rules([]) == [];
  }

  lemma HistoryGrows(s: State, step: Step)
    requires Enabled(s, step)
    ensures s.history <= Apply(s, step).history && s.given <= Apply(s, step).given
  {
  }

  lemma PublishedGrows(s: State, step: Step)
    requires HandlerHolds(s) && Enabled(s, step)
    ensures s.published <= Apply(s, step).published
  {
  }

  lemma StepKeepsSnapshot(s: State, step: Step)
    requires OneSnapshot(s) && HandlerHolds(s) && Enabled(s, step)
    ensures OneSnapshot(Apply(s, step))
  {
    HistoryGrows(s, step);
  }

  lemma StepKeepsHandler(s: State, step: Step)
    requires OneSnapshot(s) && HandlerHolds(s) && Enabled(s, step)
    ensures HandlerHolds(Apply(s, step))
  {
    HistoryGrows(s, step);
  }

  lemma StepKeepsReaders(s: State, step: Step)
    requires ReadersHold(s) && Enabled(s, step)
    ensures ReadersHold(Apply(s, step))
  {
  }

  lemma StepCatchesUp(s: State, step: Step)
    requires HandlerHolds(s) && CatchesUp(s) && Enabled(s, step)
    ensures CatchesUp(Apply(s, step))
  {
  }

  lemma PublishedDecides(s: State, host: string, port: Port)
    requires OneSnapshot(s) && !s.handler.HalfSwapped?
    ensures Query(Index(s.hosts, s.wildcards), host, port) == Decide(s.history[s.published], host, port)
  {
    IndexDecides(s.history[s.published], Index(s.hosts, s.wildcards), host, port);
  }

  lemma OneMoreAnswer(s: State, id: nat, answer: Answer)
    requires AnswersHold(s) && s.published < |s.history| && id in s.readers
    requires answer == Decide(s.history[s.published], s.readers[id].host, s.readers[id].port)
    ensures AnswersHold(Finish(s, id, answer))
  {
  }

  /** An answer given under the read lock is the decision of the published snapshot. */
  lemma AnswerDecides(s: State, id: nat, answer: Answer)
    requires Inv(s) && id in s.readers
    requires answer == Query(Index(s.hosts, s.wildcards), s.readers[id].host, s.readers[id].port)
    ensures AnswersHold(Finish(s, id, answer))
  {
    PublishedDecides(s, s.readers[id].host, s.readers[id].port);
    OneMoreAnswer(s, id, answer);
  }

  lemma StepKeepsAnswers(s: State, step: Step)
    requires Inv(s) && Enabled(s, step)
    ensures AnswersHold(Apply(s, step))
  {
    match step
    case Lookup(id) =>
      var r := s.readers[id];
      var h := Normalize(r.host);
      if h in s.hosts {
        AnswerDecides(s, id, Answer(Allowed(s.hosts[h], r.port), s.hosts[h]));
      }
    case Scan(id) =>
      var r := s.readers[id];
      AnswerDecides(s, id, ScanAnswer(s.wildcards, Normalize(r.host), r.port));
    case _ =>
      HistoryGrows(s, step);
      assert Apply(s, step).given == s.given && s.published <= Apply(s, step).published;
  }

  lemma StepHolds(s: State, step: Step)
    requires Inv(s) && Enabled(s, step)
    ensures Inv(Apply(s, step))
  {
    HistoryGrows(s, step);
    StepKeepsSnapshot(s, step);
    StepKeepsHandler(s, step);
    StepKeepsReaders(s, step);
    StepKeepsAnswers(s, step);
    StepCatchesUp(s, step);
  }

  lemma StepAt(run: seq<State>, i: nat) returns (step: Step)
    requires IsRun(run) && 0 < i < |run|
    ensures Enabled(run[i - 1], step) && run[i] == Apply(run[i - 1], step)
  {
    assert NextAt(run, i);
    step :| Enabled(run[i - 1], step) && run[i] == Apply(run[i - 1], step);
  }

  lemma {:induction false} RunHolds(run: seq<State>, i: nat)
    requires IsRun(run) && i < |run|
    ensures Inv(run[i])
  {
    if i == 0 {
      InitHolds(run[0]);
    } else {
      RunHolds(run, i - 1);
      var step := StepAt(run, i);
      StepHolds(run[i - 1], step);
    }
  }

  // ---------------------------------------------------------------------------
  // Theorems over whole runs
  // ---------------------------------------------------------------------------

  /** Whenever a reader may look, hosts and wildcards are the build of one snapshot of the
      cache, and every answer ever given is the plain decision over one snapshot; a later answer
      never comes from an earlier snapshot. */
  lemma EveryAnswerIsOneSnapshot(run: seq<State>, i: nat)
    requires IsRun(run) && i < |run|
    ensures
      var s := run[i];
      && (s.readers != map[] ==>
          s.published < |s.history| && Index(s.hosts, s.wildcards) == BuildOf(s.history[s.published]))
      && (forall k :: 0 <= k < |s.given| ==>
          && s.given[k].version < |s.history|
          && s.given[k].answer == Decide(s.history[s.given[k].version], s.given[k].host, s.given[k].port))
      && (forall j, k :: 0 <= j < k < |s.given| ==> s.given[j].version <= s.given[k].version)
  {
    RunHolds(run, i);
  }

  /** Published snapshot versions never go backwards, and answers once given stay given. */
  lemma {:induction false} VersionsOnlyGrow(run: seq<State>, i: nat, j: nat)
    requires IsRun(run) && i <= j < |run|
    ensures run[i].published <= run[j].published
    ensures run[i].history <= run[j].history && run[i].given <= run[j].given
    decreases j - i
  {
    if i < j {
      VersionsOnlyGrow(run, i, j - 1);
      RunHolds(run, j - 1);
      var step := StepAt(run, j);
      HistoryGrows(run[j - 1], step);
      PublishedGrows(run[j - 1], step);
    }
  }

  ghost predicate Settled(s: State) {
    s.unsent == 0 && s.queue == 0 && s.handler.Idle? && !s.listFailed
  }

  /** Convergence: with no event on its way, no rebuild under way and the last List having
      succeeded, the index is the build of the current cache. */
  lemma SettledMeansCurrent(run: seq<State>, i: nat)
    requires IsRun(run) && i < |run| && Settled(run[i])
    ensures run[i].history != []
    ensures Index(run[i].hosts, run[i].wildcards) == BuildOf(run[i].history[Current(run[i])])
  {
    RunHolds(run, i);
  }

  // ---------------------------------------------------------------------------
  // The synced flag
  // ---------------------------------------------------------------------------

  /** Step c of the run ends a swap: a rebuild that listed cache version v or a later one has been
      published. */
  ghost predicate PublishesAt(run: seq<State>, c: nat, v: nat)
    requires 0 < c < |run|
  {
    run[c - 1].handler.HalfSwapped? && run[c - 1].handler.version >= v && run[c].handler.Idle?
  }

  lemma StepPublishes(s: State, step: Step)
    requires Enabled(s, step) && HandlerHolds(s)
    ensures
      var s' := Apply(s, step);
      && (s.handler.HalfSwapped? && s'.handler.Idle? ==> s'.published == s.handler.version)
      && (!(s.handler.HalfSwapped? && s'.handler.Idle?) ==> s'.published == s.published)
  {
  }

  lemma PublishesNext(run: seq<State>, i: nat, v: nat)
    requires IsRun(run) && 0 < i < |run|
    ensures run[i].published >= v <==> run[i - 1].published >= v || PublishesAt(run, i, v)
  {
    RunHolds(run, i - 1);
    var step := StepAt(run, i);
    StepPublishes(run[i - 1], step);
    PublishedGrows(run[i - 1], step);
  }

  lemma {:induction false} PublishedBy(run: seq<State>, i: nat, v: nat)
    requires IsRun(run) && i < |run|
    ensures run[i].published >= v <==> v == 0 || exists c :: 0 < c <= i && PublishesAt(run, c, v)
  {
    if i > 0 {
      PublishedBy(run, i - 1, v);
      PublishesNext(run, i, v);
      if c :| 0 < c <= i && PublishesAt(run, c, v) {
        assert c == i || c <= i - 1;
      }
    }
  }

  lemma FilledOnce(s: State, step: Step)
    requires Enabled(s, step) && s.filled.Some?
    ensures Apply(s, step).filled == s.filled
  {
  }

  lemma {:induction false} FilledStays(run: seq<State>, i: nat, j: nat)
    requires IsRun(run) && i <= j < |run| && run[i].filled.Some?
    ensures run[j].filled == run[i].filled
    decreases j - i
  {
    if i < j {
      FilledStays(run, i, j - 1);
      var step := StepAt(run, j);
      FilledOnce(run[j - 1], step);
    }
  }

  /** What the synced flag leaves open. When it is set the initial list is in the cache, at version
      v. The index takes that list into account from the moment on, and no earlier, at which a
      rebuild that listed version v or a later one is published: until then every answer is that
      of an older cache, and from then on every further answer is that of version v or a later
      one. A settled watcher has got there. */
  lemma SyncedExactly(run: seq<State>, i: nat, j: nat)
    requires IsRun(run) && i <= j < |run| && run[i].synced
    ensures run[i].filled.Some? && run[i].filled.value < |run[i].history| && run[j].filled == run[i].filled
    ensures
      var v := run[i].filled.value;
      && (run[i].published >= v <==> v == 0 || exists c :: 0 < c <= i && PublishesAt(run, c, v))
      && (run[i].published < v ==> forall k :: 0 <= k < |run[i].given| ==> run[i].given[k].version < v)
      && (run[i].published >= v ==> forall k :: |run[i].given| <= k < |run[j].given| ==> run[j].given[k].version >= v)
      && (Settled(run[i]) ==> run[i].published >= v)
  {
    RunHolds(run, i);
    FilledStays(run, i, j);
    PublishedBy(run, i, run[i].filled.value);
    if run[i].published >= run[i].filled.value {
      LaterAnswers(run, i, j);
    }
  }

  lemma {:induction false} LaterAnswers(run: seq<State>, i: nat, j: nat)
    requires IsRun(run) && i <= j < |run|
    ensures |run[i].given| <= |run[j].given|
    ensures forall k :: |run[i].given| <= k < |run[j].given| ==> run[j].given[k].version >= run[i].published
    decreases j - i
  {
    if i < j {
      LaterAnswers(run, i, j - 1);
      VersionsOnlyGrow(run, i, j - 1);
      var step := StepAt(run, j);
      var more := StepGives(run[j - 1], step);
      AnswersAdded(run[j - 1].given, more, |run[i].given|, run[i].published);
    }
  }

  /** A step gives one answer at most, from the published version. */
  lemma StepGives(s: State, step: Step) returns (more: seq<Given>)
    requires Enabled(s, step)
    ensures Apply(s, step).given == s.given + more
    ensures more == [] || (|more| == 1 && more[0].version == s.published)
  {
    more := Apply(s, step).given[|s.given|..];
    match step
    case Lookup(_) =>
    case Scan(_) =>
    case _ => assert Apply(s, step).given == s.given;
  }

  lemma AnswersAdded(given: seq<Given>, more: seq<Given>, n: nat, v: nat)
    requires n <= |given| && forall k :: n <= k < |given| ==> given[k].version >= v
    requires more == [] || (|more| == 1 && more[0].version >= v)
    ensures forall k :: n <= k < |given + more| ==> (given + more)[k].version >= v
  {
  }

  lemma SyncedAtOnce(se: ServiceEntry) returns (run: seq<State>)
    ensures IsRun(run)
    ensures run[|run| - 1] == State([[], [se]], 1, 0, Idle, map[], [], 0, false, map[], [], Some(1), true)
  {
    run := [State([[]], 0, 0, Idle, map[], [], 0, false, map[], [], None, false)];
    run := Extend(run, Change([se]));
    run := Extend(run, CacheFilled);
    run := Extend(run, SetSynced);
  }

  /** The flag can be set before that: a run in which it is, and a host that the cache allows is
      denied. */
  lemma SyncedBeforeBuilt(se: ServiceEntry) returns (run: seq<State>)
    requires se.hosts == ["a.example"] && se.ports == []
    ensures IsRun(run)
    ensures
      var s := run[|run| - 1];
      && s.synced && s.filled == Some(1) && s.published == 0 && s.history == [[], [se]]
      && Verdict([se], "a.example", 443)
      && |s.given| == 1 && s.given[0].host == "a.example" && s.given[0].port == 443 && !s.given[0].answer.allow
  {
    run := SyncedAtOnce(se);
    run := Extend(run, Enter(0, "a.example", 443));
    run := Extend(run, Lookup(0));
    run := Extend(run, Scan(0));
    ExampleIsAllowed(se);
  }

  lemma Extend(run: seq<State>, step: Step) returns (more: seq<State>)
    requires IsRun(run) && Enabled(run[|run| - 1], step)
    ensures IsRun(more) && more[|more| - 1] == Apply(run[|run| - 1], step)
  {
    more := run + [Apply(run[|run| - 1], step)];
    assert Next(run[|run| - 1], more[|run|]);
    forall i | 0 < i < |more| ensures NextAt(more, i) {
      if i < |run| {
        assert NextAt(run, i);
      }
    }
  }

  lemma ExampleIsAllowed(se: ServiceEntry)
    requires se.hosts == ["a.example"] && se.ports == []
    ensures Verdict([se], "a.example", 443)
  {
    RulesSingle(se);
    var h := Normalize("a.example");
    assert h == "a.example";
    var rules := Rules([se]);
    assert rules[0] == Rule(h, EntryOf(se));
    assert h[..2] == "a." && "*."[0] == '*';
    assert !IsWildcard(h);
    assert Names(rules[0].host, h);
    assert LastNaming(rules, h) == 0;
  }
}
