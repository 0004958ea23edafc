/** Certificate hot reload as a protocol: the files change, events queue up, and a reload reads
    the three files one at a time and stores one configuration, interleaved in any order. */
module CertProtocol {
  import opened Text
  import opened Certs

  /** One of the three files: what it holds, and whether the process may read it. */
  datatype Slot = Absent | Present(content: File, readable: bool) {
    function Read(): Option<File> {
      if Present? && readable then Some(content) else None
    }
  }

  datatype Disk = Disk(cert: Slot, key: Slot, ca: Slot)

  /** A reload in progress; the numbers are the disk versions its values were read from. */
  datatype Reload =
    | Idle
    | Begun(start: nat)
    | HasCert(start: nat, cert: File, certAt: nat)
    | HasPair(start: nat, cert: File, certAt: nat, key: File, keyAt: nat)
    | Built(start: nat, config: Config, from: Origin)   // all checks passed, store still to come

  /** The disk versions one reload read its parts from, and the version it started at. */
  datatype Origin = Origin(start: nat, cert: nat, key: nat, ca: nat)

  /** How the last reload begun came out. */
  datatype Outcome =
    | Running
    | Stored
    | Denied(at: nat)   // a file could not be read
    | BadPair(cert: File, certAt: nat, key: File, keyAt: nat)
    | BadCA(ca: File, caAt: nat)

  datatype Phase = New | Starting | Dead | Ready | Watching

  datatype State = State(
    phase: Phase,
    disks: seq<Disk>,          // every state the directory has been in; the last is current
    unsent: seq<set<Op>>,      // events of changes made since watcher.Add, not yet queued
    queue: seq<set<Op>>,
    reload: Reload,
    current: Option<Config>,
    origin: Option<Origin>,    // where the current configuration was read
    began: nat,                // the disk version at which the last reload began
    prior: Option<Config>,     // the configuration at that moment
    outcome: Outcome,
    unseen: bool)              // contents have changed since then without anybody watching

  datatype Step =
    | StartManager | AddWatch
    | Change(disk: Disk, ops: set<Op>) | ChangeMode(disk: Disk) | Noise(ops: set<Op>) | Send
    | Take | ReadCert | ReadKey | ReadCA | Store

  function Fresh(d: Disk): State {
    State(New, [d], [], [], Idle, None, None, 0, None, Running, false)
  }

  predicate Init(s: State) {
    |s.disks| == 1 && s == Fresh(s.disks[0])
  }

  function Now(s: State): nat
    requires s.disks != []
  {
    |s.disks| - 1
  }

  predicate SameContent(a: Slot, b: Slot) {
    if a.Present? then b.Present? && a.content == b.content else b.Absent?
  }

  /** The same files with the same contents; who may read them can differ. */
  predicate SameContents(a: Disk, b: Disk) {
    SameContent(a.cert, b.cert) && SameContent(a.key, b.key) && SameContent(a.ca, b.ca)
  }

  predicate Enabled(s: State, step: Step) {
    s.disks != [] &&
    match step
    case StartManager => s.phase.New?
    case AddWatch => s.phase.Ready?
    case Change(disk, ops) => Relevant(ops)
    case ChangeMode(disk) => SameContents(disk, s.disks[Now(s)])
    case Noise(_) => true
    case Send => s.unsent != []
    case Take => s.phase.Watching? && s.reload.Idle? && s.queue != []
    case ReadCert => s.reload.Begun?
    case ReadKey => s.reload.HasCert?
    case ReadCA => s.reload.HasPair?
    case Store => s.reload.Built?
  }

  function Begin(s: State): State
    requires s.disks != []
  {
    s.(reload := Begun(Now(s)), began := Now(s), prior := s.current, outcome := Running, unseen := false)
  }

  /** A reload that fails leaves the configuration alone; a failed first load is final. */
  function Fail(s: State, outcome: Outcome): State {
    s.(reload := Idle, outcome := outcome, phase := if s.phase.Starting? then Dead else s.phase)
  }

  function Notify(s: State, ops: set<Op>): State {
    if s.phase.Watching? then s.(unsent := s.unsent + [ops]) else s
  }

  /** The directory changes, with the event fsnotify makes of it once it is watched. */
  function Changed(s: State, next: Disk, ops: set<Op>): State
    requires s.disks != []
  {
    var missed := !SameContents(next, s.disks[Now(s)]) && !s.phase.Watching?;
    Notify(s.(disks := s.disks + [next], unseen := s.unseen || missed), ops)
  }

  function Apply(pki: Pki, s: State, step: Step): State
    requires Enabled(s, step)
  {
    var disk := s.disks[Now(s)];
    match step
    case StartManager => Begin(s.(phase := Starting))
    case AddWatch => s.(phase := Watching)
    case Change(next, ops) => Changed(s, next, ops)
    case ChangeMode(next) => Changed(s, next, {Chmod})
    case Noise(ops) => Notify(s, ops)
    case Send => s.(unsent := s.unsent[1..], queue := s.queue + [s.unsent[0]])
    case Take =>
      var taken := s.(queue := s.queue[1..]);
      if Relevant(s.queue[0]) then Begin(taken) else taken
    case ReadCert =>
      (match disk.cert.Read()
       case None => Fail(s, Denied(Now(s)))
       case Some(cert) => s.(reload := HasCert(s.reload.start, cert, Now(s))))
    case ReadKey =>
      var r := s.reload;
      (match disk.key.Read()
       case None => Fail(s, Denied(Now(s)))
       case Some(key) =>
         if !pki.matches(r.cert, key) || !pki.leafParses(r.cert) then Fail(s, BadPair(r.cert, r.certAt, key, Now(s)))
         else s.(reload := HasPair(r.start, r.cert, r.certAt, key, Now(s))))
    case ReadCA =>
      var r := s.reload;
      (match disk.ca.Read()
       case None => Fail(s, Denied(Now(s)))
       case Some(ca) =>
         if !pki.holdsCA(ca) then Fail(s, BadCA(ca, Now(s)))
         else s.(reload := Built(r.start, Config(r.cert, r.key, ca), Origin(r.start, r.certAt, r.keyAt, Now(s)))))
    case Store =>
      s.(current := Some(s.reload.config), origin := Some(s.reload.from), reload := Idle, outcome := Stored,
         phase := if s.phase.Starting? then Ready else s.phase)
  }

  ghost predicate Next(pki: Pki, s: State, s': State) {
    exists step :: Enabled(s, step) && s' == Apply(pki, s, step)
  }

  ghost predicate NextAt(pki: Pki, run: seq<State>, i: nat)
    requires 0 < i < |run|
  {
    Next(pki, run[i - 1], run[i])
  }

  ghost predicate IsRun(pki: Pki, run: seq<State>) {
    && run != [] && Init(run[0])
    && forall i :: 0 < i < |run| ==> NextAt(pki, run, i)
  }

  // ---------------------------------------------------------------------------
  // Safety
  // ---------------------------------------------------------------------------

  /** A configuration read by one reload: each part was on disk at its moment, in reading order,
      after the reload began, and together they passed every check. */
  ghost predicate ReadByOneReload(pki: Pki, disks: seq<Disk>, c: Config, o: Origin) {
    && o.start <= o.cert <= o.key <= o.ca < |disks|
    && disks[o.cert].cert.Read() == Some(c.cert)
    && disks[o.key].key.Read() == Some(c.key)
    && disks[o.ca].ca.Read() == Some(c.ca)
    && Sound(pki, c)
  }

  ghost predicate ReloadHolds(pki: Pki, s: State) {
    match s.reload
    case Idle => true
    case Begun(start) => start < |s.disks|
    case HasCert(start, cert, certAt) =>
      start <= certAt < |s.disks| && s.disks[certAt].cert.Read() == Some(cert)
    case HasPair(start, cert, certAt, key, keyAt) =>
      && start <= certAt <= keyAt < |s.disks|
      && s.disks[certAt].cert.Read() == Some(cert) && s.disks[keyAt].key.Read() == Some(key)
      && pki.matches(cert, key) && pki.leafParses(cert)
    case Built(start, config, from) => start == from.start && ReadByOneReload(pki, s.disks, config, from)
  }

  ghost predicate CurrentHolds(pki: Pki, s: State) {
    s.current.Some? ==> s.origin.Some? && ReadByOneReload(pki, s.disks, s.current.value, s.origin.value)
  }

  ghost predicate PhaseHolds(s: State) {
    && (s.phase.Ready? || s.phase.Watching? ==> s.current.Some?)
    && (s.phase.New? || s.phase.Dead? || s.phase.Ready? ==> s.reload.Idle?)
  }

  // ---------------------------------------------------------------------------
  // How the last reload came out
  // ---------------------------------------------------------------------------

  predicate AllReadable(d: Disk) {
    d.cert.Read().Some? && d.key.Read().Some? && d.ca.Read().Some?
  }

  /** What the last reload has seen that made it fail, at moments since it began. */
  ghost predicate FailedFor(pki: Pki, disks: seq<Disk>, began: nat, outcome: Outcome) {
    match outcome
    case Denied(at) => began <= at < |disks| && !AllReadable(disks[at])
    case BadPair(cert, certAt, key, keyAt) =>
      && began <= certAt < |disks| && began <= keyAt < |disks|
      && disks[certAt].cert.Read() == Some(cert) && disks[keyAt].key.Read() == Some(key)
      && !(pki.matches(cert, key) && pki.leafParses(cert))
    case BadCA(ca, caAt) => began <= caAt < |disks| && disks[caAt].ca.Read() == Some(ca) && !pki.holdsCA(ca)
    case _ => true
  }

  ghost predicate OutcomeHolds(s: State) {
    && s.began < |s.disks|
    && (!s.reload.Idle? ==> s.reload.start == s.began && s.outcome.Running?)
    && (s.reload.Idle? && !s.phase.New? ==> !s.outcome.Running?)
    && (!s.outcome.Stored? ==> s.current == s.prior)
  }

  ghost predicate StoredHolds(s: State) {
    s.outcome.Stored? ==> s.current.Some? && s.origin.Some? && s.origin.value.start == s.began
  }

  // ---------------------------------------------------------------------------
  // Convergence
  // ---------------------------------------------------------------------------

  ghost predicate NothingRelevant(events: seq<set<Op>>) {
    forall e :: e in events ==> !Relevant(e)
  }

  /** No relevant event is on its way, and nothing has changed unseen since the last reload
      began. */
  ghost predicate Quiet(s: State) {
    !s.phase.New? && !s.phase.Dead? && !s.unseen && NothingRelevant(s.unsent) && NothingRelevant(s.queue)
  }

  /** The contents of the files have not changed since the last reload began. */
  ghost predicate Steady(s: State)
    requires s.disks != []
  {
    forall v :: s.began <= v < |s.disks| ==> SameContents(s.disks[v], s.disks[Now(s)])
  }

  ghost predicate Inv(pki: Pki, s: State) {
    && s.disks != []
    && ReloadHolds(pki, s) && CurrentHolds(pki, s) && PhaseHolds(s)
    && OutcomeHolds(s) && StoredHolds(s) && FailedFor(pki, s.disks, s.began, s.outcome)
    && (Quiet(s) ==> Steady(s))
  }

  lemma DisksGrow(pki: Pki, s: State, step: Step)
    requires Enabled(s, step)
    ensures s.disks <= Apply(pki, s, step).disks
  {
  }

  /** What was read stays on record. */
  lemma ReadStays(pki: Pki, disks: seq<Disk>, more: seq<Disk>, c: Config, o: Origin)
    requires ReadByOneReload(pki, disks, c, o) && disks <= more
    ensures ReadByOneReload(pki, more, c, o)
  {
  }

  lemma StepReload(pki: Pki, s: State, step: Step)
    requires Enabled(s, step) && ReloadHolds(pki, s)
    ensures ReloadHolds(pki, Apply(pki, s, step))
  {
    DisksGrow(pki, s, step);
    if s.reload.Built? {
      ReadStays(pki, s.disks, Apply(pki, s, step).disks, s.reload.config, s.reload.from);
    }
  }

  lemma StepCurrent(pki: Pki, s: State, step: Step)
    requires Enabled(s, step) && ReloadHolds(pki, s) && CurrentHolds(pki, s)
    ensures CurrentHolds(pki, Apply(pki, s, step))
  {
    DisksGrow(pki, s, step);
    var s' := Apply(pki, s, step);
    if !step.Store? {
      assert s'.current == s.current && s'.origin == s.origin;
      if s.current.Some? {
        ReadStays(pki, s.disks, s'.disks, s.current.value, s.origin.value);
      }
    }
  }

  lemma StepPhase(pki: Pki, s: State, step: Step)
    requires Enabled(s, step) && PhaseHolds(s)
    ensures PhaseHolds(Apply(pki, s, step))
  {
  }

  lemma StepOutcome(pki: Pki, s: State, step: Step)
    requires Enabled(s, step) && ReloadHolds(pki, s) && PhaseHolds(s) && OutcomeHolds(s)
    ensures OutcomeHolds(Apply(pki, s, step))
  {
  }

  lemma StepStored(pki: Pki, s: State, step: Step)
    requires Enabled(s, step) && ReloadHolds(pki, s) && OutcomeHolds(s) && StoredHolds(s)
    ensures StoredHolds(Apply(pki, s, step))
  {
  }

  /** What a reload saw stays on record. */
  lemma FailureStays(pki: Pki, disks: seq<Disk>, more: seq<Disk>, began: nat, outcome: Outcome)
    requires FailedFor(pki, disks, began, outcome) && disks <= more
    ensures FailedFor(pki, more, began, outcome)
  {
  }

  lemma ReadFails(pki: Pki, s: State, step: Step)
    requires Enabled(s, step) && (step.ReadCert? || step.ReadKey? || step.ReadCA?)
    requires ReloadHolds(pki, s) && OutcomeHolds(s) && FailedFor(pki, s.disks, s.began, s.outcome)
    ensures
      var s' := Apply(pki, s, step);
      FailedFor(pki, s'.disks, s'.began, s'.outcome)
  {
  }

  lemma StepFailed(pki: Pki, s: State, step: Step)
    requires Enabled(s, step)
    requires ReloadHolds(pki, s) && OutcomeHolds(s) && FailedFor(pki, s.disks, s.began, s.outcome)
    ensures
      var s' := Apply(pki, s, step);
      FailedFor(pki, s'.disks, s'.began, s'.outcome)
  {
    if step.ReadCert? || step.ReadKey? || step.ReadCA? {
      ReadFails(pki, s, step);
    } else {
      DisksGrow(pki, s, step);
      var s' := Apply(pki, s, step);
      assert s'.outcome.Stored? || s'.outcome.Running? || (s'.outcome == s.outcome && s'.began == s.began);
      FailureStays(pki, s.disks, s'.disks, s.began, s.outcome);
    }
  }

  lemma RelevantSnoc(events: seq<set<Op>>, ops: set<Op>)
    ensures NothingRelevant(events + [ops]) <==> NothingRelevant(events) && !Relevant(ops)
  {
    assert (events + [ops])[|events|] == ops;
    assert forall e :: e in events ==> e in events + [ops];
  }

  lemma RelevantCons(events: seq<set<Op>>)
    requires events != []
    ensures NothingRelevant(events) <==> NothingRelevant(events[1..]) && !Relevant(events[0])
  {
    assert forall e :: e in events <==> e == events[0] || e in events[1..];
  }

  /** A quiet state is reached from a quiet state with the same contents, or by beginning a
      reload. */
  lemma StepQuiet(pki: Pki, s: State, step: Step)
    requires Enabled(s, step)
    ensures
      var s' := Apply(pki, s, step);
      Quiet(s') ==>
        || (Quiet(s) && s'.began == s.began && SameContents(s'.disks[Now(s')], s.disks[Now(s)]))
        || ((step.Take? || step.StartManager?) && s'.began == Now(s'))
  {
    match step
    case Change(_, ops) => RelevantSnoc(s.unsent, ops);
    case ChangeMode(_) => RelevantSnoc(s.unsent, {Chmod});
    case Noise(ops) => RelevantSnoc(s.unsent, ops);
    case Send =>
      RelevantCons(s.unsent);
      RelevantSnoc(s.queue, s.unsent[0]);
    case Take => RelevantCons(s.queue);
    case _ =>
  }

  lemma StepSteady(pki: Pki, s: State, step: Step)
    requires Enabled(s, step) && (Quiet(s) ==> Steady(s))
    ensures Quiet(Apply(pki, s, step)) ==> Steady(Apply(pki, s, step))
  {
    StepQuiet(pki, s, step);
    DisksGrow(pki, s, step);
    var s' := Apply(pki, s, step);
    assert |s'.disks| <= |s.disks| + 1;
  }

  lemma StepHolds(pki: Pki, s: State, step: Step)
    requires Enabled(s, step) && Inv(pki, s)
    ensures Inv(pki, Apply(pki, s, step))
  {
    DisksGrow(pki, s, step);
    StepReload(pki, s, step);
    StepCurrent(pki, s, step);
    StepPhase(pki, s, step);
    StepOutcome(pki, s, step);
    StepStored(pki, s, step);
    StepFailed(pki, s, step);
    StepSteady(pki, s, step);
  }

  lemma {:induction false} RunHolds(pki: Pki, run: seq<State>, i: nat)
    requires IsRun(pki, run) && i < |run|
    ensures Inv(pki, run[i])
  {
    if i > 0 {
      RunHolds(pki, run, i - 1);
      assert NextAt(pki, run, i);
      var step :| Enabled(run[i - 1], step) && run[i] == Apply(pki, run[i - 1], step);
      StepHolds(pki, run[i - 1], step);
    }
  }

  // ---------------------------------------------------------------------------
  // Theorems over whole runs
  // ---------------------------------------------------------------------------

  /** Once the manager exists, every state offers a whole configuration: the complete result of
      one reload that passed every check. */
  lemma AlwaysOneWholeConfig(pki: Pki, run: seq<State>, i: nat)
    requires IsRun(pki, run) && i < |run|
    requires run[i].phase.Ready? || run[i].phase.Watching?
    ensures run[i].current.Some? && run[i].origin.Some?
    ensures ReadByOneReload(pki, run[i].disks, run[i].current.value, run[i].origin.value)
    ensures
      var c := run[i].current.value;
      pki.matches(c.cert, c.key) && pki.leafParses(c.cert) && pki.holdsCA(c.ca)
  {
    RunHolds(pki, run, i);
  }

  /** A reload completes in step j of the run: its store is done. */
  predicate CompletesAt(run: seq<State>, j: nat)
    requires 0 < j < |run|
  {
    run[j - 1].reload.Built? && run[j].reload.Idle?
  }

  lemma OnlyStoresReplace(pki: Pki, s: State, s': State)
    requires Next(pki, s, s') && !(s.reload.Built? && s'.reload.Idle?)
    ensures s'.current == s.current && s'.origin == s.origin
  {
  }

  /** Failed reloads, however many, leave the configuration alone: over any stretch of a run in
      which no reload completes it stays the same, and so does where it was read; and the reload
      that completes puts in exactly what it built. */
  lemma {:induction false} UnchangedWithoutStore(pki: Pki, run: seq<State>, i: nat, j: nat)
    requires IsRun(pki, run) && i <= j < |run|
    requires forall k :: i < k < j ==> !CompletesAt(run, k)
    ensures i == j || !CompletesAt(run, j) ==> run[j].current == run[i].current && run[j].origin == run[i].origin
    ensures i < j && CompletesAt(run, j) ==> run[j].current == Some(run[j - 1].reload.config)
  {
    if i < j {
      assert NextAt(pki, run, j);
      UnchangedWithoutStore(pki, run, i, j - 1);
      if !CompletesAt(run, j) {
        OnlyStoresReplace(pki, run[j - 1], run[j]);
      }
    }
  }

  /** The three files as a reload would read them now form a sound configuration. */
  ghost predicate FilesLoad(pki: Pki, d: Disk) {
    Loads(pki, d.cert.Read(), d.key.Read(), d.ca.Read())
  }

  function ConfigFrom(d: Disk): Config
    requires AllReadable(d)
  {
    Config(d.cert.content, d.key.content, d.ca.content)
  }

  /** Some file is there but may not be read. */
  predicate Locked(d: Disk) {
    d.cert.Present? && d.key.Present? && d.ca.Present? && !AllReadable(d)
  }

  /** With nothing relevant on its way, nothing changed unseen and no reload in progress, files
      that load are served if and only if the last reload stored, or they were served before it.
      It can only have failed for a file that was there, with the very contents it has now, and
      could not be read. */
  lemma ConvergesExactly(pki: Pki, run: seq<State>, i: nat)
    requires IsRun(pki, run) && i < |run| && run[i].disks != []
    requires Quiet(run[i]) && run[i].reload.Idle? && FilesLoad(pki, run[i].disks[Now(run[i])])
    ensures
      var s := run[i];
      var files := Some(ConfigFrom(s.disks[Now(s)]));
      && (s.current == files <==> s.outcome.Stored? || s.prior == files)
      && (!s.outcome.Stored? ==>
          && s.outcome.Denied? && s.began <= s.outcome.at < |s.disks|
          && Locked(s.disks[s.outcome.at]) && SameContents(s.disks[s.outcome.at], s.disks[Now(s)]))
  {
    RunHolds(pki, run, i);
    OutcomeIsExact(pki, run[i]);
  }

  lemma OutcomeIsExact(pki: Pki, s: State)
    requires Inv(pki, s) && Quiet(s) && s.reload.Idle? && FilesLoad(pki, s.disks[Now(s)])
    ensures s.outcome.Stored? ==> s.current == Some(ConfigFrom(s.disks[Now(s)]))
    ensures !s.outcome.Stored? ==> s.outcome.Denied? && s.current == s.prior
    ensures !s.outcome.Stored? ==>
      Locked(s.disks[s.outcome.at]) && SameContents(s.disks[s.outcome.at], s.disks[Now(s)])
  {
    match s.outcome
    case Stored =>
      var o := s.origin.value;
      assert SameContents(s.disks[o.cert], s.disks[Now(s)]) && SameContents(s.disks[o.key], s.disks[Now(s)]);
      assert SameContents(s.disks[o.ca], s.disks[Now(s)]);
    case Denied(at) => assert SameContents(s.disks[at], s.disks[Now(s)]);
    case _ =>
  }

  /** In particular files that have been readable ever since the last reload began are served. */
  lemma QuietMeansCurrent(pki: Pki, run: seq<State>, i: nat)
    requires IsRun(pki, run) && i < |run| && run[i].disks != []
    requires Quiet(run[i]) && run[i].reload.Idle? && FilesLoad(pki, run[i].disks[Now(run[i])])
    requires forall v :: run[i].began <= v < |run[i].disks| ==> AllReadable(run[i].disks[v])
    ensures run[i].current == Some(ConfigFrom(run[i].disks[Now(run[i])]))
  {
    ConvergesExactly(pki, run, i);
  }

  /** While the directory is watched nothing changes unseen. */
  lemma WatchedChangesAreSeen(pki: Pki, s: State, step: Step)
    requires Enabled(s, step) && s.phase.Watching?
    ensures !s.unseen ==> !Apply(pki, s, step).unseen
    ensures Apply(pki, s, step).phase.Watching?
  {
  }

  /** Step j of the run handles a relevant event. */
  ghost predicate HandlesAt(pki: Pki, run: seq<State>, j: nat)
    requires 0 < j < |run|
  {
    var s := run[j - 1];
    Enabled(s, Take) && Relevant(s.queue[0]) && run[j] == Apply(pki, s, Take)
  }

  /** The last reload begun began in step b, and has stored if and only if one completed since. */
  ghost predicate LastBegan(run: seq<State>, b: nat, i: nat)
    requires b <= i < |run|
  {
    && run[b].disks != []
    && run[i].began == Now(run[b]) && run[i].prior == run[b].current
    && (run[i].outcome.Stored? <==> exists c :: b < c <= i && CompletesAt(run, c))
  }

  /** A step that begins no reload. */
  lemma StepKeepsBegan(pki: Pki, s: State, step: Step)
    requires Enabled(s, step) && s.phase.Watching? && OutcomeHolds(s)
    requires step.Take? ==> !Relevant(s.queue[0])
    ensures
      var s' := Apply(pki, s, step);
      && s'.began == s.began && s'.prior == s.prior
      && (s.reload.Built? && s'.reload.Idle? <==> step.Store?)
      && (s'.outcome.Stored? <==> s.outcome.Stored? || step.Store?)
  {
  }

  lemma NextKeepsBegan(pki: Pki, run: seq<State>, b: nat, i: nat)
    requires IsRun(pki, run) && 0 < b < i < |run| && !HandlesAt(pki, run, i)
    requires run[i - 1].phase.Watching? && OutcomeHolds(run[i - 1]) && LastBegan(run, b, i - 1)
    ensures LastBegan(run, b, i)
  {
    assert NextAt(pki, run, i);
    var step :| Enabled(run[i - 1], step) && run[i] == Apply(pki, run[i - 1], step);
    StepKeepsBegan(pki, run[i - 1], step);
    assert CompletesAt(run, i) <==> step.Store?;
    if c :| b < c <= i && CompletesAt(run, c) {
      assert c == i || (c <= i - 1 && run[i - 1].outcome.Stored?);
    }
  }

  lemma BeganHere(pki: Pki, run: seq<State>, i: nat)
    requires 0 < i < |run| && HandlesAt(pki, run, i)
    ensures LastBegan(run, i, i) && run[i].phase.Watching? && !run[i].unseen
  {
  }

  lemma NextIsSeen(pki: Pki, run: seq<State>, i: nat)
    requires IsRun(pki, run) && 0 < i < |run| && run[i - 1].phase.Watching? && !run[i - 1].unseen
    ensures run[i].phase.Watching? && !run[i].unseen
  {
    assert NextAt(pki, run, i);
    var step :| Enabled(run[i - 1], step) && run[i] == Apply(pki, run[i - 1], step);
    WatchedChangesAreSeen(pki, run[i - 1], step);
  }

  lemma {:induction false} LastHandled(pki: Pki, run: seq<State>, k: nat, i: nat) returns (b: nat)
    requires IsRun(pki, run) && 0 < k <= i < |run| && HandlesAt(pki, run, k)
    ensures k <= b <= i && HandlesAt(pki, run, b) && LastBegan(run, b, i)
    ensures forall j :: b < j <= i ==> !HandlesAt(pki, run, j)
    ensures run[i].phase.Watching? && !run[i].unseen
    decreases i
  {
    if HandlesAt(pki, run, i) {
      b := i;
      BeganHere(pki, run, i);
    } else {
      b := LastHandled(pki, run, k, i - 1);
      RunHolds(pki, run, i - 1);
      NextKeepsBegan(pki, run, b, i);
      NextIsSeen(pki, run, i);
    }
  }

  /** Exactly when reload converges: let a relevant event have been handled at step k, and let b be
      the last step up to i at which one was. Whenever no relevant event is on its way and no reload
      in progress, files that load are the current configuration if and only if a reload has
      completed since b, or they were the current configuration already at b. If none has
      completed, some file was locked at a moment since b; so otherwise the files are served,
      whatever reads, changes and chmods interleaved. */
  lemma EventsConverge(pki: Pki, run: seq<State>, k: nat, i: nat) returns (b: nat)
    requires IsRun(pki, run) && 0 < k <= i < |run| && HandlesAt(pki, run, k)
    requires NothingRelevant(run[i].unsent) && NothingRelevant(run[i].queue)
    requires run[i].reload.Idle? && run[i].disks != [] && FilesLoad(pki, run[i].disks[Now(run[i])])
    ensures k <= b <= i && HandlesAt(pki, run, b) && forall j :: b < j <= i ==> !HandlesAt(pki, run, j)
    ensures
      var files := Some(ConfigFrom(run[i].disks[Now(run[i])]));
      run[i].current == files <==> (exists c :: b < c <= i && CompletesAt(run, c)) || run[b].current == files
    ensures (forall c :: b < c <= i ==> !CompletesAt(run, c)) ==>
      run[b].disks != [] && exists v :: Now(run[b]) <= v < |run[i].disks| && Locked(run[i].disks[v])
  {
    b := LastHandled(pki, run, k, i);
    ConvergesExactly(pki, run, i);
  }

  // ---------------------------------------------------------------------------
  // What convergence does not cover
  // ---------------------------------------------------------------------------

  function Last(run: seq<State>): State
    requires run != []
  {
    run[|run| - 1]
  }

  lemma Extend(pki: Pki, run: seq<State>, step: Step) returns (more: seq<State>)
    requires IsRun(pki, run) && Enabled(Last(run), step)
    ensures IsRun(pki, more) && Last(more) == Apply(pki, Last(run), step)
  {
    more := run + [Apply(pki, Last(run), step)];
    assert Next(pki, Last(run), Last(more));
    forall i | 0 < i < |more| ensures NextAt(pki, more, i) {
      if i < |run| {
        assert NextAt(pki, run, i);
      }
    }
  }

  /** NewManager succeeds on files that load. */
  lemma StartUp(pki: Pki, d: Disk) returns (run: seq<State>)
    requires FilesLoad(pki, d)
    ensures IsRun(pki, run)
    ensures Last(run) ==
      State(Ready, [d], [], [], Idle, Some(ConfigFrom(d)), Some(Origin(0, 0, 0, 0)), 0, None, Stored, false)
  {
    run := [Fresh(d)];
    run := Extend(pki, run, StartManager);
    run := Extend(pki, run, ReadCert);
    run := Extend(pki, run, ReadKey);
    run := Extend(pki, run, ReadCA);
    run := Extend(pki, run, Store);
  }

  /** A change between NewManager and watcher.Add goes unnoticed until a later event: a run that
      ends watching, with nothing on its way, and serving the old files. */
  lemma ChangeBeforeAddIsMissed(pki: Pki, before: Disk, after: Disk) returns (run: seq<State>)
    requires FilesLoad(pki, before) && FilesLoad(pki, after) && before != after
    ensures IsRun(pki, run)
    ensures
      var s := Last(run);
      && s.phase.Watching? && s.unsent == [] && s.queue == [] && s.reload.Idle? && s.unseen
      && s.disks == [before, after] && s.current == Some(ConfigFrom(before)) != Some(ConfigFrom(after))
  {
    run := StartUp(pki, before);
    run := Extend(pki, run, Change(after, {Write}));
    run := Extend(pki, run, AddWatch);
  }

  /** The same files, but for a key that may not be read. */
  function KeyLocked(d: Disk): Disk
    requires d.key.Present?
  {
    d.(key := d.key.(readable := false))
  }

  /** The event of files with a locked key is handled in vain. */
  lemma LockedOut(pki: Pki, before: Disk, after: Disk) returns (run: seq<State>)
    requires FilesLoad(pki, before) && FilesLoad(pki, after)
    ensures IsRun(pki, run)
    ensures Last(run) ==
      State(Watching, [before, KeyLocked(after)], [], [], Idle, Some(ConfigFrom(before)), Some(Origin(0, 0, 0, 0)),
            1, Some(ConfigFrom(before)), Denied(1), false)
  {
    run := StartUp(pki, before);
    run := Extend(pki, run, AddWatch);
    run := Extend(pki, run, Change(KeyLocked(after), {Create}));
    run := Extend(pki, run, Send);
    run := Extend(pki, run, Take);
    run := Extend(pki, run, ReadCert);
    run := Extend(pki, run, ReadKey);
  }

  /** A chmod sends no event the loop acts on: files that could not be read when their event was
      handled, and become readable afterwards, stay unloaded. */
  lemma ChmodIsMissed(pki: Pki, before: Disk, after: Disk) returns (run: seq<State>)
    requires FilesLoad(pki, before) && FilesLoad(pki, after) && before != after
    ensures IsRun(pki, run)
    ensures
      var s := Last(run);
      && s.phase.Watching? && s.unsent == [] && s.queue == [] && s.reload.Idle? && !s.unseen
      && s.disks == [before, KeyLocked(after), after]
      && s.current == Some(ConfigFrom(before)) != Some(ConfigFrom(after))
  {
    run := LockedOut(pki, before, after);
    run := Extend(pki, run, ChangeMode(after));
    run := Extend(pki, run, Send);
    run := Extend(pki, run, Take);
  }

  /** A chmod while the files need not be read does no harm. */
  lemma LaterChmodIsHarmless(pki: Pki, d: Disk) returns (run: seq<State>)
    requires FilesLoad(pki, d)
    ensures IsRun(pki, run)
    ensures
      var s := Last(run);
      && s.phase.Watching? && s.disks == [d, KeyLocked(d), d] && s.unsent == [] && s.queue == []
      && s.current == Some(ConfigFrom(d))
  {
    run := StartUp(pki, d);
    run := Extend(pki, run, AddWatch);
    run := Extend(pki, run, ChangeMode(KeyLocked(d)));
    run := Extend(pki, run, ChangeMode(d));
    run := Extend(pki, run, Send);
    run := Extend(pki, run, Take);
    run := Extend(pki, run, Send);
    run := Extend(pki, run, Take);
  }
}
