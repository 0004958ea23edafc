/** The certificate manager: staged reading of tls.crt, tls.key and ca.crt, one atomic store,
    and the event loop that repeats it. Certificate parsing is a parameter. */
module Certs {
  import opened Text

  type File = Bytes

  /** What X.509 parsing says about file contents. */
  datatype Pki = Pki(matches: (File, File) -> bool, leafParses: File -> bool, holdsCA: File -> bool)

  datatype Config = Config(cert: File, key: File, ca: File)

  datatype LoadError = KeyPairError | LeafError | ReadCAError | NoCAError

  datatype LoadResult = Loaded(config: Config) | Failed(error: LoadError)

  /** The checks a configuration has passed. */
  ghost predicate Sound(pki: Pki, c: Config) {
    pki.matches(c.cert, c.key) && pki.leafParses(c.cert) && pki.holdsCA(c.ca)
  }

  /** Three reads that together form a sound configuration. */
  ghost predicate Loads(pki: Pki, cert: Option<File>, key: Option<File>, ca: Option<File>) {
    cert.Some? && key.Some? && ca.Some? && Sound(pki, Config(cert.value, key.value, ca.value))
  }

  ghost predicate Paired(pki: Pki, cert: Option<File>, key: Option<File>) {
    cert.Some? && key.Some? && pki.matches(cert.value, key.value)
  }

  datatype Op = Create | Write | Remove | Rename | Chmod

  /** Events the watch loop acts on. */
  predicate Relevant(ops: set<Op>) {
    Create in ops || Write in ops || Remove in ops || Rename in ops
  }

  /** That is, events that are more than a change of mode. */
  lemma RelevantExactly(ops: set<Op>)
    ensures Relevant(ops) <==> exists op :: op in ops && op != Chmod
  {
  }

  /** What the watch loop receives. A file event comes with what the three reads of the reload it
      triggers would return. */
  datatype Message =
    | FileEvent(ops: set<Op>, cert: Option<File>, key: Option<File>, ca: Option<File>)
    | WatchError
    | Stop

  ghost predicate Reloads(pki: Pki, m: Message) {
    m.FileEvent? && Relevant(m.ops) && Loads(pki, m.cert, m.key, m.ca)
  }

  ghost function ConfigOf(pki: Pki, m: Message): Config
    requires Reloads(pki, m)
  {
    Config(m.cert.value, m.key.value, m.ca.value)
  }

  /** Message i is the last of the first n whose reload succeeds. */
  ghost predicate LastReload(pki: Pki, messages: seq<Message>, n: nat, i: nat)
    requires n <= |messages|
  {
    i < n && Reloads(pki, messages[i]) && forall j :: i < j < n ==> !Reloads(pki, messages[j])
  }

  class Manager {
    var current: Option<Config>

    constructor ()
      ensures current == None
    {
      current := None;
    }

    /** Stores exactly the configurations that pass every check; on any failure the current one
        stays, and the error names the first check that failed. */
    method Reload(pki: Pki, cert: Option<File>, key: Option<File>, ca: Option<File>) returns (r: LoadResult)
      modifies this
      ensures r.Loaded? <==> Loads(pki, cert, key, ca)
      ensures r.Loaded? ==>
        pki.matches(cert.value, key.value) && pki.leafParses(cert.value) && pki.holdsCA(ca.value)
      ensures r.Loaded? ==> r.config == Config(cert.value, key.value, ca.value) && current == Some(r.config)
      ensures r.Failed? ==> current == old(current)
      ensures r == Failed(KeyPairError) <==>
        cert.None? || key.None? || !pki.matches(cert.value, key.value)
      ensures r == Failed(LeafError) <==> Paired(pki, cert, key) && !pki.leafParses(cert.value)
      ensures r == Failed(ReadCAError) <==> Paired(pki, cert, key) && pki.leafParses(cert.value) && ca.None?
      ensures r == Failed(NoCAError) <==>
        Paired(pki, cert, key) && pki.leafParses(cert.value) && ca.Some? && !pki.holdsCA(ca.value)
    {
      if cert.None? {
        return Failed(KeyPairError);
      }
      if key.None? {
        return Failed(KeyPairError);
      }
      if !pki.matches(cert.value, key.value) {
        return Failed(KeyPairError);
      }
      if !pki.leafParses(cert.value) {
        return Failed(LeafError);
      }
      if ca.None? {
        return Failed(ReadCAError);
      }
      if !pki.holdsCA(ca.value) {
        return Failed(NoCAError);
      }
      var cfg := Config(cert.value, key.value, ca.value);
      current := Some(cfg);
      return Loaded(cfg);
    }

    /** The event loop up to the first stop: afterwards the current configuration is that of the
        last event whose reload succeeded, or the one from before if none did. */
    method Watch(pki: Pki, messages: seq<Message>) returns (handled: nat)
      modifies this
      ensures handled <= |messages|
      ensures Stop !in messages[..handled]
      ensures handled < |messages| ==> messages[handled] == Stop
      ensures (forall i :: 0 <= i < handled ==> !Reloads(pki, messages[i])) ==> current == old(current)
      ensures forall i: nat :: LastReload(pki, messages, handled, i) ==> current == Some(ConfigOf(pki, messages[i]))
    {
      handled := 0;
      while handled < |messages|
        decreases |messages| - handled
        invariant handled <= |messages|
        invariant Stop !in messages[..handled]
        invariant (forall i :: 0 <= i < handled ==> !Reloads(pki, messages[i])) ==> current == old(current)
        invariant forall i: nat :: LastReload(pki, messages, handled, i) ==> current == Some(ConfigOf(pki, messages[i]))
      {
        assert forall i: nat :: LastReload(pki, messages, handled + 1, i) && i < handled ==>
          LastReload(pki, messages, handled, i);
        match messages[handled] {
          case Stop =>
            return;
          case FileEvent(ops, cert, key, ca) =>
            if Relevant(ops) {
              var _ := Reload(pki, cert, key, ca);
            }
          case WatchError =>
        }
        handled := handled + 1;
      }
    }
  }

  /** A manager exists only with a configuration that passed every check. */
  method NewManager(pki: Pki, cert: Option<File>, key: Option<File>, ca: Option<File>) returns (m: Manager?)
    ensures m != null <==> Loads(pki, cert, key, ca)
    ensures m != null ==> fresh(m) && m.current == Some(Config(cert.value, key.value, ca.value))
  {
    m := new Manager();
    var r := m.Reload(pki, cert, key, ca);
    if r.Failed? {
      m := null;
    }
  }
}
