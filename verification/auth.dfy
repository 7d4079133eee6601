/**
 * The credential session of cli/src/auth.rs: which of the two stores is used, what is remembered of
 * it, and what a later session finds.
 */
module CredentialSession {
  import opened Prelude
  import opened KeyringStore

  datatype StoredCredential = StoredCredential(
    provider: nat, accessToken: string, refreshToken: Option<string>, expiresAt: Option<int>)

  // What the token file holds. A file that does not parse counts as holding nothing.
  datatype FileContent = Holds(value: Option<string>) | Garbled

  datatype Backend = InKeyring(handles: nat) | InFile

  // `fallback` says whether the file storage is still in reserve.
  datatype Session = Closed | Open(backend: Backend, fallback: bool, lastRead: Option<StoredCredential>)

  datatype State = State(ring: Ring, file: Option<FileContent>, session: Session)

  // The setting of one process: how credentials are sealed, how much of one fits an entry, and
  // whether the environment asks for file storage.
  datatype Config = Config(
    seal: StoredCredential -> string, unseal: string -> Option<StoredCredential>, step: nat, forced: bool)
  {
    ghost predicate Valid() {
      step > 0 && forall c :: unseal(seal(c)) == Some(c)
    }
  }

  // What goes wrong during one call. `torn` is what a failing write leaves of the file.
  datatype Faults = Faults(broken: set<nat>, refused: set<nat>, torn: Option<Option<FileContent>>)

  datatype Op = Current | Store(cred: StoredCredential) | Clear

  function ReadFile(config: Config, file: Option<FileContent>): Option<StoredCredential> {
    if file.Some? && file.value.Holds? && file.value.value.Some? then config.unseal(file.value.value.value) else None
  }

  function WriteFile(value: Option<string>, faults: Faults): Option<FileContent> {
    match faults.torn
    case None => Some(Holds(value))
    case Some(left) => left
  }

  // The first use of the storage decides where it is.
  function Opened(config: Config, st: State, broken: set<nat>): State {
    if st.session.Open? then st
    else
      var native := if config.forced || st.file.Some? then Broken else ReadFrom(st.ring, broken, 0);
      var handles := ReadEnd(st.ring, broken, 0) + 1;
      st.(session :=
        match native
        case Found(text) => Open(InKeyring(handles), true, config.unseal(text))
        case Missing => Open(InKeyring(handles), true, None)
        case Broken => Open(InFile, false, ReadFile(config, st.file)))
  }

  function StoreNow(config: Config, st: State, cred: StoredCredential, faults: Faults): State
    requires config.step > 0 && st.session.Open?
  {
    var sealed := config.seal(cred);
    match st.session.backend
    case InFile =>
      st.(file := WriteFile(Some(sealed), faults), session := st.session.(lastRead := Some(cred)))
    case InKeyring(handles) =>
      var out := StoreFrom(st.ring, faults.refused, sealed, config.step, 0);
      var handles' := Max(handles, StoreEnd(faults.refused, sealed, config.step, 0));
      if out.ok || !st.session.fallback then
        st.(ring := out.ring, session := Open(InKeyring(handles'), st.session.fallback, Some(cred)))
      else
        State(out.ring, WriteFile(Some(sealed), faults), Open(InFile, false, Some(cred)))
  }

  predicate ClearSucceeds(st: State, faults: Faults)
    requires st.session.Open?
  {
    match st.session.backend
    case InFile => faults.torn.None?
    case InKeyring(handles) => ClearAll(st.ring, faults.broken, faults.refused, handles).ok
  }

  // A clear that fails leaves the remembered credential.
  function ClearNow(st: State, faults: Faults): State
    requires st.session.Open?
  {
    var ok := ClearSucceeds(st, faults);
    var lastRead := if ok then None else st.session.lastRead;
    match st.session.backend
    case InFile =>
      st.(file := WriteFile(None, faults), session := st.session.(lastRead := lastRead))
    case InKeyring(handles) =>
      var handles' := if ok then 0 else Max(handles, ReadEnd(st.ring, faults.broken, 0) + 1);
      st.(ring := ClearAll(st.ring, faults.broken, faults.refused, handles).ring,
          session := st.session.(backend := InKeyring(handles'), lastRead := lastRead))
  }

  function Step(config: Config, st: State, op: Op, faults: Faults): (next: State)
    requires config.step > 0
    ensures next.session.Open?
  {
    var st' := Opened(config, st, faults.broken);
    match op
    case Current => st'
    case Store(cred) => StoreNow(config, st', cred, faults)
    case Clear => ClearNow(st', faults)
  }

  function Run(config: Config, st: State, calls: seq<(Op, Faults)>): State
    requires config.step > 0
    decreases |calls|
  {
    if calls == [] then st
    else Run(config, Step(config, st, calls[0].0, calls[0].1), calls[1..])
  }

  // Which storage a session opens: the file when the environment asks for it, when it exists, or when
  // the keyring cannot be read; else the keyring, whether or not it holds a credential.
  lemma OpenedChoice(config: Config, st: State, broken: set<nat>)
    requires st.session.Closed?
    ensures var opening := Opened(config, st, broken);
      var end := ReadEnd(st.ring, broken, 0);
      var usesFile := config.forced || st.file.Some? || end in broken;
      && opening.ring == st.ring && opening.file == st.file
      && (usesFile ==> opening.session == Open(InFile, false,
            match st.file case Some(Holds(Some(text))) => config.unseal(text) case _ => None))
      && (!usesFile && end !in st.ring ==> opening.session == Open(InKeyring(end + 1), true, None))
      && (!usesFile && end in st.ring ==>
            var read := ReadFrom(st.ring, broken, 0);
            read.Found? && opening.session == Open(InKeyring(end + 1), true, config.unseal(read.text)))
  {
    ReadStopsAtEnd(st.ring, broken, 0);
    hide ReadFrom, ReadEnd;
  }

  // ---------------------------------------------------------------------------------------------
  // Invariant of every run

  predicate Inv(config: Config, st: State) {
    st.session.Open? ==>
      && (st.session.fallback <==> st.session.backend.InKeyring?)
      && (st.session.backend.InKeyring? ==> st.file.None? && !config.forced)
  }

  lemma StepKeepsInv(config: Config, st: State, op: Op, faults: Faults)
    requires config.step > 0 && Inv(config, st)
    ensures Inv(config, Step(config, st, op, faults))
  {
    hide ReadFrom, ReadEnd, StoreFrom, StoreEnd, ClearAll;
  }

  // As long as the keyring is in use, there is no token file and the file is in reserve.
  lemma {:induction false} RunKeepsInv(config: Config, st: State, calls: seq<(Op, Faults)>)
    requires config.step > 0 && Inv(config, st)
    ensures Inv(config, Run(config, st, calls))
    decreases |calls|
  {
    if calls == [] {
    } else {
      StepKeepsInv(config, st, calls[0].0, calls[0].1);
      RunKeepsInv(config, Step(config, st, calls[0].0, calls[0].1), calls[1..]);
    }
  }

  // ---------------------------------------------------------------------------------------------
  // Within a session

  // Calls that neither store nor succeed in clearing.
  predicate Quiet(config: Config, st: State, calls: seq<(Op, Faults)>)
    requires config.step > 0 && st.session.Open?
    decreases |calls|
  {
    calls == [] ||
    (var (op, faults) := calls[0];
     && !op.Store?
     && (op.Clear? ==> !ClearSucceeds(st, faults))
     && Quiet(config, Step(config, st, op, faults), calls[1..]))
  }

  lemma {:induction false} QuietKeepsLastRead(config: Config, st: State, calls: seq<(Op, Faults)>)
    requires config.step > 0 && st.session.Open? && Quiet(config, st, calls)
    ensures Run(config, st, calls).session.Open?
    ensures Run(config, st, calls).session.lastRead == st.session.lastRead
    decreases |calls|
  {
    if calls == [] {
    } else {
      hide ReadFrom, ReadEnd, StoreFrom, StoreEnd, ClearAll;
      QuietKeepsLastRead(config, Step(config, st, calls[0].0, calls[0].1), calls[1..]);
    }
  }

  // The current credential is the last one stored, even when every store failed, until another is
  // stored or a clear succeeds; a clear that succeeds leaves none, one that fails changes nothing.
  lemma RememberedUntilReplaced(config: Config, st: State, op: Op, faults: Faults, calls: seq<(Op, Faults)>)
    requires config.step > 0 && Quiet(config, Step(config, st, op, faults), calls)
    ensures var last := Run(config, Step(config, st, op, faults), calls).session;
      var before := Opened(config, st, faults.broken);
      && last.Open?
      && last.lastRead ==
         match op
         case Store(cred) => Some(cred)
         case Clear => if ClearSucceeds(before, faults) then None else before.session.lastRead
         case Current => before.session.lastRead
  {
    QuietKeepsLastRead(config, Step(config, st, op, faults), calls);
    hide ReadFrom, ReadEnd, StoreFrom, StoreEnd, ClearAll, Run, Quiet;
  }

  // ---------------------------------------------------------------------------------------------
  // Across sessions

  // What the first read of the next session finds.
  function AfterRestart(config: Config, st: State, broken: set<nat>): Option<StoredCredential> {
    Opened(config, st.(session := Closed), broken).session.lastRead
  }

  // A credential the file accepted is found again; one the keyring accepted is, if its sealed form
  // is storable.
  lemma StoredSurvivesRestart(config: Config, st: State, cred: StoredCredential, faults: Faults)
    requires config.Valid() && Inv(config, st)
    ensures var after := Step(config, st, Store(cred), faults);
      && (after.session.backend.InFile? && faults.torn.None? ==>
            forall broken :: AfterRestart(config, after, broken) == Some(cred))
      && (after.session.backend.InKeyring? && Storable(config.seal(cred), config.step) ==>
            AfterRestart(config, after, {}) == Some(cred))
  {
    StepKeepsInv(config, st, Store(cred), faults);
    var after := Step(config, st, Store(cred), faults);
    var before := Opened(config, st, faults.broken);
    if after.session.backend.InKeyring? && Storable(config.seal(cred), config.step) {
      KeyringAccepted(config, before, cred, faults);
      StoredReadsBackIff(config.seal(cred), config.step);
      RefusalsDoNotMatter(before.ring, faults.refused, config.seal(cred), config.step, 0);
    }
    hide ReadFrom, ReadEnd, StoreFrom, StoreEnd, ClearAll, Storable;
  }

  lemma KeyringAccepted(config: Config, st: State, cred: StoredCredential, faults: Faults)
    requires config.step > 0 && st.session.Open? && Inv(config, st)
    requires StoreNow(config, st, cred, faults).session.backend.InKeyring?
    ensures var out := StoreFrom(st.ring, faults.refused, config.seal(cred), config.step, 0);
      out.ok && StoreNow(config, st, cred, faults).ring == out.ring
  {
  }

  lemma {:induction false} RefusalsDoNotMatter(ring: Ring, refused: set<nat>, rest: string, step: nat, i: nat)
    requires step > 0 && StoreFrom(ring, refused, rest, step, i).ok
    ensures StoreFrom(ring, refused, rest, step, i) == StoreFrom(ring, {}, rest, step, i)
    decreases |rest|
  {
    if rest != [] && step <= |rest| {
      RefusalsDoNotMatter(ring[i := rest[..step] + CONTINUE_MARKER], refused, rest[step..], step, i + 1);
    }
  }

  // On a machine that uses its keyring and has no faults, a stored credential survives a restart
  // whatever the keyring held, exactly when its sealed form is storable; otherwise the store
  // reports success, the session shows the credential, and the next session may find none.
  lemma SurvivesRestartIff(config: Config, cred: StoredCredential)
    requires config.Valid() && !config.forced
    ensures (forall ring: Ring ::
        var after := Step(config, State(ring, None, Closed), Store(cred), Faults({}, {}, None));
        AfterRestart(config, after, {}) == Some(cred))
      <==> Storable(config.seal(cred), config.step)
  {
    var none := Faults({}, {}, None);
    if Storable(config.seal(cred), config.step) {
      forall ring: Ring
        ensures AfterRestart(config, Step(config, State(ring, None, Closed), Store(cred), none), {}) == Some(cred)
      {
        FaultlessStaysInKeyring(config, ring, cred);
        StoredSurvivesRestart(config, State(ring, None, Closed), cred, none);
      }
    } else {
      FaultlessStaysInKeyring(config, map[], cred);
      NothingBeyondIsMissing(config.seal(cred), config.step);
      hide ReadFrom, ReadEnd, StoreFrom, StoreEnd, Storable;
      assert AfterRestart(config, Step(config, State(map[], None, Closed), Store(cred), none), {}) == None;
    }
  }

  lemma {:induction false} NothingIsBroken(ring: Ring, i: nat)
    ensures ReadFrom(ring, {}, i) != Broken
    decreases KeysFrom(ring, i)
  {
    if Continues(ring, {}, i) {
      KeysShrink(ring, i);
      NothingIsBroken(ring, i + 1);
    }
  }

  lemma FaultlessStaysInKeyring(config: Config, ring: Ring, cred: StoredCredential)
    requires config.step > 0 && !config.forced
    ensures var after := Step(config, State(ring, None, Closed), Store(cred), Faults({}, {}, None));
      && after.session.backend.InKeyring? && after.file.None?
      && after.ring == StoreFrom(ring, {}, config.seal(cred), config.step, 0).ring
  {
    NothingIsBroken(ring, 0);
    StoreSucceedsIff(ring, {}, config.seal(cred), config.step, 0);
    hide ReadFrom, ReadEnd, StoreFrom, StoreEnd;
  }

  // After a clear that succeeded, the next session finds nothing, whatever happens as it reads.
  lemma ClearedStaysCleared(config: Config, st: State, faults: Faults, broken: set<nat>)
    requires config.step > 0 && Inv(config, st)
    requires ClearSucceeds(Opened(config, st, faults.broken), faults)
    ensures AfterRestart(config, Step(config, st, Clear, faults), broken) == None
  {
    StepKeepsInv(config, st, Current, faults);
    var before := Opened(config, st, faults.broken);
    if before.session.backend.InKeyring? {
      ClearIsFinal(before.ring, faults.broken, faults.refused, before.session.backend.handles);
    }
  }

  // Clearing after a store into the keyring removes every entry the store wrote, those a read would
  // not reach included.
  lemma StoreThenClear(config: Config, st: State, cred: StoredCredential, faults: Faults, again: Faults, k: nat)
    requires config.step > 0 && Inv(config, st)
    requires Step(config, st, Store(cred), faults).session.backend.InKeyring?
    requires ClearSucceeds(Step(config, st, Store(cred), faults), again)
    requires k < Pieces(config.seal(cred), config.step)
    ensures k !in Step(config, Step(config, st, Store(cred), faults), Clear, again).ring
  {
    var before := Opened(config, st, faults.broken);
    var after := Step(config, st, Store(cred), faults);
    StepKeepsInv(config, st, Current, faults);
    KeyringAccepted(config, before, cred, faults);
    StoreSucceedsIff(before.ring, faults.refused, config.seal(cred), config.step, 0);
    ClearIsFinal(after.ring, again.broken, again.refused, after.session.backend.handles);
    hide ReadFrom, ReadEnd, StoreFrom, StoreEnd, ClearAll, Pieces;
  }

  // After a clear the session starts afresh: a storable credential stored without faults can be
  // cleared again.
  lemma ClearWorksAgain(config: Config, st: State, faults: Faults, cred: StoredCredential)
    requires config.step > 0 && Inv(config, st) && Storable(config.seal(cred), config.step)
    requires Opened(config, st, faults.broken).session.backend.InKeyring?
    requires ClearSucceeds(Opened(config, st, faults.broken), faults)
    ensures var none := Faults({}, {}, None);
      ClearSucceeds(Step(config, Step(config, st, Clear, faults), Store(cred), none), none)
  {
    var none := Faults({}, {}, None);
    var cleared := Step(config, st, Clear, faults);
    var sealed, step := config.seal(cred), config.step;
    var stored := Step(config, cleared, Store(cred), none);
    var n := Pieces(sealed, step);
    StepKeepsInv(config, st, Current, faults);
    assert cleared.session.backend == InKeyring(0);
    StoreSucceedsIff(cleared.ring, {}, sealed, step, 0);
    assert stored.ring == StoreFrom(cleared.ring, {}, sealed, step, 0).ring;
    assert stored.session.backend == InKeyring(n);
    HasPieces(sealed, step);
    forall k | 0 <= k < n ensures k in stored.ring && ReadEnd(stored.ring, {}, 0) == n - 1 {
      StoredEntries(cleared.ring, sealed, step, 0, k);
    }
    assert 0 in stored.ring;
    ClearIsFinal(stored.ring, {}, {}, n);
    hide ReadFrom, ReadEnd, StoreFrom, StoreEnd, ClearAll, Pieces, Storable;
  }

  lemma HasPieces(sealed: string, step: nat)
    requires step > 0 && Storable(sealed, step)
    ensures Pieces(sealed, step) > 0
  {
    if sealed == [] { DivUnique(0, step, 0, 0); }
  }

  // Clearing a keyring that holds nothing, as after another clear, reports an error.
  lemma SecondClearFails(config: Config, st: State, faults: Faults, again: Faults)
    requires config.step > 0 && Inv(config, st)
    requires Opened(config, st, faults.broken).session.backend.InKeyring?
    requires ClearSucceeds(Opened(config, st, faults.broken), faults)
    ensures !ClearSucceeds(Step(config, st, Clear, faults), again)
  {
    var before := Opened(config, st, faults.broken);
    var after := Step(config, st, Clear, faults);
    ClearIsFinal(before.ring, faults.broken, faults.refused, before.session.backend.handles);
    ClearIsFinal(after.ring, again.broken, again.refused, 0);
    hide ReadFrom, ReadEnd, ClearAll;
  }

  // ---------------------------------------------------------------------------------------------
  // The object

  /** `Auth` with the storage it opens on first use; the file is the one at `file_storage_path`. */
  class Auth {
    const config: Config
    const keyring: KeyringStorage
    var file: Option<FileContent>
    var isOpen: bool
    var inKeyring: bool
    var fallback: bool
    var lastRead: Option<StoredCredential>

    ghost predicate Valid()
      reads this, keyring
    {
      keyring.step == config.step > 0 && if isOpen then fallback == inKeyring else keyring.handles == 0
    }

    ghost function Value(): State
      reads this, keyring
    {
      State(keyring.ring, file,
        if !isOpen then Closed
        else Open(if inKeyring then InKeyring(keyring.handles) else InFile, fallback, lastRead))
    }

    constructor (config: Config, keyring: KeyringStorage, file: Option<FileContent>)
      requires keyring.step == config.step > 0 && keyring.handles == 0
      ensures Valid() && this.config == config && this.keyring == keyring
      ensures Value() == State(keyring.ring, file, Closed)
    {
      this.config, this.keyring, this.file := config, keyring, file;
      isOpen := false;
    }

    method WithStorage(faults: Faults)
      requires Valid()
      modifies this, keyring
      ensures Valid() && isOpen && Value() == Opened(config, old(Value()), faults.broken)
    {
      if isOpen { return; }
      var native := Broken;
      if !config.forced && file.None? {
        native := keyring.Read(faults.broken);
      }
      match native {
        case Found(text) => lastRead := config.unseal(text);
        case Missing => lastRead := None;
        case Broken => lastRead := ReadFile(config, file);
      }
      inKeyring := !native.Broken?;
      fallback := !native.Broken?;
      isOpen := true;
    }

    method SaveFile(value: Option<string>, faults: Faults) returns (ok: bool)
      modifies `file
      ensures file == (match faults.torn case None => Some(Holds(value)) case Some(left) => left)
      ensures ok == faults.torn.None?
    {
      file := WriteFile(value, faults);
      ok := faults.torn.None?;
    }

    method GetCurrentCredential(faults: Faults) returns (current: Option<StoredCredential>)
      requires Valid()
      modifies this, keyring
      ensures Valid() && isOpen && Value() == Step(config, old(Value()), Current, faults)
      ensures current == Value().session.lastRead
    {
      WithStorage(faults);
      current := lastRead;
    }

    method StoreCredentials(cred: StoredCredential, faults: Faults)
      requires Valid()
      modifies this, keyring
      ensures Valid() && Value() == Step(config, old(Value()), Store(cred), faults)
    {
      WithStorage(faults);
      var sealed := config.seal(cred);
      var ok;
      if inKeyring {
        ok := keyring.Store(sealed, faults.refused);
      } else {
        ok := SaveFile(Some(sealed), faults);
      }
      if !ok && fallback {
        fallback, inKeyring := false, false;
        var _ := SaveFile(Some(sealed), faults);
      }
      lastRead := Some(cred);
    }

    method ClearCredentials(faults: Faults) returns (ok: bool)
      requires Valid()
      modifies this, keyring
      ensures Valid() && Value() == Step(config, old(Value()), Clear, faults)
      ensures ok == ClearSucceeds(Opened(config, old(Value()), faults.broken), faults)
    {
      WithStorage(faults);
      if inKeyring {
        ok := keyring.Clear(faults.broken, faults.refused);
      } else {
        ok := SaveFile(None, faults);
      }
      if ok { lastRead := None; }
    }
  }
}
