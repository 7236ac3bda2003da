/** The profile operations as a transaction over two resources without a common commit: the
    configuration file and the OS keyring. */
module ProfileService {
  import opened Common
  import opened Ordering
  import opened Identifiers
  import opened ProfileModel
  import opened ProfileStore

  datatype Credential = Credential(source: CredentialSource, token: string)

  datatype Operation =
    | Add(reference: ProfileRef, credential: Credential, companyId: string,
          expiresAt: Option<string>, makeDefault: bool)
    | SetDefault(reference: ProfileRef)
    | Remove(reference: ProfileRef)
    | SetCredential(reference: ProfileRef, credential: Credential, companyId: string,
                    expiresAt: Option<string>)

  /** The file change an operation asks for. */
  function ChangeOf(op: Operation): Change {
    match op
    case Add(reference, credential, companyId, expiresAt, makeDefault) =>
      Addition(ProfileRecord(reference.provider, reference.profile, companyId,
        credential.source, expiresAt), makeDefault)
    case SetDefault(reference) => NewDefault(reference)
    case Remove(reference) => Removal(reference)
    case SetCredential(reference, credential, _, expiresAt) =>
      NewCredential(reference, credential.source, expiresAt)
  }

  /** The token an operation stages in the keyring, if it stages one. */
  function Staged(op: Operation): Option<string> {
    if (op.Add? || op.SetCredential?) && op.credential.source == Keyring
    then Some(op.credential.token) else None
  }

  /** A replacement credential must belong to the profile's own company. */
  predicate SameCompany(config: ConfigData, op: Operation) {
    op.SetCredential? ==>
      var record := Lookup(config, op.reference);
      record.Some? ==> record.value.companyId == op.companyId
  }

  /** The configuration an operation commits: load, change, validate again. None when it must not
      commit anything. */
  function Updated(config: ConfigData, op: Operation): Option<ConfigData> {
    match Normalize(config)
    case Err(_) => None
    case Ok(loaded) =>
      match Changed(loaded, ChangeOf(op))
      case None => None
      case Some(changed) =>
        if !SameCompany(loaded, op) || Normalize(changed).Err? then None
        else Some(Normalize(changed).value)
  }

  ghost predicate KeyringBacked(config: ConfigData, r: ProfileRef) {
    exists i :: 0 <= i < |config.profiles|
      && Reference(config.profiles[i]) == r && config.profiles[i].source == Keyring
  }

  function Entry(keyring: map<ProfileRef, string>, r: ProfileRef): Option<string> {
    if r in keyring then Some(keyring[r]) else None
  }

  /** Every configured profile that relies on the keyring has an entry in it. */
  ghost predicate Consistent(d: Durable) {
    forall r :: KeyringBacked(LogicalOf(d), r) ==> r in d.keyring
  }

  // ---------------------------------------------------------------- the contract of an operation

  /** No entry but the operation's own is touched. */
  ghost predicate OthersUntouched(op: Operation, before: Durable, d: Durable) {
    forall r :: r != op.reference ==> Entry(d.keyring, r) == Entry(before.keyring, r)
  }

  /** The operation finds what it needs in the configuration: an unused reference to add, a profile
      to change, the same company. */
  predicate Applicable(config: ConfigData, op: Operation) {
    match Normalize(config)
    case Err(_) => false
    case Ok(loaded) => Changed(loaded, ChangeOf(op)).Some? && SameCompany(loaded, op)
  }

  /** An operation may touch the keyring before its commit only if it is applicable. */
  predicate MayStage(op: Operation, before: Durable) {
    Staged(op).Some? && Applicable(LogicalOf(before), op)
  }

  /** A state before the commit: the old configuration, with the target's entry as before, staged,
      or, if the configuration does not rely on it, gone. */
  ghost predicate Pending(op: Operation, before: Durable, d: Durable) {
    var entry := Entry(d.keyring, op.reference);
    && LogicalOf(d) == LogicalOf(before)
    && (|| entry == Entry(before.keyring, op.reference)
        || (MayStage(op, before) && entry == Staged(op))
        || (MayStage(op, before) && entry == None && !KeyringBacked(LogicalOf(before), op.reference)))
  }

  /** A state from the commit on: the new configuration, with the entry staged if one was, and
      otherwise as before or, if the new configuration does not rely on it, gone. */
  ghost predicate Committed(op: Operation, before: Durable, d: Durable) {
    var entry := Entry(d.keyring, op.reference);
    && Updated(LogicalOf(before), op) == Some(LogicalOf(d))
    && (if Staged(op).Some? then entry == Staged(op)
        else entry == Entry(before.keyring, op.reference)
             || (entry == None && (op.Remove? || op.SetCredential?)))
  }

  /** Every state a crash can leave: all files of one side of the commit, and the keyring ahead of
      the files but never behind them. */
  ghost predicate CrashSafe(op: Operation, before: Durable, d: Durable) {
    OthersUntouched(op, before, d) && (Pending(op, before, d) || Committed(op, before, d))
  }

  datatype Done = Done(record: ProfileRecord, cleanupFailed: bool)

  /** The record an operation reports: the removed one, or the one it leaves. */
  function Reported(config: ConfigData, op: Operation): Option<ProfileRecord> {
    match Normalize(config)
    case Err(_) => None
    case Ok(loaded) =>
      if op.Remove? then Lookup(loaded, op.reference)
      else RecordAfter(loaded, ChangeOf(op), op.reference)
  }

  /** The state in which an operation that returns leaves things. */
  ghost predicate Settled(
    op: Operation, before: Durable, after: Durable, outcome: Result<Done, Failure>)
  {
    var wasBacked := KeyringBacked(LogicalOf(before), op.reference);
    match outcome
    case Ok(done) =>
      && Updated(LogicalOf(before), op) == Some(LogicalOf(after))
      && Reported(LogicalOf(before), op) == Some(done.record)
      && after.keyring ==
           (if Staged(op).Some? then before.keyring[op.reference := Staged(op).value]
            else if wasBacked && !op.SetDefault? && !done.cleanupFailed
            then before.keyring - {op.reference}
            else before.keyring)
      && (done.cleanupFailed ==> wasBacked && Staged(op).None? && !op.SetDefault?)
    case Err(failure) =>
      && LogicalOf(after) == LogicalOf(before)
      && if failure == RollbackFailed
         then MayStage(op, before)
              && after.keyring == before.keyring[op.reference := Staged(op).value]
         else after.keyring == before.keyring
              || (MayStage(op, before) && !wasBacked
                  && after.keyring == before.keyring - {op.reference})
  }

  ghost predicate SafeSince(op: Operation, history: seq<Durable>, start: nat) {
    start < |history|
    && forall k {:trigger CrashSafe(op, history[start], history[k])} ::
         start <= k < |history| ==> CrashSafe(op, history[start], history[k])
  }

  /** Both show the tokens a configuration relies on alike. */
  ghost predicate SameReliedTokens(config: ConfigData, a: Durable, b: Durable) {
    forall r :: KeyringBacked(config, r) ==> Entry(a.keyring, r) == Entry(b.keyring, r)
  }

  /** The old configuration, with a token it relies on already a different one. */
  ghost predicate Torn(before: Durable, d: Durable) {
    LogicalOf(d) == LogicalOf(before) && !SameReliedTokens(LogicalOf(before), before, d)
  }

  ghost predicate TornSince(history: seq<Durable>, start: nat) {
    start < |history| && exists k :: start <= k < |history| && Torn(history[start], history[k])
  }

  /** The operation replaces a keyring token that a profile relies on by a different one. */
  ghost predicate Rotates(op: Operation, before: Durable) {
    && op.SetCredential? && Staged(op).Some? && KeyringBacked(LogicalOf(before), op.reference)
    && Entry(before.keyring, op.reference) != Staged(op)
  }

  /** What an operation promises about the states from index `start` on, first to last. The last
      clause is no promise but a fact: there is no way around a torn state in a rotation. */
  ghost predicate Contract(
    op: Operation, history: seq<Durable>, start: nat, outcome: Result<Done, Failure>)
  {
    && SafeSince(op, history, start)
    && Settled(op, history[start], history[|history| - 1], outcome)
    && (outcome.Ok? && Rotates(op, history[start]) ==> TornSince(history, start))
  }

  // ---------------------------------------------------------------- the operations

  datatype Faults = Faults(
    begin: BeginFaults, keyringGetFails: bool, keyringSetFails: bool, write: WriteFaults,
    rollbackFails: bool, cleanupFails: bool)

  /** Nothing goes wrong, except perhaps the sync of the directory after the commit. */
  predicate Smooth(faults: Faults) {
    && faults.begin == NO_BEGIN_FAULTS && !faults.keyringGetFails && !faults.keyringSetFails
    && faults.write.(parentSyncFails := false) == NO_WRITE_FAULTS
    && !faults.rollbackFails && !faults.cleanupFails
  }

  /** Why an operation is refused on its merits; None if there is nothing against it. */
  function Refusal(config: ConfigData, op: Operation): Option<Failure> {
    match Normalize(config)
    case Err(reason) => Some(InvalidConfig(reason))
    case Ok(loaded) =>
      match Changed(loaded, ChangeOf(op))
      case None => Some(if op.Add? then AlreadyConfigured else NotFound)
      case Some(changed) =>
        if !SameCompany(loaded, op) then Some(CompanyMismatch)
        else
          match Normalize(changed)
          case Err(reason) => Some(RejectedUpdate(reason))
          case Ok(_) => None
  }

  /** When nothing goes wrong the outcome is decided on the merits. Whatever goes wrong, a success is
      one on the merits, and a failure, of the operation or its cleanup, names what is to blame. */
  predicate Justified(
    op: Operation, before: Durable, faults: Faults, outcome: Result<Done, Failure>)
  {
    var refusal := Refusal(LogicalOf(before), op);
    && (Smooth(faults) ==>
          match refusal
          case Some(failure) => outcome == Err(failure)
          case None => outcome.Ok? && !outcome.value.cleanupFailed)
    && (match outcome
        case Ok(done) => refusal.None? && (done.cleanupFailed ==> faults.cleanupFails)
        case Err(failure) => IsToBlame(refusal, faults, failure))
  }

  /** What the failure names did happen: a fault of the file or the keyring, or the refusal there is
      on the merits. */
  predicate IsToBlame(refusal: Option<Failure>, faults: Faults, failure: Failure) {
    match failure
    case StoreUnavailable =>
      || faults.begin.openFails || faults.begin.recovery.inspectFails
      || faults.begin.recovery.restoreFails || faults.begin.readFails
    case KeyringUnavailable => faults.keyringGetFails || faults.keyringSetFails
    case WriteFailed =>
      || faults.write.tooLarge || faults.write.createFails || faults.write.writeFails
      || faults.write.replace.first != Renamed
    case RollbackFailed => faults.rollbackFails
    case _ => refusal == Some(failure)
  }

  /** A profile relies on the keyring exactly if the record found for it says so. */
  lemma BackedIsLookup(config: ConfigData, r: ProfileRef)
    requires Normalize(config).Ok?
    ensures var record := Lookup(Normalize(config).value, r);
      KeyringBacked(config, r) <==> record.Some? && record.value.source == Keyring
  {
    var loaded := Normalize(config).value;
    assert Sound(loaded) by {
      NormalizeDecidesSoundness(config);
    }
    SameRecords(config);
    if KeyringBacked(config, r) {
      var i :| 0 <= i < |config.profiles|
        && Reference(config.profiles[i]) == r && config.profiles[i].source == Keyring;
      LookupFindsMember(loaded, config.profiles[i]);
    }
    var record := Lookup(loaded, r);
    if record.Some? && record.value.source == Keyring {
      assert record.value in config.profiles;
    }
  }

  lemma SameRecords(config: ConfigData)
    requires Normalize(config).Ok?
    ensures forall record ::
      record in config.profiles <==> record in Normalize(config).value.profiles
  {
    NormalizeDecidesSoundness(config);
    SameMultiset(config.profiles, Normalize(config).value.profiles);
  }

  lemma LookupFindsMember(config: ConfigData, record: ProfileRecord)
    requires Sound(config) && record in config.profiles
    ensures Lookup(config, Reference(record)) == Some(record)
  {
    var j :| 0 <= j < |config.profiles| && config.profiles[j] == record;
    var k := Position(config.profiles, Reference(record)).value;
    var references := Map(config.profiles, Reference);
    assert references[j] == references[k];
  }

  /** The keyring once an operation has staged its token, if it stages one. */
  function StagedKeyring(op: Operation, keyring: map<ProfileRef, string>): map<ProfileRef, string> {
    if Staged(op).Some? then keyring[op.reference := Staged(op).value] else keyring
  }

  /** Both sides of the commit are safe under the staged keyring. */
  lemma StagedIsSafe(op: Operation, before: Durable, d: Durable)
    requires Updated(LogicalOf(before), op).Some? && d.keyring == StagedKeyring(op, before.keyring)
    requires LogicalOf(d) == LogicalOf(before)
      || Some(LogicalOf(d)) == Updated(LogicalOf(before), op)
    ensures CrashSafe(op, before, d)
  {
    if LogicalOf(d) == LogicalOf(before) {
      assert Pending(op, before, d);
    } else {
      assert Committed(op, before, d);
    }
  }

  /** The write phase is safe if it runs under the staged keyring. */
  lemma WriteIsSafe(
    op: Operation, history: seq<Durable>, start: nat, from: nat, after: ConfigData, committed: bool)
    requires start < from <= |history| && SafeSince(op, history[..from], start)
    requires SingleCommit(history, from, LogicalOf(history[start]), after, committed)
    requires SameKeyring(history, from, StagedKeyring(op, history[start].keyring))
    requires Updated(LogicalOf(history[start]), op) == Some(after)
    ensures SafeSince(op, history, start)
  {
    var before := history[start];
    var c: nat :| CommitAt(history, from, c, LogicalOf(before), after)
      && (committed <==> c < |history|);
    forall k | start <= k < |history| ensures CrashSafe(op, before, history[k]) {
      if k < from {
        assert history[k] == history[..from][k];
        assert CrashSafe(op, history[..from][start], history[..from][k]);
      } else {
        StagedIsSafe(op, before, history[k]);
      }
    }
  }

  /** One more state after a safe history. */
  lemma StateIsSafe(op: Operation, older: seq<Durable>, history: seq<Durable>, start: nat)
    requires SafeSince(op, older, start)
    requires history != [] && history == older + [history[|history| - 1]]
    requires CrashSafe(op, older[start], history[|history| - 1])
    ensures SafeSince(op, history, start)
  {
  }

  /** An operation is refused if it does not apply to what was loaded. */
  lemma RefusedFrom(config: ConfigData, op: Operation, loaded: ConfigData)
    requires Normalize(config) == Ok(loaded)
    ensures Changed(loaded, ChangeOf(op)).None? ==>
      Refusal(config, op) == Some(if op.Add? then AlreadyConfigured else NotFound)
    ensures Changed(loaded, ChangeOf(op)).Some? && !SameCompany(loaded, op) ==>
      Refusal(config, op) == Some(CompanyMismatch)
  {
  }

  /** What the normal form of `changed` has to do with the operation: it is what the operation
      commits, and if there is none, that is the reason it is refused. */
  ghost predicate Commits(config: ConfigData, op: Operation, changed: ConfigData) {
    match Normalize(changed)
    case Ok(normal) => Updated(config, op) == Some(normal) && Refusal(config, op).None?
    case Err(reason) =>
      Updated(config, op).None? && Refusal(config, op) == Some(RejectedUpdate(reason))
  }

  /** The change to the loaded configuration is the operation's, and so is the record. */
  ghost predicate Concludable(
    config: ConfigData, op: Operation, changed: ConfigData, record: ProfileRecord)
  {
    Commits(config, op, changed) && Applicable(config, op) && Reported(config, op) == Some(record)
  }

  /** How the configuration an operation commits comes about from the loaded one. */
  lemma ConcludableFrom(
    config: ConfigData, op: Operation, loaded: ConfigData, changed: ConfigData,
    record: ProfileRecord)
    requires Normalize(config) == Ok(loaded) && SameCompany(loaded, op)
    requires Changed(loaded, ChangeOf(op)) == Some(changed)
    requires Some(record) == if op.Remove? then Lookup(loaded, op.reference)
                             else RecordAfter(loaded, ChangeOf(op), op.reference)
    ensures Concludable(config, op, changed, record)
  {
  }

  /** An update is not finished because it is rejected, or because of a fault in writing it. */
  lemma FinishBlames(
    config: ConfigData, op: Operation, changed: ConfigData, faults: Faults, failure: Option<Failure>)
    requires Commits(config, op, changed)
    requires match Normalize(changed)
      case Err(reason) => failure == Some(RejectedUpdate(reason))
      case Ok(_) => failure.Some? ==>
        && failure.value == WriteFailed
        && (faults.write.tooLarge || faults.write.createFails || faults.write.writeFails
            || faults.write.replace.first != Renamed)
    ensures failure.Some? ==>
      failure.value != RollbackFailed && IsToBlame(Refusal(config, op), faults, failure.value)
  {
  }

  /** A conclusion that reports what became of the update gives a justified outcome. */
  lemma ConclusionIsJustified(
    op: Operation, before: Durable, faults: Faults, changed: ConfigData, record: ProfileRecord,
    failure: Option<Failure>, outcome: Result<Done, Failure>)
    requires Concludable(LogicalOf(before), op, changed, record)
    requires Smooth(faults) ==>
      match Normalize(changed)
      case Err(reason) => failure == Some(RejectedUpdate(reason))
      case Ok(_) => failure.None?
    requires failure.Some? ==>
      && outcome.Err? && IsToBlame(Refusal(LogicalOf(before), op), faults, outcome.error)
      && (Smooth(faults) ==> outcome == Err(failure.value))
    requires failure.None? ==>
      && outcome.Ok? && Updated(LogicalOf(before), op).Some?
      && (outcome.value.cleanupFailed ==> faults.cleanupFails)
    ensures Justified(op, before, faults, outcome)
  {
  }

  /** With the new token staged under the old configuration, a rotation is torn. */
  lemma StagedIsTorn(op: Operation, history: seq<Durable>, start: nat)
    requires start < |history|
    requires var before, now := history[start], history[|history| - 1];
      LogicalOf(now) == LogicalOf(before) && now.keyring == StagedKeyring(op, before.keyring)
    ensures Rotates(op, history[start]) ==> TornSince(history, start)
  {
    if Rotates(op, history[start]) {
      assert Entry(history[|history| - 1].keyring, op.reference) == Staged(op);
      assert Torn(history[start], history[|history| - 1]);
    }
  }

  /** `previous` is what a failed operation has to put back: the entry there was, or nothing if the
      old configuration does not rely on it. */
  ghost predicate CanRestore(op: Operation, before: Durable, previous: Option<string>) {
    previous == Entry(before.keyring, op.reference)
    || (previous == None && !KeyringBacked(LogicalOf(before), op.reference))
  }

  /** The operation takes the profile that relied on the keyring away from it. */
  ghost predicate IsObsolete(op: Operation, before: Durable, obsolete: bool) {
    && (obsolete <==> KeyringBacked(LogicalOf(before), op.reference)
                      && Staged(op).None? && !op.SetDefault?)
    && (obsolete ==> op.Remove? || op.SetCredential?)
  }

  /** Storing a token and then the previous one, or none, leaves no trace of it. */
  lemma PutBack(keyring: map<ProfileRef, string>, r: ProfileRef, token: string)
    ensures r in keyring ==> keyring[r := token][r := keyring[r]] == keyring
    ensures keyring[r := token] - {r} == keyring - {r}
    ensures r !in keyring ==> keyring - {r} == keyring
  {
  }

  /** An operation that failed and left everything as it was, or with its rollback failed. */
  lemma FailureSettles(op: Operation, history: seq<Durable>, start: nat, failure: Failure)
    requires SafeSince(op, history, start)
    requires var before, after := history[start], history[|history| - 1];
      && LogicalOf(after) == LogicalOf(before)
      && if failure == RollbackFailed
         then MayStage(op, before) && after.keyring == StagedKeyring(op, before.keyring)
         else after.keyring == before.keyring
              || (MayStage(op, before) && !KeyringBacked(LogicalOf(before), op.reference)
                  && after.keyring == before.keyring - {op.reference})
    ensures Contract(op, history, start, Err(failure))
  {
  }

  /** A keyring that is not available before anything has changed is reason enough to fail. */
  lemma KeyringFailureSettles(
    op: Operation, history: seq<Durable>, start: nat, faults: Faults)
    requires SafeSince(op, history, start) && (faults.keyringGetFails || faults.keyringSetFails)
    requires LogicalOf(history[|history| - 1]) == LogicalOf(history[start])
    requires history[|history| - 1].keyring == history[start].keyring
    ensures Contract(op, history, start, Err(KeyringUnavailable))
    ensures Justified(op, history[start], faults, Err(KeyringUnavailable))
  {
    FailureSettles(op, history, start, KeyringUnavailable);
  }

  /** What a replaced credential leaves to restore, and to clean up. */
  lemma ReplacementPrepared(op: Operation, before: Durable, wasKeyring: bool)
    requires op.SetCredential? && wasKeyring == KeyringBacked(LogicalOf(before), op.reference)
    ensures Staged(op).Some? ==>
      CanRestore(op, before, if wasKeyring then Entry(before.keyring, op.reference) else None)
    ensures IsObsolete(op, before, wasKeyring && op.credential.source != Keyring)
  {
  }

  lemma TornStays(older: seq<Durable>, newer: seq<Durable>, start: nat)
    requires Extends(older, newer)
    ensures TornSince(older, start) ==> TornSince(newer, start)
  {
    if TornSince(older, start) {
      var k :| start <= k < |older| && Torn(older[start], older[k]);
      assert Torn(newer[start], newer[k]);
    }
  }

  /** An operation that committed. */
  lemma SuccessSettles(
    op: Operation, history: seq<Durable>, start: nat, done: Done, obsolete: bool)
    requires SafeSince(op, history, start)
    requires Updated(LogicalOf(history[start]), op) == Some(LogicalOf(history[|history| - 1]))
    requires Reported(LogicalOf(history[start]), op) == Some(done.record)
    requires IsObsolete(op, history[start], obsolete)
    requires done.cleanupFailed ==> obsolete
    requires history[|history| - 1].keyring ==
      (if obsolete && !done.cleanupFailed then history[start].keyring - {op.reference}
       else StagedKeyring(op, history[start].keyring))
    requires Rotates(op, history[start]) ==> TornSince(history, start)
    ensures Contract(op, history, start, Ok(done))
  {
  }

  class ProfileService {
    const store: ProfileStore

    constructor (store: ProfileStore)
      ensures this.store == store
    {
      this.store := store;
    }

    /** Begin an update. Nothing that happens here shows. */
    method Begin(ghost op: Operation, faults: Faults) returns (r: Result<ProfileConfig, Failure>)
      requires store.machine.Valid()
      modifies store.machine
      ensures store.machine.Valid() && Extends(old(store.machine.history), store.machine.history)
      ensures SafeSince(op, store.machine.history, |old(store.machine.history)| - 1)
      ensures store.machine.keyring == old(store.machine.keyring)
      ensures LogicalOf(store.machine.Now()) == LogicalOf(old(store.machine.Now()))
      ensures r.Ok? ==>
        fresh(r.value) && Normalize(LogicalOf(store.machine.Now())) == Ok(r.value.Data())
      ensures r.Err? ==>
        && r.error != RollbackFailed
        && IsToBlame(Refusal(LogicalOf(old(store.machine.Now())), op), faults, r.error)
      ensures Smooth(faults) && r.Err? ==>
        Refusal(LogicalOf(old(store.machine.Now())), op) == Some(r.error)
    {
      ghost var start := |store.machine.history| - 1;
      ghost var before := store.machine.Now();
      r := store.BeginUpdate(faults.begin);
      forall k | start <= k < |store.machine.history|
        ensures CrashSafe(op, before, store.machine.history[k])
      {
        assert store.machine.history[start] == before;
        assert Pending(op, before, store.machine.history[k]);
      }
    }

    /** Write the new token into the keyring, ahead of the configuration. */
    method Stage(op: Operation, ghost start: nat, fails: bool) returns (ok: bool)
      requires store.machine.Valid() && SafeSince(op, store.machine.history, start)
      requires MayStage(op, store.machine.history[start])
      requires LogicalOf(store.machine.Now()) == LogicalOf(store.machine.history[start])
      requires store.machine.keyring == store.machine.history[start].keyring
      modifies store.machine
      ensures store.machine.Valid() && Extends(old(store.machine.history), store.machine.history)
      ensures SafeSince(op, store.machine.history, start)
      ensures LogicalOf(store.machine.Now()) == LogicalOf(old(store.machine.Now()))
      ensures ok == !fails
      ensures store.machine.keyring ==
        if ok then StagedKeyring(op, old(store.machine.keyring)) else old(store.machine.keyring)
    {
      ghost var older := store.machine.history;
      ok := store.machine.KeyringSet(op.reference, op.credential.token, fails);
      if ok {
        assert Pending(op, older[start], store.machine.Now());
        StateIsSafe(op, older, store.machine.history, start);
      }
    }

    /** Finish an update under the staged keyring. */
    method Finish(ghost op: Operation, ghost start: nat, config: ProfileConfig, faults: Faults)
      returns (failure: Option<Failure>)
      requires store.machine.Valid() && SafeSince(op, store.machine.history, start)
      requires LogicalOf(store.machine.Now()) == LogicalOf(store.machine.history[start])
      requires store.machine.keyring == StagedKeyring(op, store.machine.history[start].keyring)
      requires Commits(LogicalOf(store.machine.history[start]), op, config.Data())
      modifies store.machine, config
      ensures store.machine.Valid() && Extends(old(store.machine.history), store.machine.history)
      ensures SafeSince(op, store.machine.history, start)
      ensures store.machine.keyring == old(store.machine.keyring)
      ensures failure.None? ==>
        Updated(LogicalOf(store.machine.history[start]), op)
          == Some(LogicalOf(store.machine.Now()))
      ensures failure.Some? ==>
        && failure.value != RollbackFailed
        && IsToBlame(Refusal(LogicalOf(store.machine.history[start]), op), faults, failure.value)
        && LogicalOf(store.machine.Now()) == LogicalOf(store.machine.history[start])
      ensures Smooth(faults) ==>
        match Normalize(old(config.Data()))
        case Err(reason) => failure == Some(RejectedUpdate(reason))
        case Ok(_) => failure.None?
    {
      ghost var older, changed := store.machine.history, config.Data();
      ghost var normal := Normalize(changed);
      failure := store.FinishUpdate(config, faults.write);
      assert store.machine.history[..|older|] == older;
      FinishBlames(LogicalOf(older[start]), op, changed, faults, failure);
      if normal.Ok? {
        WriteIsSafe(op, store.machine.history, start, |older|, normal.value, failure.None?);
      }
    }

    /** Put the keyring back after a failed update: to `previous`, or to no entry. */
    method RollBack(
      ghost op: Operation, ghost start: nat, previous: Option<string>, reference: ProfileRef,
      fails: bool)
      returns (ok: bool)
      requires store.machine.Valid() && SafeSince(op, store.machine.history, start)
      requires reference == op.reference && MayStage(op, store.machine.history[start])
      requires LogicalOf(store.machine.Now()) == LogicalOf(store.machine.history[start])
      requires store.machine.keyring == StagedKeyring(op, store.machine.history[start].keyring)
      requires CanRestore(op, store.machine.history[start], previous)
      modifies store.machine
      ensures store.machine.Valid() && Extends(old(store.machine.history), store.machine.history)
      ensures SafeSince(op, store.machine.history, start)
      ensures LogicalOf(store.machine.Now()) == LogicalOf(store.machine.history[start])
      ensures ok == !fails
      ensures ok ==>
        var before := store.machine.history[start];
        store.machine.keyring == before.keyring
        || (!KeyringBacked(LogicalOf(before), reference)
            && store.machine.keyring == before.keyring - {reference})
      ensures !ok ==> store.machine.keyring == old(store.machine.keyring)
    {
      ghost var older := store.machine.history;
      ghost var before := older[start];
      PutBack(before.keyring, reference, Staged(op).value);
      if previous.Some? {
        ok := store.machine.KeyringSet(reference, previous.value, fails);
      } else {
        ok := store.machine.KeyringDelete(reference, fails);
      }
      if ok {
        assert Pending(op, before, store.machine.Now());
        StateIsSafe(op, older, store.machine.history, start);
      }
    }

    /** Remove the entry a committed configuration no longer needs. */
    method CleanUp(ghost op: Operation, ghost start: nat, reference: ProfileRef, fails: bool)
      returns (failed: bool)
      requires store.machine.Valid() && SafeSince(op, store.machine.history, start)
      requires reference == op.reference && Staged(op).None? && (op.Remove? || op.SetCredential?)
      requires Updated(LogicalOf(store.machine.history[start]), op)
        == Some(LogicalOf(store.machine.Now()))
      requires store.machine.keyring == store.machine.history[start].keyring
      modifies store.machine
      ensures store.machine.Valid() && Extends(old(store.machine.history), store.machine.history)
      ensures SafeSince(op, store.machine.history, start)
      ensures LogicalOf(store.machine.Now()) == LogicalOf(old(store.machine.Now()))
      ensures failed == fails
      ensures store.machine.keyring ==
        if failed then old(store.machine.keyring) else old(store.machine.keyring) - {reference}
    {
      ghost var older := store.machine.history;
      var ok := store.machine.KeyringDelete(reference, fails);
      if ok {
        assert Committed(op, older[start], store.machine.Now());
        StateIsSafe(op, older, store.machine.history, start);
      }
      failed := !ok;
    }

    /** After a failed update: put the keyring back if a token was staged. */
    method GiveUp(
      op: Operation, ghost start: nat, previous: Option<string>, failure: Failure, faults: Faults)
      returns (outcome: Result<Done, Failure>)
      requires store.machine.Valid() && SafeSince(op, store.machine.history, start)
      requires LogicalOf(store.machine.Now()) == LogicalOf(store.machine.history[start])
      requires store.machine.keyring == StagedKeyring(op, store.machine.history[start].keyring)
      requires Staged(op).Some? ==> MayStage(op, store.machine.history[start])
      requires Staged(op).Some? ==> CanRestore(op, store.machine.history[start], previous)
      requires failure != RollbackFailed
      requires IsToBlame(Refusal(LogicalOf(store.machine.history[start]), op), faults, failure)
      modifies store.machine
      ensures store.machine.Valid() && Extends(old(store.machine.history), store.machine.history)
      ensures Contract(op, store.machine.history, start, outcome)
      ensures outcome.Err?
        && IsToBlame(Refusal(LogicalOf(store.machine.history[start]), op), faults, outcome.error)
      ensures Smooth(faults) ==> outcome == Err(failure)
    {
      if Staged(op).Some? {
        var ok := RollBack(op, start, previous, op.reference, faults.rollbackFails);
        if !ok {
          FailureSettles(op, store.machine.history, start, RollbackFailed);
          return Err(RollbackFailed);
        }
      }
      FailureSettles(op, store.machine.history, start, failure);
      return Err(failure);
    }

    /** After a successful update: clean up an entry that has become obsolete. */
    method Complete(
      op: Operation, ghost start: nat, record: ProfileRecord, obsolete: bool, faults: Faults)
      returns (outcome: Result<Done, Failure>)
      requires store.machine.Valid() && SafeSince(op, store.machine.history, start)
      requires Updated(LogicalOf(store.machine.history[start]), op)
        == Some(LogicalOf(store.machine.Now()))
      requires store.machine.keyring == StagedKeyring(op, store.machine.history[start].keyring)
      requires Reported(LogicalOf(store.machine.history[start]), op) == Some(record)
      requires IsObsolete(op, store.machine.history[start], obsolete)
      requires Rotates(op, store.machine.history[start]) ==> TornSince(store.machine.history, start)
      modifies store.machine
      ensures store.machine.Valid() && Extends(old(store.machine.history), store.machine.history)
      ensures Contract(op, store.machine.history, start, outcome)
      ensures outcome.Ok? && (outcome.value.cleanupFailed ==> faults.cleanupFails)
    {
      if !obsolete {
        SuccessSettles(op, store.machine.history, start, Done(record, false), false);
        return Ok(Done(record, false));
      }
      ghost var older := store.machine.history;
      var cleanupFailed := CleanUp(op, start, op.reference, faults.cleanupFails);
      TornStays(older, store.machine.history, start);
      SuccessSettles(op, store.machine.history, start, Done(record, cleanupFailed), true);
      return Ok(Done(record, cleanupFailed));
    }

    /** Finish an update under the staged keyring. A rotation is torn by now. */
    method FinishStaged(
      ghost op: Operation, ghost start: nat, config: ProfileConfig, faults: Faults)
      returns (failure: Option<Failure>)
      requires store.machine.Valid() && SafeSince(op, store.machine.history, start)
      requires LogicalOf(store.machine.Now()) == LogicalOf(store.machine.history[start])
      requires store.machine.keyring == StagedKeyring(op, store.machine.history[start].keyring)
      requires Commits(LogicalOf(store.machine.history[start]), op, config.Data())
      modifies store.machine, config
      ensures store.machine.Valid() && Extends(old(store.machine.history), store.machine.history)
      ensures SafeSince(op, store.machine.history, start)
      ensures store.machine.keyring == old(store.machine.keyring)
      ensures failure.None? ==>
        Updated(LogicalOf(store.machine.history[start]), op)
          == Some(LogicalOf(store.machine.Now()))
      ensures failure.Some? ==>
        && failure.value != RollbackFailed
        && IsToBlame(Refusal(LogicalOf(store.machine.history[start]), op), faults, failure.value)
        && LogicalOf(store.machine.Now()) == LogicalOf(store.machine.history[start])
      ensures Smooth(faults) ==>
        match Normalize(old(config.Data()))
        case Err(reason) => failure == Some(RejectedUpdate(reason))
        case Ok(_) => failure.None?
      ensures Rotates(op, store.machine.history[start]) ==> TornSince(store.machine.history, start)
    {
      ghost var older := store.machine.history;
      StagedIsTorn(op, older, start);
      failure := Finish(op, start, config, faults);
      TornStays(older, store.machine.history, start);
    }

    /** What follows an operation's change to the loaded configuration: write it, put the keyring
        back if that fails, and otherwise clean up. */
    method Conclude(
      op: Operation, ghost start: nat, config: ProfileConfig, record: ProfileRecord,
      previous: Option<string>, obsolete: bool, faults: Faults)
      returns (outcome: Result<Done, Failure>)
      requires store.machine.Valid() && SafeSince(op, store.machine.history, start)
      requires LogicalOf(store.machine.Now()) == LogicalOf(store.machine.history[start])
      requires store.machine.keyring == StagedKeyring(op, store.machine.history[start].keyring)
      requires Concludable(LogicalOf(store.machine.history[start]), op, config.Data(), record)
      requires Staged(op).Some? ==> CanRestore(op, store.machine.history[start], previous)
      requires IsObsolete(op, store.machine.history[start], obsolete)
      modifies store.machine, config
      ensures store.machine.Valid() && Extends(old(store.machine.history), store.machine.history)
      ensures Contract(op, store.machine.history, start, outcome)
      ensures Justified(op, store.machine.history[start], faults, outcome)
    {
      ghost var before, changed := store.machine.history[start], config.Data();
      var failure := FinishStaged(op, start, config, faults);
      if failure.Some? {
        outcome := GiveUp(op, start, previous, failure.value, faults);
      } else {
        outcome := Complete(op, start, record, obsolete, faults);
      }
      ConclusionIsJustified(op, before, faults, changed, record, failure, outcome);
    }

    /** `add`. */
    method Add(op: Operation, faults: Faults) returns (outcome: Result<Done, Failure>)
      requires op.Add? && store.machine.Valid()
      modifies store.machine
      ensures store.machine.Valid() && Extends(old(store.machine.history), store.machine.history)
      ensures Contract(op, store.machine.history, |old(store.machine.history)| - 1, outcome)
      ensures Justified(op, old(store.machine.Now()), faults, outcome)
    {
      ghost var start := |store.machine.history| - 1;
      ghost var before := store.machine.Now();
      var begun := Begin(op, faults);
      if begun.Err? {
        return Err(begun.error);
      }
      var config := begun.value;
      ghost var loaded := config.Data();
      BackedIsLookup(LogicalOf(before), op.reference);
      if Position(config.profiles, op.reference).Some? {
        return Err(AlreadyConfigured);
      }
      if op.credential.source == Keyring {
        var ok := Stage(op, start, faults.keyringSetFails);
        if !ok {
          return Err(KeyringUnavailable);
        }
      }
      var record := ProfileRecord(op.reference.provider, op.reference.profile, op.companyId,
        op.credential.source, op.expiresAt);
      config.profiles := config.profiles + [record];
      if op.makeDefault {
        config.defaultProfile := Some(op.reference);
      }
      ConcludableFrom(LogicalOf(before), op, loaded, config.Data(), record);
      outcome := Conclude(op, start, config, record, None, false, faults);
    }

    /** `set_default`. */
    method SetDefault(op: Operation, faults: Faults) returns (outcome: Result<Done, Failure>)
      requires op.SetDefault? && store.machine.Valid()
      modifies store.machine
      ensures store.machine.Valid() && Extends(old(store.machine.history), store.machine.history)
      ensures Contract(op, store.machine.history, |old(store.machine.history)| - 1, outcome)
      ensures Justified(op, old(store.machine.Now()), faults, outcome)
    {
      ghost var start := |store.machine.history| - 1;
      ghost var before := store.machine.Now();
      var begun := Begin(op, faults);
      if begun.Err? {
        return Err(begun.error);
      }
      var config := begun.value;
      ghost var loaded := config.Data();
      var position := Position(config.profiles, op.reference);
      if position.None? {
        return Err(NotFound);
      }
      var record := config.profiles[position.value];
      config.defaultProfile := Some(op.reference);
      ConcludableFrom(LogicalOf(before), op, loaded, config.Data(), record);
      outcome := Conclude(op, start, config, record, None, false, faults);
    }

    /** `remove`. */
    method Remove(op: Operation, faults: Faults) returns (outcome: Result<Done, Failure>)
      requires op.Remove? && store.machine.Valid()
      modifies store.machine
      ensures store.machine.Valid() && Extends(old(store.machine.history), store.machine.history)
      ensures Contract(op, store.machine.history, |old(store.machine.history)| - 1, outcome)
      ensures Justified(op, old(store.machine.Now()), faults, outcome)
    {
      ghost var start := |store.machine.history| - 1;
      ghost var before := store.machine.Now();
      var begun := Begin(op, faults);
      if begun.Err? {
        return Err(begun.error);
      }
      var config := begun.value;
      ghost var loaded := config.Data();
      BackedIsLookup(LogicalOf(before), op.reference);
      var position := Position(config.profiles, op.reference);
      if position.None? {
        return Err(NotFound);
      }
      var record := config.profiles[position.value];
      config.profiles := Without(config.profiles, position.value);
      if config.defaultProfile == Some(op.reference) {
        config.defaultProfile := None;
      }
      ConcludableFrom(LogicalOf(before), op, loaded, config.Data(), record);
      outcome := Conclude(op, start, config, record, None, record.source == Keyring, faults);
    }

    /** If the new credential is one for the keyring, remember the token to restore, if the profile
        relied on one, and stage the new one. */
    method StageReplacement(op: Operation, ghost start: nat, wasKeyring: bool, faults: Faults)
      returns (r: Result<Option<string>, ()>)
      requires op.SetCredential? && store.machine.Valid()
      requires SafeSince(op, store.machine.history, start)
      requires Applicable(LogicalOf(store.machine.history[start]), op)
      requires LogicalOf(store.machine.Now()) == LogicalOf(store.machine.history[start])
      requires store.machine.keyring == store.machine.history[start].keyring
      modifies store.machine
      ensures store.machine.Valid() && Extends(old(store.machine.history), store.machine.history)
      ensures SafeSince(op, store.machine.history, start)
      ensures LogicalOf(store.machine.Now()) == LogicalOf(old(store.machine.Now()))
      ensures match r
        case Ok(previous) =>
          && store.machine.keyring == StagedKeyring(op, old(store.machine.keyring))
          && previous == if Staged(op).Some? && wasKeyring
                         then Entry(old(store.machine.keyring), op.reference) else None
        case Err(_) =>
          && (faults.keyringGetFails || faults.keyringSetFails)
          && store.machine.keyring == old(store.machine.keyring)
    {
      var previous: Option<string> := None;
      if op.credential.source != Keyring {
        return Ok(None);
      }
      if wasKeyring {
        var read := store.machine.KeyringGet(op.reference, faults.keyringGetFails);
        if read.Err? {
          return Err(());
        }
        previous := read.value;
      }
      var ok := Stage(op, start, faults.keyringSetFails);
      return if ok then Ok(previous) else Err(());
    }

    /** `set_credential`. */
    method SetCredential(op: Operation, faults: Faults) returns (outcome: Result<Done, Failure>)
      requires op.SetCredential? && store.machine.Valid()
      modifies store.machine
      ensures store.machine.Valid() && Extends(old(store.machine.history), store.machine.history)
      ensures Contract(op, store.machine.history, |old(store.machine.history)| - 1, outcome)
      ensures Justified(op, old(store.machine.Now()), faults, outcome)
    {
      ghost var start := |store.machine.history| - 1;
      ghost var before := store.machine.Now();
      var begun := Begin(op, faults);
      if begun.Err? {
        return Err(begun.error);
      }
      var config := begun.value;
      ghost var loaded := config.Data();
      BackedIsLookup(LogicalOf(before), op.reference);
      var position := Position(config.profiles, op.reference);
      RefusedFrom(LogicalOf(before), op, loaded);
      if position.None? {
        return Err(NotFound);
      }
      var record := config.profiles[position.value];
      if record.companyId != op.companyId {
        return Err(CompanyMismatch);
      }
      var wasKeyring := record.source == Keyring;
      record := record.(source := op.credential.source, expiresAt := op.expiresAt);
      config.profiles := config.profiles[position.value := record];
      ConcludableFrom(LogicalOf(before), op, loaded, config.Data(), record);
      outcome := StoreCredential(op, start, config, record, wasKeyring, faults);
    }

    /** The second half of `set_credential`. The token is stored before the update is finished; the
        changed configuration is still only in memory. */
    method StoreCredential(
      op: Operation, ghost start: nat, config: ProfileConfig, record: ProfileRecord,
      wasKeyring: bool, faults: Faults)
      returns (outcome: Result<Done, Failure>)
      requires op.SetCredential? && store.machine.Valid()
      requires SafeSince(op, store.machine.history, start)
      requires LogicalOf(store.machine.Now()) == LogicalOf(store.machine.history[start])
      requires store.machine.keyring == store.machine.history[start].keyring
      requires Concludable(LogicalOf(store.machine.history[start]), op, config.Data(), record)
      requires wasKeyring <==> KeyringBacked(LogicalOf(store.machine.history[start]), op.reference)
      modifies store.machine, config
      ensures store.machine.Valid() && Extends(old(store.machine.history), store.machine.history)
      ensures Contract(op, store.machine.history, start, outcome)
      ensures Justified(op, store.machine.history[start], faults, outcome)
    {
      var staged := StageReplacement(op, start, wasKeyring, faults);
      if staged.Err? {
        KeyringFailureSettles(op, store.machine.history, start, faults);
        return Err(KeyringUnavailable);
      }
      ReplacementPrepared(op, store.machine.history[start], wasKeyring);
      var obsolete := wasKeyring && op.credential.source != Keyring;
      outcome := Conclude(op, start, config, record, staged.value, obsolete, faults);
    }
  }
}
