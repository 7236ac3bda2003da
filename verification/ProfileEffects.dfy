/** What the profile operations come to, word for word: the default, the record and the token they
    leave, and the reasons they give. */
module ProfileEffects {
  import opened Common
  import opened Identifiers
  import opened ProfileModel
  import opened ProfileStore
  import opened ProfileService
  import opened ProfileRuns

  /** The configuration found and the one left by an operation that succeeded. */
  ghost predicate Succeeds(
    op: Operation, history: seq<Durable>, start: nat, done: Done, before: ConfigData,
    after: ConfigData)
  {
    && Contract(op, history, start, Ok(done))
    && before == LogicalOf(history[start]) && after == LogicalOf(history[|history| - 1])
  }

  /** Which profile is the default after a success. */
  lemma DefaultAfterSuccess(
    op: Operation, history: seq<Durable>, start: nat, done: Done, before: ConfigData,
    after: ConfigData)
    requires Succeeds(op, history, start, done, before, after)
    ensures match op
      case SetDefault(reference) => after.defaultProfile == Some(reference)
      case Add(reference, _, _, _, makeDefault) =>
        after.defaultProfile == if makeDefault then Some(reference) else before.defaultProfile
      case Remove(reference) =>
        after.defaultProfile ==
          if before.defaultProfile == Some(reference) then None else before.defaultProfile
      case SetCredential(_, _, _, _) => after.defaultProfile == before.defaultProfile
  {
    CommittedDefault(before, op);
    DefaultAfterChange(Normalize(before).value, op);
  }

  /** Normalizing has no part in which profile is the default. */
  lemma CommittedDefault(config: ConfigData, op: Operation)
    requires Updated(config, op).Some?
    ensures Normalize(config).Ok? && Changed(Normalize(config).value, ChangeOf(op)).Some?
    ensures Normalize(config).value.defaultProfile == config.defaultProfile
    ensures Updated(config, op).value.defaultProfile
      == Changed(Normalize(config).value, ChangeOf(op)).value.defaultProfile
  {
    NormalizeDecidesSoundness(config);
    NormalizeDecidesSoundness(Changed(Normalize(config).value, ChangeOf(op)).value);
  }

  lemma DefaultAfterChange(loaded: ConfigData, op: Operation)
    requires Changed(loaded, ChangeOf(op)).Some?
    ensures var next := Changed(loaded, ChangeOf(op)).value.defaultProfile;
      match op
      case SetDefault(reference) => next == Some(reference)
      case Add(reference, _, _, _, makeDefault) =>
        next == if makeDefault then Some(reference) else loaded.defaultProfile
      case Remove(reference) =>
        next == if loaded.defaultProfile == Some(reference) then None else loaded.defaultProfile
      case SetCredential(_, _, _, _) => next == loaded.defaultProfile
  {
  }

  /** Which record is found under the reference before and after a success, and reported. */
  lemma RecordAfterSuccess(
    op: Operation, history: seq<Durable>, start: nat, done: Done, before: ConfigData,
    after: ConfigData)
    requires Succeeds(op, history, start, done, before, after)
    ensures var was, now := Lookup(before, op.reference), Lookup(after, op.reference);
      match op
      case Add(r, credential, companyId, expiresAt, _) =>
        && was == None && now == Some(done.record)
        && done.record
             == ProfileRecord(r.provider, r.profile, companyId, credential.source, expiresAt)
      case SetDefault(_) => was == Some(done.record) && now == Some(done.record)
      case Remove(_) => was == Some(done.record) && now == None
      case SetCredential(r, credential, companyId, expiresAt) =>
        && was.Some? && was.value.companyId == companyId && now == Some(done.record)
        && done.record
             == ProfileRecord(r.provider, r.profile, companyId, credential.source, expiresAt)
  {
    SuccessIsComplete(op, history, start, done);
    UpdateIsLocal(before, op, op.reference);
    NormalizeKeepsLookup(before, op.reference);
    LookupNames(before, op.reference);
  }

  /** A record is found under its own reference. */
  lemma LookupNames(config: ConfigData, r: ProfileRef)
    ensures Lookup(config, r).Some? ==>
      Lookup(config, r).value.provider == r.provider && Lookup(config, r).value.name == r.profile
  {
    if Lookup(config, r).Some? {
      assert Reference(config.profiles[Position(config.profiles, r).value]) == r;
    }
  }

  /** The whole keyring after a success. Only the profile's own entry ever changes: a token brought
      along for the keyring is stored, and the token of a profile that no longer needs one is
      removed, unless that fails and is reported. */
  lemma KeyringAfterSuccess(
    op: Operation, history: seq<Durable>, start: nat, done: Done, before: ConfigData,
    after: ConfigData)
    requires Succeeds(op, history, start, done, before, after)
    ensures var was, now := history[start].keyring, history[|history| - 1].keyring;
      var record := Lookup(before, op.reference);
      var obsolete := record.Some? && record.value.source == Keyring;
      match op
      case Add(r, credential, _, _, _) =>
        !done.cleanupFailed
        && now == if credential.source == Keyring then was[r := credential.token] else was
      case SetDefault(_) => !done.cleanupFailed && now == was
      case Remove(r) =>
        && (done.cleanupFailed ==> obsolete)
        && now == if obsolete && !done.cleanupFailed then was - {r} else was
      case SetCredential(r, credential, _, _) =>
        && (done.cleanupFailed ==> obsolete && credential.source != Keyring)
        && now == if credential.source == Keyring then was[r := credential.token]
                 else if obsolete && !done.cleanupFailed then was - {r} else was
  {
    RecordAfterSuccess(op, history, start, done, before, after);
    UpdateIsLocal(before, op, op.reference);
    BackedInSound(before, op.reference);
  }

  /** The three refusals that blame the request are true, and are given whenever nothing goes wrong
      and they are. */
  lemma RefusalsAreTrue(
    op: Operation, before: Durable, faults: Faults, outcome: Result<Done, Failure>)
    requires Justified(op, before, faults, outcome)
    ensures outcome == Err(AlreadyConfigured) ==>
      op.Add? && Lookup(LogicalOf(before), op.reference).Some?
    ensures outcome == Err(NotFound) ==>
      !op.Add? && Lookup(LogicalOf(before), op.reference).None?
    ensures outcome == Err(CompanyMismatch) ==>
      && op.SetCredential? && Lookup(LogicalOf(before), op.reference).Some?
      && Lookup(LogicalOf(before), op.reference).value.companyId != op.companyId
    ensures Sound(LogicalOf(before)) && Smooth(faults) ==>
      var was := Lookup(LogicalOf(before), op.reference);
      && (op.Add? && was.Some? ==> outcome == Err(AlreadyConfigured))
      && (!op.Add? && was.None? ==> outcome == Err(NotFound))
      && (op.SetCredential? && was.Some? && was.value.companyId != op.companyId ==>
            outcome == Err(CompanyMismatch))
  {
    RefusedExactly(LogicalOf(before), op);
  }

  /** The merits an operation is refused on. */
  lemma RefusedExactly(config: ConfigData, op: Operation)
    ensures var refusal, was := Refusal(config, op), Lookup(config, op.reference);
      && (refusal == Some(AlreadyConfigured) <==> Sound(config) && op.Add? && was.Some?)
      && (refusal == Some(NotFound) <==> Sound(config) && !op.Add? && was.None?)
      && (refusal == Some(CompanyMismatch) <==>
            Sound(config) && op.SetCredential? && was.Some? && was.value.companyId != op.companyId)
  {
    NormalizeDecidesSoundness(config);
    if Sound(config) {
      var loaded := Normalize(config).value;
      NormalizeKeepsLookup(config, op.reference);
      RefusedFrom(config, op, loaded);
      ChangedIfFound(loaded, op);
    }
  }

  lemma ChangedIfFound(loaded: ConfigData, op: Operation)
    ensures Changed(loaded, ChangeOf(op)).Some? <==> op.Add? == Lookup(loaded, op.reference).None?
  {
    assert Target(ChangeOf(op)) == op.reference;
  }

  /** The reasons that blame the stored configuration or the update are true as well, and nothing
      else fails without a fault of its own kind. */
  lemma FailuresAreTrue(
    op: Operation, before: Durable, faults: Faults, outcome: Result<Done, Failure>)
    requires Justified(op, before, faults, outcome) && outcome.Err?
    ensures match outcome.error
      case InvalidConfig(reason) => Normalize(LogicalOf(before)) == Err(reason)
      case RejectedUpdate(_) =>
        && Sound(LogicalOf(before)) && (op.Add? || op.SetCredential?)
        && (!ValidSource(op.credential.source) || !ValidExpiry(op.expiresAt))
      case StoreUnavailable =>
        || faults.begin.openFails || faults.begin.recovery.inspectFails
        || faults.begin.recovery.restoreFails || faults.begin.readFails
      case WriteFailed =>
        || faults.write.tooLarge || faults.write.createFails || faults.write.writeFails
        || faults.write.replace.first != Renamed
      case KeyringUnavailable => faults.keyringGetFails || faults.keyringSetFails
      case RollbackFailed => faults.rollbackFails
      case _ => true
  {
    if outcome.error.RejectedUpdate? {
      var config := LogicalOf(before);
      NormalizeDecidesSoundness(config);
      if ValidInput(ChangeOf(op)) {
        ChangesStaySound(Normalize(config).value, ChangeOf(op));
      }
    }
  }

  /** A request that fits what is stored, with valid input, succeeds when nothing goes wrong. */
  lemma GoodRequestsSucceed(
    op: Operation, before: Durable, faults: Faults, outcome: Result<Done, Failure>)
    requires Justified(op, before, faults, outcome) && Smooth(faults) && Sound(LogicalOf(before))
    requires var was := Lookup(LogicalOf(before), op.reference);
      && (op.Add? <==> was.None?)
      && (op.SetCredential? ==> was.value.companyId == op.companyId)
    requires op.Add? || op.SetCredential? ==>
      ValidSource(op.credential.source) && ValidExpiry(op.expiresAt)
    ensures outcome.Ok? && !outcome.value.cleanupFailed
  {
    var config := LogicalOf(before);
    NormalizeDecidesSoundness(config);
    NormalizeKeepsLookup(config, op.reference);
    ChangedIfFound(Normalize(config).value, op);
    ApplicableCanCommit(config, op);
  }

  /** Without any file the store stands for an empty configuration. */
  lemma StartsEmpty(temporary: Option<ConfigData>)
    ensures var config := Logical(Files(temporary, None, None));
      && config.schemaVersion == 1 && config.defaultProfile == None && config.profiles == []
  {
  }
}
