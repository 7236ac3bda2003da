/** Durable state, the crash-safe replacement of `profiles.json`, and the two halves of
    `ProfileStore::update`. Whether a system call fails is a parameter of the call. */
module ProfileStore {
  import opened Common
  import opened Identifiers
  import opened ProfileModel

  /** The three names a replacement works on. Contents are decoded configurations. */
  datatype Files = Files(
    temporary: Option<ConfigData>, destination: Option<ConfigData>, backup: Option<ConfigData>)

  /** What survives a crash: the files and the entries of the OS keyring. */
  datatype Durable = Durable(files: Files, keyring: map<ProfileRef, string>)

  /** Unix renames over an existing file; Windows may have to set it aside first. */
  datatype Platform = Unix | Windows

  /** The configuration the files stand for: the destination, else the backup of an interrupted
      replacement, else the default. */
  function Logical(files: Files): ConfigData {
    if files.destination.Some? then files.destination.value
    else if files.backup.Some? then files.backup.value
    else DEFAULT_CONFIG
  }

  function LogicalOf(d: Durable): ConfigData {
    Logical(d.files)
  }

  /** From index `from` on, the history shows `before` up to one commit and `after` from it on. */
  ghost predicate SingleCommit(
    history: seq<Durable>, from: nat, before: ConfigData, after: ConfigData, committed: bool)
  {
    exists c: nat {:trigger CommitAt(history, from, c, before, after)} ::
      CommitAt(history, from, c, before, after) && (committed <==> c < |history|)
  }

  ghost predicate CommitAt(
    history: seq<Durable>, from: nat, c: nat, before: ConfigData, after: ConfigData)
  {
    && from <= c <= |history|
    && (forall k :: from <= k < c ==> LogicalOf(history[k]) == before)
    && (forall k :: c <= k < |history| ==> LogicalOf(history[k]) == after)
  }

  /** Nothing after index `from` differs in the keyring. */
  ghost predicate SameKeyring(history: seq<Durable>, from: nat, keyring: map<ProfileRef, string>) {
    forall k :: from <= k < |history| ==> history[k].keyring == keyring
  }

  ghost predicate Extends(older: seq<Durable>, newer: seq<Durable>) {
    older <= newer
  }

  /** On Unix nothing ever leaves a backup. */
  predicate CanHold(platform: Platform, d: Durable) {
    platform == Unix ==> d.files.backup.None?
  }

  /** The machine: its durable state, changed one system call at a time, and the history of the
      states a crash can leave behind. */
  class Machine {
    const platform: Platform
    var files: Files
    var keyring: map<ProfileRef, string>
    var history: seq<Durable>

    ghost predicate Valid()
      reads this
    {
      && history != [] && history[|history| - 1] == Now()
      && CanHold(platform, Now())
      && (forall k :: 0 <= k < |history| ==> CanHold(platform, history[k]))
    }

    function Now(): Durable
      reads this
    {
      Durable(files, keyring)
    }

    constructor (platform: Platform, start: Durable)
      requires CanHold(platform, start)
      ensures Valid() && Now() == start && history == [start] && this.platform == platform
    {
      this.platform := platform;
      files := start.files;
      keyring := start.keyring;
      history := [start];
    }

    /** One system call on the files that succeeds. */
    method Write(next: Files)
      requires Valid() && CanHold(platform, Durable(next, keyring))
      modifies this
      ensures Valid() && files == next && keyring == old(keyring)
      ensures history == old(history) + [Now()]
    {
      files := next;
      history := history + [Now()];
    }

    method KeyringSet(reference: ProfileRef, token: string, fails: bool) returns (ok: bool)
      requires Valid()
      modifies this
      ensures Valid() && files == old(files) && ok == !fails
      ensures keyring == if ok then old(keyring)[reference := token] else old(keyring)
      ensures history == if ok then old(history) + [Now()] else old(history)
    {
      ok := !fails;
      if ok {
        keyring := keyring[reference := token];
        history := history + [Now()];
      }
    }

    /** `get_optional`: no entry is not an error. */
    method KeyringGet(reference: ProfileRef, fails: bool) returns (r: Result<Option<string>, ()>)
      ensures r == if fails then Err(())
                   else Ok(if reference in keyring then Some(keyring[reference]) else None)
    {
      r := if fails then Err(())
           else Ok(if reference in keyring then Some(keyring[reference]) else None);
    }

    method KeyringDelete(reference: ProfileRef, fails: bool) returns (ok: bool)
      requires Valid()
      modifies this
      ensures Valid() && files == old(files) && ok == !fails
      ensures keyring == if ok then old(keyring) - {reference} else old(keyring)
      ensures history == if ok then old(history) + [Now()] else old(history)
    {
      ok := !fails;
      if ok {
        keyring := keyring - {reference};
        history := history + [Now()];
      }
    }
  }

  datatype Failure =
    | StoreUnavailable
    | InvalidConfig(reason: ConfigError)
    | AlreadyConfigured
    | NotFound
    | CompanyMismatch
    | KeyringUnavailable
    | RejectedUpdate(rejected: ConfigError)
    | WriteFailed
    | RollbackFailed

  /** The answer to the first rename: done, refused because of the existing file, or failed. */
  datatype RenameAnswer = Renamed | Refused | Failed

  datatype ReplaceFaults = ReplaceFaults(
    first: RenameAnswer, staleStays: bool, setAsideFails: bool, secondFails: bool,
    restoreFails: bool, backupStays: bool)

  datatype RecoveryFaults = RecoveryFaults(inspectFails: bool, staleStays: bool, restoreFails: bool)

  datatype WriteFaults = WriteFaults(
    tooLarge: bool, createFails: bool, writeFails: bool, replace: ReplaceFaults,
    temporaryStays: bool, parentSyncFails: bool)

  datatype BeginFaults = BeginFaults(openFails: bool, recovery: RecoveryFaults, readFails: bool)

  const NO_REPLACE_FAULTS := ReplaceFaults(Renamed, false, false, false, false, false)
  const NO_WRITE_FAULTS := WriteFaults(false, false, false, NO_REPLACE_FAULTS, false, false)
  const NO_BEGIN_FAULTS := BeginFaults(false, RecoveryFaults(false, false, false), false)

  class ProfileStore {
    const machine: Machine

    constructor (machine: Machine)
      ensures this.machine == machine
    {
      this.machine := machine;
    }

    /** `replace_file`: the temporary file becomes the destination, or nothing changes logically.
        Whatever fails, and wherever a crash cuts it short, the files stand for the old
        configuration up to the rename that commits and for the new one from it on. */
    method ReplaceFile(faults: ReplaceFaults) returns (ok: bool)
      requires machine.Valid() && machine.files.temporary.Some?
      modifies machine
      ensures machine.Valid() && Extends(old(machine.history), machine.history)
      ensures SingleCommit(machine.history, |old(machine.history)|,
        Logical(old(machine.files)), old(machine.files.temporary).value, ok)
      ensures SameKeyring(machine.history, |old(machine.history)|, old(machine.keyring))
      ensures machine.keyring == old(machine.keyring)
      ensures if ok then machine.files.destination == old(machine.files.temporary)
              else Logical(machine.files) == Logical(old(machine.files))
      ensures ok <==>
        || faults.first == Renamed
        || (machine.platform == Windows && faults.first == Refused
            && old(machine.files.destination).Some?
            && !faults.setAsideFails && !faults.secondFails)
    {
      ghost var from := |machine.history|;
      ghost var before, after := Logical(machine.files), machine.files.temporary.value;
      if faults.first == Renamed {
        machine.Write(Files(None, machine.files.temporary, machine.files.backup));
        assert CommitAt(machine.history, from, from, before, after);
        return true;
      }
      if machine.platform == Unix || faults.first == Failed || machine.files.destination.None? {
        assert CommitAt(machine.history, from, from, before, after);
        return false;
      }
      ok := ReplaceThroughBackup(faults);
    }

    /** The Windows fallback: set the old file aside, rename again, and undo that if it fails. */
    method ReplaceThroughBackup(faults: ReplaceFaults) returns (ok: bool)
      requires machine.Valid() && machine.platform == Windows
      requires machine.files.temporary.Some? && machine.files.destination.Some?
      modifies machine
      ensures machine.Valid() && Extends(old(machine.history), machine.history)
      ensures SingleCommit(machine.history, |old(machine.history)|,
        Logical(old(machine.files)), old(machine.files.temporary).value, ok)
      ensures SameKeyring(machine.history, |old(machine.history)|, old(machine.keyring))
      ensures machine.keyring == old(machine.keyring)
      ensures if ok then machine.files.destination == old(machine.files.temporary)
              else Logical(machine.files) == Logical(old(machine.files))
      ensures ok <==> !faults.setAsideFails && !faults.secondFails
    {
      ghost var from, was := |machine.history|, machine.keyring;
      ghost var before, after := Logical(machine.files), machine.files.temporary.value;
      ghost var older := machine.history;
      if !faults.staleStays {
        machine.Write(machine.files.(backup := None));
        NoCommitYet(older, machine.history, from, before, after, was);
      }
      if faults.setAsideFails {
        assert CommitAt(machine.history, from, |machine.history|, before, after);
        return false;
      }
      older := machine.history;
      machine.Write(machine.files.(destination := None, backup := machine.files.destination));
      NoCommitYet(older, machine.history, from, before, after, was);
      if faults.secondFails {
        if !faults.restoreFails {
          older := machine.history;
          machine.Write(machine.files.(destination := machine.files.backup, backup := None));
          NoCommitYet(older, machine.history, from, before, after, was);
        }
        return false;
      }
      older := machine.history;
      ghost var commit := |older|;
      machine.Write(machine.files.(temporary := None, destination := machine.files.temporary));
      CommitStays(older, machine.history, from, commit, before, after, was);
      if !faults.backupStays {
        older := machine.history;
        machine.Write(machine.files.(backup := None));
        CommitStays(older, machine.history, from, commit, before, after, was);
      }
      return true;
    }

    /** `recover_interrupted_replacement`: never changes what the files stand for. When it succeeds
        the destination alone says it, and a second recovery finds nothing to restore. */
    method RecoverInterrupted(faults: RecoveryFaults) returns (ok: bool)
      requires machine.Valid()
      modifies machine
      ensures machine.Valid() && Extends(old(machine.history), machine.history)
      ensures forall k :: |old(machine.history)| <= k < |machine.history| ==>
        LogicalOf(machine.history[k]) == Logical(old(machine.files))
      ensures SameKeyring(machine.history, |old(machine.history)|, old(machine.keyring))
      ensures machine.keyring == old(machine.keyring)
      ensures machine.files.temporary == old(machine.files.temporary)
      ensures Logical(machine.files) == Logical(old(machine.files))
      ensures ok ==> (machine.files.destination.None? ==> machine.files.backup.None?)
      ensures !faults.inspectFails && !faults.staleStays && !faults.restoreFails ==>
        ok && machine.files.backup.None?
      ensures ok <==>
        && !faults.inspectFails
        && (old(machine.files.destination).None? && old(machine.files.backup).Some? ==>
              !faults.restoreFails)
      ensures old(machine.files.backup).None? ==> machine.files == old(machine.files)
    {
      if faults.inspectFails {
        return false;
      }
      var files := machine.files;
      if files.destination.Some? {
        if files.backup.Some? && !faults.staleStays {
          machine.Write(files.(backup := None));
        }
        return true;
      }
      if files.backup.Some? {
        if faults.restoreFails {
          return false;
        }
        machine.Write(files.(destination := files.backup, backup := None));
      }
      return true;
    }

    /** `update` up to the caller's operation: lock, recover on Windows, load and validate. */
    method BeginUpdate(faults: BeginFaults) returns (r: Result<ProfileConfig, Failure>)
      requires machine.Valid()
      modifies machine
      ensures machine.Valid() && Extends(old(machine.history), machine.history)
      ensures forall k :: |old(machine.history)| <= k < |machine.history| ==>
        LogicalOf(machine.history[k]) == Logical(old(machine.files))
      ensures SameKeyring(machine.history, |old(machine.history)|, old(machine.keyring))
      ensures machine.keyring == old(machine.keyring)
      ensures Logical(machine.files) == Logical(old(machine.files))
      ensures r.Ok? ==> fresh(r.value) && Normalize(Logical(machine.files)) == Ok(r.value.Data())
      ensures r.Err? ==>
        || r.error == StoreUnavailable
        || (r.error.InvalidConfig? && Normalize(Logical(machine.files)) == Err(r.error.reason))
      ensures faults == NO_BEGIN_FAULTS && r.Err? ==>
        match Normalize(Logical(old(machine.files)))
        case Ok(_) => false
        case Err(reason) => r.error == InvalidConfig(reason)
      ensures r == Err(StoreUnavailable) ==>
        || faults.openFails || faults.recovery.inspectFails || faults.recovery.restoreFails
        || faults.readFails
    {
      if faults.openFails {
        return Err(StoreUnavailable);
      }
      if machine.platform == Windows {
        var recovered := RecoverInterrupted(faults.recovery);
        if !recovered {
          return Err(StoreUnavailable);
        }
      }
      if machine.files.destination.None? {
        NormalizeDecidesSoundness(DEFAULT_CONFIG);
        var empty := new ProfileConfig(DEFAULT_CONFIG);
        return Ok(empty);
      }
      if faults.readFails {
        return Err(StoreUnavailable);
      }
      var config := new ProfileConfig(machine.files.destination.value);
      var error := config.NormalizeAndValidate();
      if error.Some? {
        return Err(InvalidConfig(error.value));
      }
      return Ok(config);
    }

    /** `write_unlocked`: serialize into a new temporary file and replace the destination by it. A
        failed sync of the directory after the rename changes nothing any more. */
    method WriteUnlocked(config: ConfigData, faults: WriteFaults) returns (ok: bool)
      requires machine.Valid()
      modifies machine
      ensures machine.Valid() && Extends(old(machine.history), machine.history)
      ensures SingleCommit(machine.history, |old(machine.history)|,
        Logical(old(machine.files)), config, ok)
      ensures SameKeyring(machine.history, |old(machine.history)|, old(machine.keyring))
      ensures machine.keyring == old(machine.keyring)
      ensures Logical(machine.files) == if ok then config else Logical(old(machine.files))
      ensures ok <==>
        && !faults.tooLarge && !faults.createFails && !faults.writeFails
        && (faults.replace.first == Renamed
            || (machine.platform == Windows && faults.replace.first == Refused
                && old(machine.files.destination).Some?
                && !faults.replace.setAsideFails && !faults.replace.secondFails))
    {
      ghost var from := |machine.history|;
      ghost var before := Logical(machine.files);
      if faults.tooLarge || faults.createFails {
        assert CommitAt(machine.history, from, from, before, config);
        return false;
      }
      machine.Write(machine.files.(temporary := Some(config)));
      if faults.writeFails {
        ok := false;
        assert CommitAt(machine.history, from, |machine.history|, before, config);
      } else {
        ok := ReplaceFile(faults.replace);
        CommitPrepended(machine.history, from, from + 1, before, config, ok);
      }
      if !ok && !faults.temporaryStays {
        ghost var shorter := machine.history;
        machine.Write(machine.files.(temporary := None));
        assert Logical(machine.files) == before;
        NoCommitAppended(shorter, machine.history, from, before, config);
      }
    }

    /** `update` after the caller's operation: normalize, validate, write. */
    method FinishUpdate(config: ProfileConfig, faults: WriteFaults) returns (failure: Option<Failure>)
      requires machine.Valid()
      modifies machine, config
      ensures machine.Valid() && Extends(old(machine.history), machine.history)
      ensures match Normalize(old(config.Data()))
        case Err(reason) =>
          && failure == Some(RejectedUpdate(reason)) && machine.history == old(machine.history)
          && machine.files == old(machine.files)
        case Ok(normal) =>
          && SingleCommit(machine.history, |old(machine.history)|,
               Logical(old(machine.files)), normal, failure.None?)
          && Logical(machine.files)
               == (if failure.None? then normal else Logical(old(machine.files)))
          && (faults.(parentSyncFails := false) == NO_WRITE_FAULTS ==> failure.None?)
          && (failure.Some? ==>
                && failure.value == WriteFailed
                && (faults.tooLarge || faults.createFails || faults.writeFails
                    || faults.replace.first != Renamed))
      ensures failure.Some? ==> failure.value.RejectedUpdate? || failure.value.WriteFailed?
      ensures SameKeyring(machine.history, |old(machine.history)|, old(machine.keyring))
      ensures machine.keyring == old(machine.keyring)
    {
      var error := config.NormalizeAndValidate();
      if error.Some? {
        return Some(RejectedUpdate(error.value));
      }
      var ok := WriteUnlocked(config.Data(), faults);
      failure := if ok then None else Some(WriteFailed);
    }
  }

  /** One more state that shows the old configuration. */
  lemma NoCommitYet(
    older: seq<Durable>, newer: seq<Durable>, from: nat, before: ConfigData, after: ConfigData,
    keyring: map<ProfileRef, string>)
    requires CommitAt(older, from, |older|, before, after) && SameKeyring(older, from, keyring)
    requires |newer| == |older| + 1 && newer[..|older|] == older
    requires LogicalOf(newer[|older|]) == before && newer[|older|].keyring == keyring
    ensures CommitAt(newer, from, |newer|, before, after) && SameKeyring(newer, from, keyring)
  {
    assert forall k :: 0 <= k < |older| ==> newer[k] == older[k];
  }

  /** One more state that shows the new configuration. */
  lemma CommitStays(
    older: seq<Durable>, newer: seq<Durable>, from: nat, commit: nat, before: ConfigData,
    after: ConfigData, keyring: map<ProfileRef, string>)
    requires CommitAt(older, from, commit, before, after) && SameKeyring(older, from, keyring)
    requires |newer| == |older| + 1 && newer[..|older|] == older
    requires LogicalOf(newer[|older|]) == after && newer[|older|].keyring == keyring
    ensures CommitAt(newer, from, commit, before, after) && SameKeyring(newer, from, keyring)
  {
    assert forall k :: 0 <= k < |older| ==> newer[k] == older[k];
  }

  lemma CommitPrepended(
    history: seq<Durable>, from: nat, later: nat, before: ConfigData, after: ConfigData, ok: bool)
    requires from <= later <= |history|
    requires forall k :: from <= k < later ==> LogicalOf(history[k]) == before
    requires SingleCommit(history, later, before, after, ok)
    ensures SingleCommit(history, from, before, after, ok)
  {
    var c: nat :| CommitAt(history, later, c, before, after) && (ok <==> c < |history|);
    assert CommitAt(history, from, c, before, after);
  }

  lemma NoCommitAppended(
    history: seq<Durable>, longer: seq<Durable>, from: nat, before: ConfigData, after: ConfigData)
    requires from <= |history| && SingleCommit(history, from, before, after, false)
    requires |longer| == |history| + 1 && longer[..|history|] == history
    requires LogicalOf(longer[|history|]) == before
    ensures SingleCommit(longer, from, before, after, false)
  {
    assert forall k :: 0 <= k < |history| ==> longer[k] == history[k];
    assert CommitAt(longer, from, |longer|, before, after);
  }
}
