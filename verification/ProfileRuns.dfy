/** What the contract of single operations means over serial runs of any length, in which any
    operation may be cut short by a crash between two system calls. */
module ProfileRuns {
  import opened Common
  import opened Ordering
  import opened Identifiers
  import opened ProfileModel
  import opened ProfileStore
  import opened ProfileService

  /** One process: the states its operation passes through, its outcome, and the state it leaves
      behind. It leaves the last one unless it crashes earlier. */
  datatype Episode = Episode(
    op: Operation, states: seq<Durable>, outcome: Result<Done, Failure>, left: nat)

  ghost predicate ValidRun(start: Durable, run: seq<Episode>)
    decreases |run|
  {
    run == []
    || (&& Contract(run[0].op, run[0].states, 0, run[0].outcome)
        && run[0].states[0] == start && run[0].left < |run[0].states|
        && ValidRun(run[0].states[run[0].left], run[1..]))
  }

  /** The states recorded while an operation's method runs form an episode. */
  lemma MethodsMakeEpisodes(
    op: Operation, history: seq<Durable>, start: nat, outcome: Result<Done, Failure>)
    requires Contract(op, history, start, outcome)
    ensures Contract(op, history[start..], 0, outcome)
  {
    SafeFromStart(op, history, start);
    TornFromStart(history, start);
  }

  lemma SafeFromStart(op: Operation, history: seq<Durable>, start: nat)
    requires SafeSince(op, history, start)
    ensures SafeSince(op, history[start..], 0)
  {
    var states := history[start..];
    forall k | 0 <= k < |states| ensures CrashSafe(op, states[0], states[k]) {
      assert CrashSafe(op, history[start], history[start + k]);
    }
  }

  lemma TornFromStart(history: seq<Durable>, start: nat)
    ensures TornSince(history, start) ==> TornSince(history[start..], 0)
  {
    if TornSince(history, start) {
      var k :| start <= k < |history| && Torn(history[start], history[k]);
      assert Torn(history[start..][0], history[start..][k - start]);
    }
  }

  // ---------------------------------------------------------------- what a commit changes

  /** A committed configuration is sound, and differs from the loaded one in its target alone. */
  lemma UpdateIsLocal(config: ConfigData, op: Operation, r: ProfileRef)
    requires Updated(config, op).Some?
    ensures Sound(config) && Sound(Updated(config, op).value)
    ensures Lookup(Updated(config, op).value, r)
         == RecordAfter(Normalize(config).value, ChangeOf(op), r)
  {
    var loaded := Normalize(config).value;
    var changed := Changed(loaded, ChangeOf(op)).value;
    var next := Normalize(changed).value;
    NormalizeDecidesSoundness(config);
    NormalizeDecidesSoundness(changed);
    LookupAfterChange(loaded, ChangeOf(op), r);
    NormalizeKeepsLookup(changed, r);
  }

  /** Sorting does not change what is found. */
  lemma NormalizeKeepsLookup(config: ConfigData, r: ProfileRef)
    requires Sound(config)
    ensures Normalize(config).Ok? && Lookup(Normalize(config).value, r) == Lookup(config, r)
  {
    NormalizeDecidesSoundness(config);
    var normal := Normalize(config).value;
    SameMultiset(config.profiles, normal.profiles);
    LookupCarriesOver(config, normal, r);
    LookupCarriesOver(normal, config, r);
  }

  lemma LookupCarriesOver(config: ConfigData, other: ConfigData, r: ProfileRef)
    requires Sound(other) && forall p :: p in config.profiles ==> p in other.profiles
    ensures Lookup(config, r).Some? ==> Lookup(other, r) == Lookup(config, r)
  {
    var record := Lookup(config, r);
    if record.Some? {
      LookupFindsMember(other, record.value);
    }
  }

  lemma BackedInSound(config: ConfigData, r: ProfileRef)
    requires Sound(config)
    ensures KeyringBacked(config, r) <==>
      Lookup(config, r).Some? && Lookup(config, r).value.source == Keyring
  {
    NormalizeKeepsLookup(config, r);
    BackedIsLookup(config, r);
  }

  /** Which profiles rely on the keyring after a commit: the target if a token was staged for it,
      and every other one as before. */
  lemma BackedAfterUpdate(config: ConfigData, op: Operation, r: ProfileRef)
    requires Updated(config, op).Some?
    ensures KeyringBacked(Updated(config, op).value, r) ==
      if r != op.reference || op.SetDefault? then KeyringBacked(config, r) else Staged(op).Some?
  {
    var loaded, next := Normalize(config).value, Updated(config, op).value;
    UpdateIsLocal(config, op, r);
    BackedInSound(next, r);
    BackedIsLookup(config, r);
    SourceAfter(loaded, op, r);
  }

  lemma SourceAfter(loaded: ConfigData, op: Operation, r: ProfileRef)
    requires Changed(loaded, ChangeOf(op)).Some?
    ensures InKeyring(RecordAfter(loaded, ChangeOf(op), r)) ==
      if r != op.reference || op.SetDefault? then InKeyring(Lookup(loaded, r)) else Staged(op).Some?
  {
  }

  predicate InKeyring(record: Option<ProfileRecord>) {
    record.Some? && record.value.source == Keyring
  }

  // ---------------------------------------------------------------- consistency over runs

  /** From a consistent state every state an operation passes through is consistent. */
  lemma OperationStaysConsistent(op: Operation, before: Durable, d: Durable)
    requires Consistent(before) && CrashSafe(op, before, d)
    ensures Consistent(d)
  {
    forall r | KeyringBacked(LogicalOf(d), r) ensures r in d.keyring {
      assert r != op.reference ==> Entry(d.keyring, r) == Entry(before.keyring, r);
      if !Pending(op, before, d) {
        BackedAfterUpdate(LogicalOf(before), op, r);
      }
    }
  }

  /** Over any serial run of operations, with arbitrary failures and with a crash anywhere, every
      configured profile that relies on the keyring has an entry in it. */
  lemma {:induction false} RunsStayConsistent(start: Durable, run: seq<Episode>, e: nat, k: nat)
    requires ValidRun(start, run) && Consistent(start)
    requires e < |run| && k < |run[e].states|
    ensures Consistent(run[e].states[k])
    decreases |run|
  {
    var first := run[0];
    OperationStaysConsistent(first.op, start, first.states[first.left]);
    if e == 0 {
      OperationStaysConsistent(first.op, start, first.states[k]);
    } else {
      RunsStayConsistent(first.states[first.left], run[1..], e - 1, k);
    }
  }

  /** A stored configuration stays sound over any run, so a later start can always load it. */
  lemma {:induction false} RunsStaySound(start: Durable, run: seq<Episode>, e: nat, k: nat)
    requires ValidRun(start, run) && Sound(LogicalOf(start))
    requires e < |run| && k < |run[e].states|
    ensures Sound(LogicalOf(run[e].states[k]))
    decreases |run|
  {
    var first := run[0];
    CrashStateSound(first.op, start, first.states[first.left]);
    if e == 0 {
      CrashStateSound(first.op, start, first.states[k]);
    } else {
      RunsStaySound(first.states[first.left], run[1..], e - 1, k);
    }
  }

  lemma CrashStateSound(op: Operation, before: Durable, d: Durable)
    requires Sound(LogicalOf(before)) && CrashSafe(op, before, d)
    ensures Sound(LogicalOf(d))
  {
    if Committed(op, before, d) {
      UpdateIsLocal(LogicalOf(before), op, op.reference);
    }
  }

  /** A profile and its token are left alone by every run of operations on other profiles, crashes
      and failures included. */
  lemma {:induction false} RunsLeaveOthersAlone(
    start: Durable, run: seq<Episode>, e: nat, k: nat, r: ProfileRef)
    requires ValidRun(start, run) && Sound(LogicalOf(start))
    requires forall i :: 0 <= i < |run| ==> run[i].op.reference != r
    requires e < |run| && k < |run[e].states|
    ensures Lookup(LogicalOf(run[e].states[k]), r) == Lookup(LogicalOf(start), r)
    ensures Entry(run[e].states[k].keyring, r) == Entry(start.keyring, r)
    decreases |run|
  {
    if e == 0 {
      EpisodeLeavesOthersAlone(start, run[0], k, r);
    } else {
      EpisodeLeavesOthersAlone(start, run[0], run[0].left, r);
      RunsLeaveOthersAlone(run[0].states[run[0].left], run[1..], e - 1, k, r);
    }
  }

  lemma EpisodeLeavesOthersAlone(start: Durable, episode: Episode, k: nat, r: ProfileRef)
    requires Contract(episode.op, episode.states, 0, episode.outcome) && episode.states[0] == start
    requires Sound(LogicalOf(start)) && k < |episode.states| && episode.op.reference != r
    ensures Sound(LogicalOf(episode.states[k]))
    ensures Lookup(LogicalOf(episode.states[k]), r) == Lookup(LogicalOf(start), r)
    ensures Entry(episode.states[k].keyring, r) == Entry(start.keyring, r)
  {
    assert CrashSafe(episode.op, start, episode.states[k]);
    CrashStateSound(episode.op, start, episode.states[k]);
    OperationLeavesOthersAlone(episode.op, start, episode.states[k], r);
  }

  lemma OperationLeavesOthersAlone(op: Operation, before: Durable, d: Durable, r: ProfileRef)
    requires Sound(LogicalOf(before)) && CrashSafe(op, before, d) && r != op.reference
    ensures Lookup(LogicalOf(d), r) == Lookup(LogicalOf(before), r)
    ensures Entry(d.keyring, r) == Entry(before.keyring, r)
  {
    if !Pending(op, before, d) {
      UpdateIsLocal(LogicalOf(before), op, r);
      NormalizeKeepsLookup(LogicalOf(before), r);
    }
  }

  // ---------------------------------------------------------------- all or nothing

  /** An error other than a failed rollback leaves the stored configuration and the token of every
      profile that relies on the keyring exactly as they were. */
  lemma ErrorChangesNothing(
    op: Operation, history: seq<Durable>, start: nat, failure: Failure)
    requires Contract(op, history, start, Err(failure)) && failure != RollbackFailed
    ensures var after := history[|history| - 1];
      && LogicalOf(after) == LogicalOf(history[start])
      && SameReliedTokens(LogicalOf(history[start]), history[start], after)
  {
  }

  /** A failed rollback is the only error that can change a token some profile relies on: the
      target's, to the one that was to be set. It does so only when credentials are replaced. */
  lemma FailedRollbackLeavesNewToken(op: Operation, history: seq<Durable>, start: nat)
    requires Contract(op, history, start, Err(RollbackFailed))
    ensures var before, after := history[start], history[|history| - 1];
      && LogicalOf(after) == LogicalOf(before)
      && Entry(after.keyring, op.reference) == Staged(op)
      && (!SameReliedTokens(LogicalOf(before), before, after) <==>
            KeyringBacked(LogicalOf(before), op.reference)
            && Entry(before.keyring, op.reference) != Staged(op))
      && (KeyringBacked(LogicalOf(before), op.reference) ==> op.SetCredential?)
  {
    var before, after := history[start], history[|history| - 1];
    BackedIsLookup(LogicalOf(before), op.reference);
    assert Entry(before.keyring, op.reference) != Staged(op) ==>
      Entry(after.keyring, op.reference) != Entry(before.keyring, op.reference);
  }

  /** Success means the new configuration with the new token, and only then is an old entry gone. */
  lemma SuccessIsComplete(op: Operation, history: seq<Durable>, start: nat, done: Done)
    requires Contract(op, history, start, Ok(done))
    ensures var before, after := history[start], history[|history| - 1];
      && Updated(LogicalOf(before), op) == Some(LogicalOf(after))
      && (KeyringBacked(LogicalOf(after), op.reference) && !op.SetDefault? ==>
            Staged(op).Some? && Entry(after.keyring, op.reference) == Staged(op))
      && (!op.Remove? ==> Lookup(LogicalOf(after), op.reference) == Some(done.record))
      && (op.Remove? ==> Lookup(LogicalOf(after), op.reference).None?
                         && Lookup(LogicalOf(before), op.reference) == Some(done.record))
      && forall r :: r != op.reference ==>
           Lookup(LogicalOf(after), r) == Lookup(LogicalOf(before), r)
           && Entry(after.keyring, r) == Entry(before.keyring, r)
  {
    var before, after := history[start], history[|history| - 1];
    UpdateIsLocal(LogicalOf(before), op, op.reference);
    BackedAfterUpdate(LogicalOf(before), op, op.reference);
    NormalizeKeepsLookup(LogicalOf(before), op.reference);
    forall r | r != op.reference
      ensures Lookup(LogicalOf(after), r) == Lookup(LogicalOf(before), r)
        && Entry(after.keyring, r) == Entry(before.keyring, r)
    {
      OperationLeavesOthersAlone(op, before, after, r);
    }
  }

  /** A crash never shows a new configuration without its token: the keyring is written first. */
  lemma KeyringNeverBehind(op: Operation, before: Durable, d: Durable)
    requires CrashSafe(op, before, d) && LogicalOf(d) != LogicalOf(before)
    ensures Updated(LogicalOf(before), op) == Some(LogicalOf(d))
    ensures KeyringBacked(LogicalOf(d), op.reference) && !op.SetDefault? ==>
      Entry(d.keyring, op.reference) == Staged(op) && Staged(op).Some?
  {
    BackedAfterUpdate(LogicalOf(before), op, op.reference);
  }

  /** The one way a crash can show a relied-on token that differs from the one before, under the
      old configuration: a replacement of a keyring token by a different one, interrupted after
      the new token was stored. Every other crash under the old configuration is a no-op. */
  lemma OnlyRotationIsTorn(op: Operation, before: Durable, d: Durable)
    requires CrashSafe(op, before, d) && LogicalOf(d) == LogicalOf(before)
    requires !SameReliedTokens(LogicalOf(before), before, d)
    ensures op.SetCredential? && Staged(op).Some?
    ensures KeyringBacked(LogicalOf(before), op.reference)
    ensures Entry(d.keyring, op.reference) == Staged(op) != Entry(before.keyring, op.reference)
  {
    var r :| KeyringBacked(LogicalOf(before), r)
      && Entry(before.keyring, r) != Entry(d.keyring, r);
    assert r == op.reference;
    if Pending(op, before, d) {
      BackedIsLookup(LogicalOf(before), r);
    } else {
      BackedAfterUpdate(LogicalOf(before), op, r);
      UpdateIsLocal(LogicalOf(before), op, r);
      NormalizeKeepsLookup(LogicalOf(before), r);
      BackedInSound(LogicalOf(before), r);
    }
  }

  /** A successful operation passes through a torn state exactly if it is such a rotation. */
  lemma RotationIsTornExactly(op: Operation, history: seq<Durable>, start: nat, done: Done)
    requires Contract(op, history, start, Ok(done))
    ensures TornSince(history, start) <==> Rotates(op, history[start])
  {
    if TornSince(history, start) {
      var k :| start <= k < |history| && Torn(history[start], history[k]);
      assert CrashSafe(op, history[start], history[k]);
      OnlyRotationIsTorn(op, history[start], history[k]);
    }
  }

  /** `d` is to every reader what `a` is: the configuration and the tokens it relies on. */
  ghost predicate LooksLike(a: Durable, d: Durable) {
    LogicalOf(d) == LogicalOf(a) && SameReliedTokens(LogicalOf(a), a, d)
  }

  /** Some state is to a reader neither the first nor the last one. */
  ghost predicate HalfWay(history: seq<Durable>, start: nat) {
    && start < |history|
    && (exists k :: start <= k < |history|
          && !LooksLike(history[start], history[k])
          && !LooksLike(history[|history| - 1], history[k]))
  }

  /** From the commit on, every state looks like the last one. */
  lemma CommittedLooksFinal(op: Operation, before: Durable, d: Durable, after: Durable, done: Done)
    requires Settled(op, before, after, Ok(done))
    requires OthersUntouched(op, before, d) && OthersUntouched(op, before, after)
    requires Committed(op, before, d)
    ensures LooksLike(after, d)
  {
    forall r | KeyringBacked(LogicalOf(after), r)
      ensures Entry(after.keyring, r) == Entry(d.keyring, r)
    {
      BackedAfterUpdate(LogicalOf(before), op, r);
    }
  }

  /** An operation that succeeds is atomic under crashes, unless it replaces a keyring token by a
      different one and changes the configuration with it; then it never is. */
  lemma HalfWayExactly(op: Operation, history: seq<Durable>, start: nat, done: Done)
    requires Contract(op, history, start, Ok(done))
    ensures HalfWay(history, start) <==>
      && Rotates(op, history[start])
      && Updated(LogicalOf(history[start]), op) != Some(LogicalOf(history[start]))
  {
    var before, after := history[start], history[|history| - 1];
    assert CrashSafe(op, before, history[|history| - 1]);
    if HalfWay(history, start) {
      var k :| start <= k < |history|
        && !LooksLike(before, history[k]) && !LooksLike(after, history[k]);
      assert CrashSafe(op, before, history[k]);
      if Committed(op, before, history[k]) {
        CommittedLooksFinal(op, before, history[k], after, done);
      } else {
        OnlyRotationIsTorn(op, before, history[k]);
        if LogicalOf(after) == LogicalOf(before) {
          StagedLooksFinal(op, before, history[k], after, done);
        }
      }
    }
    if Rotates(op, before) && LogicalOf(after) != LogicalOf(before) {
      var k :| start <= k < |history| && Torn(before, history[k]);
      assert !LooksLike(before, history[k]) && !LooksLike(after, history[k]);
    }
  }

  lemma StagedLooksFinal(op: Operation, before: Durable, d: Durable, after: Durable, done: Done)
    requires Settled(op, before, after, Ok(done))
    requires OthersUntouched(op, before, d) && OthersUntouched(op, before, after)
    requires LogicalOf(d) == LogicalOf(before) == LogicalOf(after)
    requires Staged(op).Some? && Entry(d.keyring, op.reference) == Staged(op)
    ensures LooksLike(after, d)
  {
    forall r ensures Entry(after.keyring, r) == Entry(d.keyring, r) {
      if r != op.reference {
        assert Entry(after.keyring, r) == Entry(before.keyring, r) == Entry(d.keyring, r);
      }
    }
  }

  /** The validated inputs of the commands are never refused by the final validation: from a sound
      configuration an applicable operation always has something to commit. */
  lemma ApplicableCanCommit(config: ConfigData, op: Operation)
    requires Applicable(config, op) && ValidInput(ChangeOf(op))
    ensures Updated(config, op).Some? && Refusal(config, op).None?
  {
    var loaded := Normalize(config).value;
    LoadedIsSound(config);
    ChangesStaySound(loaded, ChangeOf(op));
    assert Normalize(Changed(loaded, ChangeOf(op)).value).Ok?;
  }

  lemma LoadedIsSound(config: ConfigData)
    requires Normalize(config).Ok?
    ensures Sound(Normalize(config).value)
  {
    NormalizeDecidesSoundness(config);
  }
}
