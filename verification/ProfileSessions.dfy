/** Running the profile operations: one after the other, on a machine that may crash in any of them.
    What runs has the contract of `ProfileRuns`. */
module ProfileSessions {
  import opened Common
  import opened Identifiers
  import opened ProfileModel
  import opened Store = ProfileStore
  import opened Service = ProfileService
  import opened ProfileRuns

  /** Perform any operation, and record the states it passes through. */
  method Perform(service: Service.ProfileService, op: Operation, faults: Faults)
    returns (outcome: Result<Done, Failure>, episode: Episode)
    requires service.store.machine.Valid()
    modifies service.store.machine
    ensures var machine := service.store.machine;
      && machine.Valid() && Extends(old(machine.history), machine.history)
      && episode.states == machine.history[|old(machine.history)| - 1..]
      && episode.states != [] && episode.states[0] == old(machine.Now())
      && episode.left == |episode.states| - 1
    ensures episode.op == op && episode.outcome == outcome
    ensures Contract(op, episode.states, 0, outcome)
    ensures Justified(op, old(service.store.machine.Now()), faults, outcome)
  {
    var machine := service.store.machine;
    var start := |machine.history| - 1;
    match op {
      case Add(_, _, _, _, _) => outcome := service.Add(op, faults);
      case SetDefault(_) => outcome := service.SetDefault(op, faults);
      case Remove(_) => outcome := service.Remove(op, faults);
      case SetCredential(_, _, _, _) => outcome := service.SetCredential(op, faults);
    }
    MethodsMakeEpisodes(op, machine.history, start, outcome);
    var states := machine.history[start..];
    episode := Episode(op, states, outcome, |states| - 1);
  }

  /** One process: what it is to do, what fails in it, and after how many system calls it crashes,
      if it does. */
  datatype Process = Process(op: Operation, faults: Faults, crash: Option<nat>)

  /** A new process finds what the one before it left. */
  method RunProcess(platform: Platform, start: Durable, process: Process) returns (episode: Episode)
    requires CanHold(platform, start)
    ensures episode.op == process.op && episode.left < |episode.states|
    ensures episode.left == match process.crash
      case Some(calls) => Min(calls, |episode.states| - 1)
      case None => |episode.states| - 1
    ensures Contract(episode.op, episode.states, 0, episode.outcome) && episode.states[0] == start
    ensures CanHold(platform, episode.states[episode.left])
    ensures Justified(process.op, start, process.faults, episode.outcome)
  {
    var machine := new Machine(platform, start);
    var store := new Store.ProfileStore(machine);
    var service := new Service.ProfileService(store);
    var outcome;
    outcome, episode := Perform(service, process.op, process.faults);
    if process.crash.Some? {
      episode := episode.(left := Min(process.crash.value, |episode.states| - 1));
    }
  }

  /** Any number of processes, one after the other. From a consistent start every state in which any
      of them could crash is consistent. */
  method RunSession(platform: Platform, start: Durable, processes: seq<Process>)
    returns (run: seq<Episode>)
    requires CanHold(platform, start)
    ensures ValidRun(start, run) && |run| == |processes|
    ensures forall e :: 0 <= e < |run| ==> run[e].op == processes[e].op
    ensures Consistent(start) ==> forall e: nat, k: nat ::
      e < |run| && k < |run[e].states| ==> Consistent(run[e].states[k])
    decreases |processes|
  {
    if processes == [] {
      return [];
    }
    var episode := RunProcess(platform, start, processes[0]);
    var rest := RunSession(platform, episode.states[episode.left], processes[1..]);
    run := [episode] + rest;
    assert run[1..] == rest;
    if Consistent(start) {
      forall e: nat, k: nat | e < |run| && k < |run[e].states|
        ensures Consistent(run[e].states[k])
      {
        RunsStayConsistent(start, run, e, k);
      }
    }
  }

  // ---------------------------------------------------------------- a rotation

  const WORK := ProfileRef("kinsta", "work")

  const NO_FAULTS :=
    Faults(NO_BEGIN_FAULTS, false, false, NO_WRITE_FAULTS, false, false)

  /** One profile in the keyring, without an expiry date. */
  const BEFORE_ROTATION := Durable(
    Files(
      None,
      Some(ConfigData(CONFIG_SCHEMA_VERSION, None,
        [ProfileRecord("kinsta", "work", "company", Keyring, None)])),
      None),
    map[WORK := "old"])

  /** Its token is replaced by one that expires. */
  const ROTATION := SetCredential(WORK, Credential(Keyring, "new"), "company", Some("2030"))

  lemma RotationApplies()
    ensures Refusal(LogicalOf(BEFORE_ROTATION), ROTATION).None?
    ensures Rotates(ROTATION, BEFORE_ROTATION)
    ensures Updated(LogicalOf(BEFORE_ROTATION), ROTATION) != Some(LogicalOf(BEFORE_ROTATION))
  {
    var config := LogicalOf(BEFORE_ROTATION);
    var record := config.profiles[0];
    assert Reference(record) == WORK;
    assert Sound(config);
    NormalizeDecidesSoundness(config);
    assert Normalize(config).value.profiles == [record];
    assert ValidExpiry(Some("2030"));
    ApplicableCanCommit(config, ROTATION);
    UpdateIsLocal(config, ROTATION, WORK);
  }

  /** With nothing failing, this rotation passes through a state that a crash would leave behind: the
      new token under the old configuration. */
  method RotationExample() returns (states: seq<Durable>)
    ensures states != [] && states[0] == BEFORE_ROTATION
    ensures exists k ::
      && 0 < k < |states| - 1 && LogicalOf(states[k]) == LogicalOf(BEFORE_ROTATION)
      && Entry(states[k].keyring, WORK) == Some("new")
    ensures LogicalOf(states[|states| - 1]) != LogicalOf(BEFORE_ROTATION)
  {
    RotationApplies();
    var episode := RunProcess(Unix, BEFORE_ROTATION, Process(ROTATION, NO_FAULTS, None));
    states := episode.states;
    assert Smooth(NO_FAULTS) && episode.outcome.Ok?;
    var k := TornInside(ROTATION, states);
  }

  /** A torn state of an operation that changes the configuration is neither its first nor its last,
      and shows the new token. */
  lemma TornInside(op: Operation, states: seq<Durable>) returns (k: nat)
    requires SafeSince(op, states, 0) && TornSince(states, 0)
    requires LogicalOf(states[|states| - 1]) != LogicalOf(states[0])
    ensures 0 < k < |states| - 1 && LogicalOf(states[k]) == LogicalOf(states[0])
    ensures Staged(op).Some? && Entry(states[k].keyring, op.reference) == Staged(op)
  {
    k :| 0 <= k < |states| && Torn(states[0], states[k]);
    assert CrashSafe(op, states[0], states[k]);
    OnlyRotationIsTorn(op, states[0], states[k]);
  }
}
