/** The hand-written scanners that look at a command line clap has rejected: where a remote command
    begins, and whether JSON output was asked for before it. */
module ArgumentScan {
  import opened Common
  import opened ArgumentOptions
  import opened CommandPath

  /** Where the remote command of a root-level `ssh run` begins. */
  function RemoteCommand(arguments: seq<Argument>): Option<nat> {
    Boundary(Kinds(arguments), 1)
  }

  /** `ssh_run_remote_boundary`. */
  method RemoteBoundary(arguments: seq<Argument>) returns (boundary: Option<nat>)
    ensures boundary == RemoteCommand(arguments)
  {
    ghost var kinds := Kinds(arguments);
    var index := 1;
    while index < |arguments|
      invariant index >= 1 && Walk(ForSsh, kinds, index) == Walk(ForSsh, kinds, 1)
      decreases |arguments| - index
    {
      var kind := LookAt(arguments, index);
      match kind {
        case Foreign => return None;
        case Dashes => return None;
        case Global(width) => index := index + width;
        case UnknownShort => index := index + 1;
        case UnknownLong(_) => index := index + 1;
        case Word(text) =>
          if text != "ssh" {
            return None;
          }
          boundary := RemoteBoundaryFrom(arguments, index);
          return;
      }
    }
    return None;
  }

  /** `ssh_run_remote_boundary_from`: the same loop with a stage. */
  method RemoteBoundaryFrom(arguments: seq<Argument>, start: nat) returns (boundary: Option<nat>)
    ensures boundary == BoundaryFrom(Kinds(arguments), start + 1)
  {
    ghost var kinds := Kinds(arguments);
    var running := false;
    var index := start + 1;
    while index < |arguments|
      invariant if running then Walk(ForCommand, kinds, index) == BoundaryFrom(kinds, start + 1)
                else Walk(ForRun, kinds, index) == Walk(ForRun, kinds, start + 1)
      decreases |arguments| - index
    {
      var kind := LookAt(arguments, index);
      if kind.Foreign? || kind.Dashes? {
        return if running then Some(index) else None;
      }
      if kind.Global? {
        index := index + kind.width;
        continue;
      }
      if kind.UnknownShort? {
        if running {
          return Some(index);
        }
        index := index + 1;
        continue;
      }
      if running {
        if kind.UnknownLong? && kind.run.Some? {
          index := index + kind.run.value;
          continue;
        }
        return Some(index);
      }
      if kind.UnknownLong? {
        index := index + 1;
        continue;
      }
      if kind.text != "run" {
        return None;
      }
      running := true;
      index := index + 1;
    }
    return None;
  }

  /** `next_subcommand_candidate`: the next argument that names a subcommand, and the index after
      it. */
  method NextSubcommandCandidate(arguments: seq<Argument>, start: nat)
    returns (candidate: Option<(string, nat)>)
    ensures match Walk(ForAny, Kinds(arguments), start)
      case None => candidate == None
      case Some(k) => k < |arguments| && arguments[k].Text?
                      && candidate == Some((arguments[k].value, k + 1))
  {
    ghost var kinds := Kinds(arguments);
    var index := start;
    while index < |arguments|
      invariant Walk(ForAny, kinds, index) == Walk(ForAny, kinds, start)
      decreases |arguments| - index
    {
      var kind := LookAt(arguments, index);
      if kind.Global? {
        index := index + kind.width;
        continue;
      }
      if !kind.Word? {
        return None;
      }
      return Some((kind.text, index + 1));
    }
    return None;
  }

  /** A command line on which the two readings of the command path differ: only the boundary scan
      goes on behind `--x`. */
  lemma BrokenCommandPath()
    ensures var kinds :=
        Kinds([Text("hb"), Text("--x"), Text("ssh"), Text("run"), Text("uptime")]);
      && SubcommandPath(kinds, 1).None? && Boundary(kinds, 1) == Some(4)
      && SubcommandPath(Mend(kinds), 1) == Some(4)
  {
    var arguments := [Text("hb"), Text("--x"), Text("ssh"), Text("run"), Text("uptime")];
    ShortDashes();
    KindAt(arguments, 1);
    WordAt(arguments, 2, "ssh");
    WordAt(arguments, 3, "run");
    WordAt(arguments, 4, "uptime");
    BrokenKinds(Kinds(arguments));
  }

  lemma ShortDashes()
    ensures Classify(Text("--x")).UnknownLong?
  {
    OptionsAreDashed();
    FitsNone(GLOBAL_OPTIONS, 0, "--x");
  }

  lemma BrokenKinds(kinds: seq<Kind>)
    requires |kinds| == 5 && kinds[1].UnknownLong?
    requires kinds[2] == Word("ssh") && kinds[3] == Word("run") && kinds[4].Word?
    ensures SubcommandPath(kinds, 1).None? && Boundary(kinds, 1) == Some(4)
    ensures SubcommandPath(Mend(kinds), 1) == Some(4)
  {
    assert Walk(ForSsh, kinds, 1) == Walk(ForSsh, kinds, 2) == Some(2);
    assert Walk(ForRun, kinds, 3) == Some(3) && Walk(ForCommand, kinds, 4) == Some(4);
    assert Walk(ForAny, Mend(kinds), 1) == Walk(ForAny, Mend(kinds), 2) == Some(2);
    assert Walk(ForAny, Mend(kinds), 3) == Some(3);
  }

  // ---------------------------------------------------------------- the output scan

  /** What the output scan does with an argument: stop at `--`, or go on past it, and past the value
      if it is an output option without one of its own, with the output it chooses, if any. */
  datatype OutputStep = Stop | Go(choice: Option<bool>, width: Width)

  function OutputStepAt(argument: Argument, next: Option<string>): OutputStep {
    if argument.NonUnicode? then Go(None, 1)
    else
      var a := argument.value;
      if IsDashes(a) then Stop
      else if a == "--output" || a == "-o" then Go(OutputOf(next), 2)
      else if IsShort(a) then
        var scan := ScanShort(a, next);
        Go(scan.output, if scan.consumesNext then 2 else 1)
      else if StartsWith(a, "--output=") then Go(RequestedOutput(a[|"--output="|..]), 1)
      else Go(None, 1)
  }

  /** Only an option that takes up the next argument depends on it, and on nothing else. */
  lemma NextDecides(argument: Argument, next: Option<string>)
    ensures var alone, step := OutputStepAt(argument, None), OutputStepAt(argument, next);
      match alone
      case Stop => step == Stop
      case Go(choice, width) =>
        step == Go(if width == 2 then OutputOf(next) else choice, width)
  {
    if argument.Text? && IsShort(argument.value) {
      ClusterShape(argument.value[1..], next);
      ClusterShape(argument.value[1..], None);
    }
  }

  /** The last output choice before `limit`, scanning from `index`. */
  function OutputScan(
    arguments: seq<Argument>, index: nat, limit: nat, explicit: Option<bool>): Option<bool>
    requires limit <= |arguments|
    decreases limit - index
  {
    if index >= limit then explicit
    else
      match OutputStepAt(arguments[index], Next(arguments, index))
      case Stop => explicit
      case Go(choice, width) => OutputScan(arguments, index + width, limit, Or(choice, explicit))
  }

  function Or(first: Option<bool>, second: Option<bool>): Option<bool> {
    if first.Some? then first else second
  }

  /** A later choice overrides an earlier one, and without a later one the earlier stands. */
  lemma {:induction false} LastChoiceWins(
    arguments: seq<Argument>, index: nat, limit: nat, explicit: Option<bool>)
    requires limit <= |arguments|
    ensures OutputScan(arguments, index, limit, explicit)
         == Or(OutputScan(arguments, index, limit, None), explicit)
    decreases limit - index
  {
    if index < limit {
      match OutputStepAt(arguments[index], Next(arguments, index))
      case Stop =>
      case Go(choice, width) =>
        LastChoiceWins(arguments, index + width, limit, Or(choice, explicit));
        LastChoiceWins(arguments, index + width, limit, choice);
    }
  }

  function ScanLimit(arguments: seq<Argument>): (limit: nat)
    ensures limit <= |arguments|
  {
    match RemoteCommand(arguments)
    case Some(boundary) =>
      BoundaryInside(arguments);
      boundary
    case None => |arguments|
  }

  lemma BoundaryInside(arguments: seq<Argument>)
    requires RemoteCommand(arguments).Some?
    ensures 2 < RemoteCommand(arguments).value < |arguments|
  {
    var ssh, run := BoundaryWithin(Kinds(arguments), 1);
  }

  /** Whether the fallback asks for machine output; the environment decides if no argument does. */
  function FallbackOutput(arguments: seq<Argument>, environmentSaysJson: bool): bool {
    match OutputScan(arguments, 1, ScanLimit(arguments), None)
    case Some(output) => output
    case None => environmentSaysJson
  }

  /** What the loop below does with one argument. */
  method ReadOutput(argument: Argument, next: Option<string>) returns (step: OutputStep)
    ensures step == OutputStepAt(argument, next)
  {
    if argument.NonUnicode? {
      return Go(None, 1);
    }
    var a := argument.value;
    if IsDashes(a) {
      return Stop;
    }
    if a == "--output" || a == "-o" {
      return Go(if next.Some? then RequestedOutput(next.value) else None, 2);
    }
    if IsShort(a) {
      var scan := ScanShortOptions(a, next);
      return Go(scan.output, if scan.consumesNext then 2 else 1);
    }
    if StartsWith(a, "--output=") {
      return Go(RequestedOutput(a[|"--output="|..]), 1);
    }
    return Go(None, 1);
  }

  /** `machine_output_requested`. `parsed` is clap's answer, if clap accepted the arguments. */
  method MachineOutputRequested(
    parsed: Option<bool>, arguments: seq<Argument>, environmentSaysJson: bool)
    returns (machine: bool)
    ensures machine ==
      if parsed.Some? then parsed.value else FallbackOutput(arguments, environmentSaysJson)
  {
    if parsed.Some? {
      return parsed.value;
    }
    var explicit: Option<bool> := None;
    var index := 1;
    var boundary := RemoteBoundary(arguments);
    if boundary.Some? {
      BoundaryInside(arguments);
    }
    var limit := if boundary.Some? then boundary.value else |arguments|;
    while index < limit
      invariant index >= 1
      invariant OutputScan(arguments, index, limit, explicit)
             == OutputScan(arguments, 1, limit, None)
      decreases limit - index
    {
      var step := ReadOutput(arguments[index], Next(arguments, index));
      if step.Stop? {
        break;
      }
      explicit := Or(step.choice, explicit);
      index := index + step.width;
    }
    machine := if explicit.Some? then explicit.value else environmentSaysJson;
  }

  // ---------------------------------------------------------------- locality

  /** A remote command begins inside the command line, behind `ssh` and `run`, with an argument that
      is no option of `ssh run`. */
  lemma RemoteCommandWithin(arguments: seq<Argument>)
    ensures RemoteCommand(arguments).Some? ==>
      var b := RemoteCommand(arguments).value;
      && b < |arguments| && BeginsCommand(arguments[b])
      && exists ssh, run ::
           1 <= ssh < run < b && arguments[ssh] == Text("ssh") && arguments[run] == Text("run")
  {
    if RemoteCommand(arguments).Some? {
      var ssh, run := BoundaryWithin(Kinds(arguments), 1);
      KindAt(arguments, RemoteCommand(arguments).value);
      WordAt(arguments, ssh, "ssh");
      WordAt(arguments, run, "run");
    }
  }

  lemma WordAt(arguments: seq<Argument>, i: nat, word: string)
    requires i < |arguments|
    ensures Kinds(arguments)[i] == Word(word) <==> arguments[i] == Text(word) && !HasDash(word)
  {
    KindAt(arguments, i);
    WordsAreWords(arguments[i], word);
  }

  /** The argument cannot be an option of `ssh run`. */
  predicate BeginsCommand(argument: Argument) {
    StepOf(ForCommand, Classify(argument)) == Enter
  }

  /** What precedes the remote command decides where it begins. */
  lemma RemoteCommandLocal(arguments: seq<Argument>, other: seq<Argument>, b: nat)
    requires RemoteCommand(arguments) == Some(b)
    requires SameBefore(arguments, other, b) && BeginsCommand(other[b])
    ensures RemoteCommand(other) == Some(b)
  {
    var kinds, others := Kinds(arguments), Kinds(other);
    forall i | 0 <= i < b ensures kinds[i] == others[i] {
      KindAt(arguments, i);
      KindAt(other, i);
    }
    KindAt(other, b);
    BoundaryLocal(kinds, others, 1, b);
  }

  lemma {:induction false} OutputScanLocal(
    arguments: seq<Argument>, other: seq<Argument>, index: nat, b: nat, explicit: Option<bool>)
    requires SameBefore(arguments, other, b) && arguments[b] == other[b]
    ensures OutputScan(arguments, index, b, explicit) == OutputScan(other, index, b, explicit)
    decreases b - index
  {
    if index < b {
      assert Next(arguments, index) == Next(other, index);
      match OutputStepAt(arguments[index], Next(arguments, index))
      case Stop =>
      case Go(choice, width) =>
        OutputScanLocal(arguments, other, index + width, b, Or(choice, explicit));
    }
  }

  /** Nothing after the first argument of the remote command has any influence: command lines that
      agree up to and including it have the same boundary and the same output mode. */
  lemma RemoteTailIrrelevant(
    arguments: seq<Argument>, other: seq<Argument>, b: nat, environmentSaysJson: bool)
    requires RemoteCommand(arguments) == Some(b)
    requires SameBefore(arguments, other, b) && arguments[b] == other[b]
    ensures RemoteCommand(other) == Some(b)
    ensures FallbackOutput(other, environmentSaysJson)
         == FallbackOutput(arguments, environmentSaysJson)
  {
    RemoteCommandWithin(arguments);
    RemoteCommandLocal(arguments, other, b);
    OutputScanLocal(arguments, other, 1, b, None);
  }

  // ---------------------------------------------------------------- the first remote argument

  /** The output scan, on its way to `limit`, stops at an output option whose value would be the
      argument at `limit` itself. */
  predicate AwaitsValueAt(arguments: seq<Argument>, index: nat, limit: nat)
    requires limit <= |arguments|
    decreases limit - index
  {
    if index >= limit then false
    else
      match OutputStepAt(arguments[index], None)
      case Stop => false
      case Go(_, width) =>
        (width == 2 && index + 1 == limit) || AwaitsValueAt(arguments, index + width, limit)
  }

  lemma {:induction false} OutputScanWithoutToken(
    arguments: seq<Argument>, other: seq<Argument>, index: nat, b: nat, explicit: Option<bool>)
    requires SameBefore(arguments, other, b)
    requires !AwaitsValueAt(arguments, index, b)
    ensures OutputScan(arguments, index, b, explicit) == OutputScan(other, index, b, explicit)
    decreases b - index
  {
    if index < b {
      NextDecides(arguments[index], Next(arguments, index));
      NextDecides(arguments[index], Next(other, index));
      match OutputStepAt(arguments[index], Next(arguments, index))
      case Stop =>
      case Go(choice, width) =>
        assert index + 1 < b ==> Next(arguments, index) == Next(other, index);
        OutputScanWithoutToken(arguments, other, index + width, b, Or(choice, explicit));
    }
  }

  lemma {:induction false} OutputScanReadsToken(
    arguments: seq<Argument>, index: nat, b: nat, explicit: Option<bool>, output: bool)
    requires b < |arguments| && AwaitsValueAt(arguments, index, b)
    requires arguments[b].Text? && RequestedOutput(arguments[b].value) == Some(output)
    ensures OutputScan(arguments, index, b, explicit) == Some(output)
    decreases b - index
  {
    NextDecides(arguments[index], Next(arguments, index));
    match OutputStepAt(arguments[index], Next(arguments, index))
    case Stop =>
    case Go(choice, width) =>
      if width == 1 || index + 1 < b {
        OutputScanReadsToken(arguments, index + width, b, Or(choice, explicit), output);
      }
  }

  lemma {:induction false} AwaitsLocal(
    arguments: seq<Argument>, other: seq<Argument>, index: nat, b: nat)
    requires SameBefore(arguments, other, b)
    ensures AwaitsValueAt(arguments, index, b) == AwaitsValueAt(other, index, b)
    decreases b - index
  {
    if index < b {
      AwaitsLocal(arguments, other, index + 1, b);
      AwaitsLocal(arguments, other, index + 2, b);
    }
  }

  lemma WordsBeginCommands(word: string)
    requires !HasDash(word)
    ensures BeginsCommand(Text(word))
  {
    WordsAreWords(Text(word), word);
  }

  lemma OutputWordDecides(
    arguments: seq<Argument>, b: nat, word: string, output: bool, environmentSaysJson: bool)
    requires RemoteCommand(arguments) == Some(b) && b < |arguments|
    requires AwaitsValueAt(arguments, 1, b)
    requires BeginsCommand(Text(word)) && RequestedOutput(word) == Some(output)
    ensures FallbackOutput(arguments[b := Text(word)], environmentSaysJson) == output
  {
    var other := arguments[b := Text(word)];
    RemoteCommandLocal(arguments, other, b);
    AwaitsLocal(arguments, other, 1, b);
    OutputScanReadsToken(other, 1, b, None, output);
  }

  lemma TokenIsIgnored(
    arguments: seq<Argument>, b: nat, token: Argument, environmentSaysJson: bool)
    requires RemoteCommand(arguments) == Some(b) && b < |arguments|
    requires !AwaitsValueAt(arguments, 1, b) && BeginsCommand(token)
    ensures FallbackOutput(arguments[b := token], environmentSaysJson)
         == FallbackOutput(arguments, environmentSaysJson)
  {
    var other := arguments[b := token];
    RemoteCommandLocal(arguments, other, b);
    OutputScanWithoutToken(arguments, other, 1, b, None);
  }

  /** A waiting output scan takes one of the two words for an answer it would not give anyway. */
  lemma AwaitedTokenMatters(arguments: seq<Argument>, b: nat, environmentSaysJson: bool)
    returns (token: Argument)
    requires RemoteCommand(arguments) == Some(b) && b < |arguments|
    requires AwaitsValueAt(arguments, 1, b)
    ensures FallbackOutput(arguments[b := Text("json")], environmentSaysJson)
    ensures !FallbackOutput(arguments[b := Text("human")], environmentSaysJson)
    ensures BeginsCommand(token)
      && FallbackOutput(arguments[b := token], environmentSaysJson)
           != FallbackOutput(arguments, environmentSaysJson)
  {
    WordsBeginCommands("json");
    WordsBeginCommands("human");
    OutputWordDecides(arguments, b, "json", true, environmentSaysJson);
    OutputWordDecides(arguments, b, "human", false, environmentSaysJson);
    token := if FallbackOutput(arguments, environmentSaysJson) then Text("human") else Text("json");
  }

  /** The first remote argument itself, though, is not always without influence. It decides the
      output mode exactly when the output scan is waiting for a value there; then a remote command
      called `json` or `human` is taken for one. Otherwise replacing it changes nothing. */
  lemma FirstRemoteArgumentMatters(
    arguments: seq<Argument>, b: nat, environmentSaysJson: bool)
    requires RemoteCommand(arguments) == Some(b) && b < |arguments|
    ensures AwaitsValueAt(arguments, 1, b) <==>
      exists token :: BeginsCommand(token)
        && FallbackOutput(arguments[b := token], environmentSaysJson)
             != FallbackOutput(arguments, environmentSaysJson)
    ensures AwaitsValueAt(arguments, 1, b) ==>
      && FallbackOutput(arguments[b := Text("json")], environmentSaysJson)
      && !FallbackOutput(arguments[b := Text("human")], environmentSaysJson)
  {
    if AwaitsValueAt(arguments, 1, b) {
      var token := AwaitedTokenMatters(arguments, b, environmentSaysJson);
    } else {
      forall token | BeginsCommand(token)
        ensures FallbackOutput(arguments[b := token], environmentSaysJson)
          == FallbackOutput(arguments, environmentSaysJson)
      {
        TokenIsIgnored(arguments, b, token, environmentSaysJson);
      }
    }
  }

  /** `hb ssh run --color --output` and one more word. */
  function ColorOutput(word: string): seq<Argument> {
    [Text("hb"), Text("ssh"), Text("run"), Text("--color"), Text("--output"), Text(word)]
  }

  lemma ColorHasValue()
    ensures Classify(Text("--color")) == Global(2)
  {
    assert TableWidth(GLOBAL_OPTIONS, 1, "--color") == Some(2);
  }

  lemma ColorOutputBoundary(word: string)
    requires !HasDash(word)
    ensures RemoteCommand(ColorOutput(word)) == Some(5)
  {
    var arguments := ColorOutput(word);
    WordAt(arguments, 1, "ssh");
    WordAt(arguments, 2, "run");
    ColorHasValue();
    KindAt(arguments, 3);
    WordAt(arguments, 5, word);
    PathPastOption(Kinds(arguments));
  }

  lemma PathPastOption(kinds: seq<Kind>)
    requires |kinds| == 6 && kinds[1] == Word("ssh") && kinds[2] == Word("run")
    requires kinds[3] == Global(2) && kinds[5].Word?
    ensures Boundary(kinds, 1) == Some(5)
  {
    assert Walk(ForSsh, kinds, 1) == Some(1) && Walk(ForRun, kinds, 2) == Some(2);
    assert Walk(ForCommand, kinds, 3) == Walk(ForCommand, kinds, 5) == Some(5);
  }

  lemma ColorOutputAwaits(word: string)
    ensures AwaitsValueAt(ColorOutput(word), 1, 5)
  {
    var arguments := ColorOutput(word);
    assert AwaitsValueAt(arguments, 4, 5);
    assert AwaitsValueAt(arguments, 3, 5);
    assert AwaitsValueAt(arguments, 2, 5);
  }

  /** A command line on which it does: `--color` takes `--output` as its value when the boundary is
      sought, but `--output` takes the remote command as its own when the output mode is. */
  lemma MisreadCommandLine()
    ensures RemoteCommand(ColorOutput("json")) == Some(5) == RemoteCommand(ColorOutput("human"))
    ensures FallbackOutput(ColorOutput("json"), false)
    ensures !FallbackOutput(ColorOutput("human"), false)
  {
    ColorOutputBoundary("json");
    ColorOutputBoundary("human");
    ColorOutputAwaits("json");
    ColorOutputAwaits("human");
    OutputScanReadsToken(ColorOutput("json"), 1, 5, None, true);
    OutputScanReadsToken(ColorOutput("human"), 1, 5, None, false);
  }
}
