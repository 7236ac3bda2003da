/** Whole command lines in terms of that grammar: where the scanners find a subcommand and a remote
    command, and which argument chooses the output mode. */
module CommandGrammar {
  import opened Common
  import opened ArgumentOptions
  import opened CommandPath
  import opened ArgumentScan
  import opened OptionGrammar

  // ---------------------------------------------------------------- the command path

  /** Nothing but options, each with the value it takes. */
  ghost predicate OptionsOnly(scanner: Scanner, words: seq<Argument>)
    decreases |words|
  {
    || words == []
    || (words[0].Text? && StandsAlone(scanner, words[0].value)
        && OptionsOnly(scanner, words[1..]))
    || (|words| >= 2 && words[0].Text? && TakesValue(scanner, words[0].value)
        && OptionsOnly(scanner, words[2..]))
  }

  /** There is nothing but options from `index` to `k`, and there stands what is sought. */
  ghost predicate FoundAt(scanner: Scanner, arguments: seq<Argument>, index: nat, k: nat) {
    && index <= k < |arguments| && OptionsOnly(scanner, arguments[index..k])
    && IsSought(scanner, arguments[k])
  }

  /** A walk ends at what it seeks if there is nothing but options before it, and only then. */
  lemma {:induction false} WalkSpelled(
    scanner: Scanner, arguments: seq<Argument>, index: nat, k: nat)
    ensures Walk(scanner, Kinds(arguments), index) == Some(k) <==>
      FoundAt(scanner, arguments, index, k)
    decreases |arguments| - index
  {
    if index < |arguments| {
      KindAt(arguments, index);
      StepSpelled(scanner, arguments[index]);
      var step := StepOf(scanner, Kinds(arguments)[index]);
      if step.Skip? {
        WalkSpelled(scanner, arguments, index + step.width, k);
      }
      if index < k < |arguments| {
        var words := arguments[index..k];
        assert words[0] == arguments[index] && words[1..] == arguments[index + 1..k];
        assert |words| >= 2 ==> words[2..] == arguments[index + 2..k];
      }
    }
  }

  /** Where the remote command of a root-level `ssh run` begins, on any command line: behind `ssh`
      and `run`, with nothing but options before, between and behind them, at the first argument that
      is no option of `ssh run` and no value of one. */
  lemma RemoteCommandSpelled(arguments: seq<Argument>, b: nat)
    ensures RemoteCommand(arguments) == Some(b) <==>
      exists ssh: nat, run: nat :: RemoteCommandAt(arguments, ssh, run, b)
  {
    if RemoteCommand(arguments) == Some(b) {
      var ssh, run := PathOf(arguments, b);
    }
    forall ssh: nat, run: nat | RemoteCommandAt(arguments, ssh, run, b)
      ensures RemoteCommand(arguments) == Some(b)
    {
      PathLeadsTo(arguments, ssh, run, b);
    }
  }

  /** Behind the options stands `ssh`, behind more options `run`, and behind yet more the command. */
  ghost predicate RemoteCommandAt(arguments: seq<Argument>, ssh: nat, run: nat, b: nat) {
    && FoundAt(ForSsh, arguments, 1, ssh) && FoundAt(ForRun, arguments, ssh + 1, run)
    && FoundAt(ForCommand, arguments, run + 1, b)
  }

  lemma PathOf(arguments: seq<Argument>, b: nat) returns (ssh: nat, run: nat)
    requires RemoteCommand(arguments) == Some(b)
    ensures RemoteCommandAt(arguments, ssh, run, b)
  {
    var kinds := Kinds(arguments);
    ssh := Walk(ForSsh, kinds, 1).value;
    WalkSpelled(ForSsh, arguments, 1, ssh);
    run := Walk(ForRun, kinds, ssh + 1).value;
    WalkSpelled(ForRun, arguments, ssh + 1, run);
    WalkSpelled(ForCommand, arguments, run + 1, b);
  }

  lemma PathLeadsTo(arguments: seq<Argument>, ssh: nat, run: nat, b: nat)
    requires RemoteCommandAt(arguments, ssh, run, b)
    ensures RemoteCommand(arguments) == Some(b)
  {
    var kinds := Kinds(arguments);
    assert Walk(ForSsh, kinds, 1) == Some(ssh) by {
      WalkSpelled(ForSsh, arguments, 1, ssh);
    }
    assert Walk(ForRun, kinds, ssh + 1) == Some(run) by {
      WalkSpelled(ForRun, arguments, ssh + 1, run);
    }
    assert Walk(ForCommand, kinds, run + 1) == Some(b) by {
      WalkSpelled(ForCommand, arguments, run + 1, b);
    }
    WalksMeet(kinds, ssh, run, b);
  }

  lemma WalksMeet(kinds: seq<Kind>, ssh: nat, run: nat, b: nat)
    requires Walk(ForSsh, kinds, 1) == Some(ssh) && Walk(ForRun, kinds, ssh + 1) == Some(run)
    requires Walk(ForCommand, kinds, run + 1) == Some(b)
    ensures Boundary(kinds, 1) == Some(b)
  {
  }

  /** The next subcommand, on any command line: the first argument behind known options that does not
      look like one. */
  lemma SubcommandSpelled(arguments: seq<Argument>, start: nat, k: nat)
    ensures Walk(ForAny, Kinds(arguments), start) == Some(k) <==>
      && start <= k < |arguments| && OptionsOnly(ForAny, arguments[start..k])
      && arguments[k].Text? && !("-" <= arguments[k].value)
  {
    WalkSpelled(ForAny, arguments, start, k);
  }

  // ---------------------------------------------------------------- the output mode

  /** The output option, with its value still to come. */
  ghost predicate AwaitsOutput(argument: Argument) {
    argument.Text? && (argument.value == "--output" || EndsInO(argument.value))
  }

  /** The argument asks for a given output, by itself or with the next one. */
  ghost predicate Says(argument: Argument, next: Option<string>, output: string) {
    && argument.Text?
    && (|| argument.value == "--output=" + output
        || (exists flags :: Flags(flags)
              && (argument.value == Cluster(flags, output)
                  || argument.value == Cluster(flags, "=" + output)))
        || (AwaitsOutput(argument) && next == Some(output)))
  }

  /** Reading the arguments from `index` on, the scan for the output mode comes by `k`: it takes one
      after the other, an output option with its value, and goes no further than `--`. */
  ghost predicate ComesBy(arguments: seq<Argument>, index: nat, k: nat)
    decreases k - index
  {
    || index == k
    || (index < k && index < |arguments| && arguments[index] != Text("--")
        && ComesBy(arguments, index + (if AwaitsOutput(arguments[index]) then 2 else 1), k))
  }

  /** The two values the output option knows. */
  predicate IsOutput(value: string) {
    value == "json" || value == "human"
  }

  lemma RequestedOnly(value: string, output: string)
    requires IsOutput(output)
    ensures RequestedOutput(value) == RequestedOutput(output) <==> value == output
    ensures RequestedOutput(output).Some?
  {
  }

  lemma ClusterSays(a: string, next: Option<string>, output: string)
    requires IsShort(a) && IsOutput(output)
    ensures ScanShort(a, next).output == RequestedOutput(output) <==> Says(Text(a), next, output)
  {
    RequestedOnly(output, output);
    if Says(Text(a), next, output) {
      SaidIsScanned(a, next, output);
    } else if ScanShort(a, next).output == RequestedOutput(output) {
      ScannedIsSaid(a, next, output);
    }
  }

  lemma SaidIsScanned(a: string, next: Option<string>, output: string)
    requires IsShort(a) && IsOutput(output) && Says(Text(a), next, output)
    ensures ScanShort(a, next).output == RequestedOutput(output)
  {
    if AwaitsOutput(Text(a)) && next == Some(output) {
      var flags :| Flags(flags) && a == Cluster(flags, "");
      ClusterSpelled(flags, "", next);
    } else {
      var flags :| Flags(flags) && (a == Cluster(flags, output) || a == Cluster(flags, "=" + output));
      ClusterSpelled(flags, output, next);
      ClusterSpelled(flags, "=" + output, next);
      assert ("=" + output)[1..] == output;
    }
  }

  lemma ScannedIsSaid(a: string, next: Option<string>, output: string)
    requires IsShort(a) && IsOutput(output)
    requires ScanShort(a, next).output == RequestedOutput(output)
    ensures Says(Text(a), next, output)
  {
    RequestedOnly(output, output);
    ScannedIsKnown(a, next);
    var flags, rest := SpelledWithO(a, next);
    ClusterSpelled(flags, rest, next);
    if rest == "" {
      assert EndsInO(a);
      RequestedOnly(next.value, output);
    } else if rest[0] == '=' {
      RequestedOnly(rest[1..], output);
      assert rest == "=" + output;
    } else {
      RequestedOnly(rest, output);
    }
  }

  lemma ScannedIsKnown(a: string, next: Option<string>)
    requires IsShort(a)
    ensures ScanShort(a, next).output.Some? ==> ScanShort(a, next).known
  {
    if HasDash(a) && |a| > 1 {
      FirstOtherDecides(a[1..], next);
    }
  }

  lemma SpelledWithO(a: string, next: Option<string>) returns (flags: string, rest: string)
    requires IsShort(a) && ScanShort(a, next).known && ScanShort(a, next).output.Some?
    ensures Flags(flags) && a == Cluster(flags, rest)
  {
    var alone;
    flags, rest, alone := KnownIsSpelled(a, next);
    if alone {
      FlagsSpelled(flags, next);
    }
  }

  /** What the scan makes of one argument. */
  lemma OutputStepSpelled(argument: Argument, next: Option<string>, output: string)
    requires IsOutput(output)
    ensures var step := OutputStepAt(argument, next);
      && (step == Stop <==> argument == Text("--"))
      && (step.Go? ==>
            && step.width == (if AwaitsOutput(argument) then 2 else 1)
            && (step.choice == RequestedOutput(output) <==> Says(argument, next, output)))
  {
    RequestedOnly(output, output);
    if argument.Text? {
      var a := argument.value;
      ShortSpelled(a);
      if IsShort(a) {
        ClusterSays(a, next, output);
        ClusterShape(a[1..], next);
      } else {
        LongOutputSays(a, next, output);
      }
    }
  }

  lemma LongOutputSays(a: string, next: Option<string>, output: string)
    requires !IsShort(a) && IsOutput(output)
    ensures Says(Text(a), next, output) <==>
      a == "--output=" + output || (a == "--output" && next == Some(output))
    ensures StartsWith(a, "--output=") ==>
      (a == "--output=" + output <==> RequestedOutput(a[9..]) == RequestedOutput(output))
  {
    ShortSpelled(a);
    if StartsWith(a, "--output=") {
      RequestedOnly(a[9..], output);
      assert a == "--output=" + a[9..];
      assert ("--output=" + output)[9..] == output;
    }
    forall flags, rest | Flags(flags) && a == Cluster(flags, rest) ensures false {
      ClusterSpelled(flags, rest, None);
    }
  }

  /** The scan waits for a value at `limit` if it comes by an output option right before it. */
  lemma {:induction false} AwaitsSpelled(arguments: seq<Argument>, index: nat, limit: nat)
    requires limit <= |arguments|
    ensures AwaitsValueAt(arguments, index, limit) <==>
      && index < limit && ComesBy(arguments, index, limit - 1)
      && AwaitsOutput(arguments[limit - 1])
    decreases limit - index
  {
    if index < limit {
      OutputStepSpelled(arguments[index], None, "json");
      AwaitsSpelled(arguments, index + 1, limit);
      AwaitsSpelled(arguments, index + 2, limit);
      if arguments[index] == Text("--") {
        ShortSpelled("--");
      }
    }
  }

  /** The scan, starting at `index` and ending before `limit`, comes by an argument that asks for an
      output. */
  ghost predicate SaidAt(
    arguments: seq<Argument>, index: nat, limit: nat, i: nat, output: string)
    requires limit <= |arguments|
  {
    i < limit && ComesBy(arguments, index, i) && Says(arguments[i], Next(arguments, i), output)
  }

  /** It does, and by no such argument after that. */
  ghost predicate LastSaidAt(
    arguments: seq<Argument>, index: nat, limit: nat, i: nat, output: string)
    requires limit <= |arguments|
  {
    && SaidAt(arguments, index, limit, i, output)
    && forall j: nat :: i < j ==>
         !SaidAt(arguments, index, limit, j, "json") && !SaidAt(arguments, index, limit, j, "human")
  }

  ghost predicate NothingSaid(arguments: seq<Argument>, index: nat, limit: nat)
    requires limit <= |arguments|
  {
    forall j: nat ::
      !SaidAt(arguments, index, limit, j, "json") && !SaidAt(arguments, index, limit, j, "human")
  }

  function Word(output: bool): string {
    if output then "json" else "human"
  }

  /** Behind its first argument the scan comes by the same ones as if it began there. */
  lemma SaidLater(
    arguments: seq<Argument>, index: nat, limit: nat, i: nat, output: string)
    requires index < limit <= |arguments| && arguments[index] != Text("--")
    ensures var width := if AwaitsOutput(arguments[index]) then 2 else 1;
      SaidAt(arguments, index, limit, i, output) <==>
        if i == index then Says(arguments[index], Next(arguments, index), output)
        else SaidAt(arguments, index + width, limit, i, output)
    ensures SaidAt(arguments, index, limit, i, output) ==> i >= index
  {
  }

  lemma ComesForward(arguments: seq<Argument>, index: nat, limit: nat, i: nat, output: string)
    requires limit <= |arguments| && SaidAt(arguments, index, limit, i, output)
    ensures i >= index
  {
  }

  lemma LastStays(
    arguments: seq<Argument>, index: nat, limit: nat, width: nat, i: nat, output: string)
    requires index < limit <= |arguments| && arguments[index] != Text("--")
    requires width == if AwaitsOutput(arguments[index]) then 2 else 1
    requires LastSaidAt(arguments, index + width, limit, i, output)
    ensures LastSaidAt(arguments, index, limit, i, output)
  {
    ComesForward(arguments, index + width, limit, i, output);
    SaidLater(arguments, index, limit, i, output);
    forall j: nat | i < j
      ensures !SaidAt(arguments, index, limit, j, "json")
      ensures !SaidAt(arguments, index, limit, j, "human")
    {
      SaidLater(arguments, index, limit, j, "json");
      SaidLater(arguments, index, limit, j, "human");
    }
  }

  /** Nothing is said behind the first argument: it is the last word, if it says anything. */
  lemma FirstIsLast(arguments: seq<Argument>, index: nat, limit: nat, width: nat)
    requires index < limit <= |arguments| && arguments[index] != Text("--")
    requires width == if AwaitsOutput(arguments[index]) then 2 else 1
    requires NothingSaid(arguments, index + width, limit)
    ensures forall output :: Says(arguments[index], Next(arguments, index), output) ==>
      LastSaidAt(arguments, index, limit, index, output)
    ensures NothingSaid(arguments, index, limit)
      || Says(arguments[index], Next(arguments, index), "json")
      || Says(arguments[index], Next(arguments, index), "human")
  {
    forall j: nat
      ensures j != index ==> !SaidAt(arguments, index, limit, j, "json")
      ensures j != index ==> !SaidAt(arguments, index, limit, j, "human")
    {
      SaidLater(arguments, index, limit, j, "json");
      SaidLater(arguments, index, limit, j, "human");
    }
  }

  lemma DashesSayNothing(arguments: seq<Argument>, index: nat, limit: nat)
    requires index < limit <= |arguments| && arguments[index] == Text("--")
    ensures NothingSaid(arguments, index, limit)
  {
    LongOutputSays("--", Next(arguments, index), "json");
    LongOutputSays("--", Next(arguments, index), "human");
  }

  /** The result of the scan is what was said last, if anything was said. */
  ghost predicate Tells(
    arguments: seq<Argument>, index: nat, limit: nat, result: Option<bool>)
    requires limit <= |arguments|
  {
    match result
    case None => NothingSaid(arguments, index, limit)
    case Some(output) => exists i: nat :: LastSaidAt(arguments, index, limit, i, Word(output))
  }

  lemma TellsFromBefore(
    arguments: seq<Argument>, index: nat, limit: nat, width: nat, choice: Option<bool>,
    later: Option<bool>)
    requires index < limit <= |arguments| && arguments[index] != Text("--")
    requires width == if AwaitsOutput(arguments[index]) then 2 else 1
    requires choice == Some(true) <==> Says(arguments[index], Next(arguments, index), "json")
    requires choice == Some(false) <==> Says(arguments[index], Next(arguments, index), "human")
    requires Tells(arguments, index + width, limit, later)
    ensures Tells(arguments, index, limit, Or(later, choice))
  {
    if later.Some? {
      var i: nat :| LastSaidAt(arguments, index + width, limit, i, Word(later.value));
      LastStays(arguments, index, limit, width, i, Word(later.value));
    } else {
      FirstIsLast(arguments, index, limit, width);
      if choice.Some? {
        assert Says(arguments[index], Next(arguments, index), Word(choice.value));
        assert LastSaidAt(arguments, index, limit, index, Word(choice.value));
      }
    }
  }

  lemma {:induction false} OutputScanSpelled(arguments: seq<Argument>, index: nat, limit: nat)
    requires limit <= |arguments|
    ensures Tells(arguments, index, limit, OutputScan(arguments, index, limit, None))
    decreases limit - index
  {
    if index < limit {
      var next := Next(arguments, index);
      OutputStepSpelled(arguments[index], next, "json");
      OutputStepSpelled(arguments[index], next, "human");
      match OutputStepAt(arguments[index], next)
      case Stop => DashesSayNothing(arguments, index, limit);
      case Go(choice, width) =>
        OutputScanSpelled(arguments, index + width, limit);
        ScanGoesOn(arguments, index, limit, choice, width);
        TellsFromBefore(arguments, index, limit, width, choice,
          OutputScan(arguments, index + width, limit, None));
    }
  }

  /** A choice stands unless there is a later one. */
  lemma ScanGoesOn(
    arguments: seq<Argument>, index: nat, limit: nat, choice: Option<bool>, width: Width)
    requires index < limit <= |arguments|
    requires OutputStepAt(arguments[index], Next(arguments, index)) == Go(choice, width)
    ensures OutputScan(arguments, index, limit, None)
         == Or(OutputScan(arguments, index + width, limit, None), choice)
  {
    LastChoiceWins(arguments, index + width, limit, choice);
  }

  lemma SaysOneThing(argument: Argument, next: Option<string>)
    ensures !(Says(argument, next, "json") && Says(argument, next, "human"))
  {
    OutputStepSpelled(argument, next, "json");
    OutputStepSpelled(argument, next, "human");
    if argument == Text("--") {
      LongOutputSays("--", next, "json");
    }
  }

  /** What decides the output mode when clap does not: the last argument before the remote command,
      if there is one, that asks for one of the two outputs, among those the scan comes by; and the
      environment if there is no such argument. */
  lemma OutputModeSpelled(arguments: seq<Argument>, environmentSaysJson: bool)
    ensures var limit := if RemoteCommand(arguments).Some? then RemoteCommand(arguments).value
                         else |arguments|;
      && limit <= |arguments|
      && (FallbackOutput(arguments, environmentSaysJson) <==>
            || (exists i: nat :: LastSaidAt(arguments, 1, limit, i, "json"))
            || (environmentSaysJson && NothingSaid(arguments, 1, limit)))
  {
    var limit := ScanLimit(arguments);
    OutputScanSpelled(arguments, 1, limit);
    match OutputScan(arguments, 1, limit, None)
    case None =>
    case Some(output) =>
      var i: nat :| LastSaidAt(arguments, 1, limit, i, Word(output));
      if !output {
        assert SaidAt(arguments, 1, limit, i, "human");
        forall j: nat ensures !LastSaidAt(arguments, 1, limit, j, "json") {
          if i == j {
            SaysOneThing(arguments[i], Next(arguments, i));
          }
        }
      } else {
        assert SaidAt(arguments, 1, limit, i, "json");
      }
  }
}
