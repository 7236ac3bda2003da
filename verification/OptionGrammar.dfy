/** The command lines the hand-written scanners understand, spelled out as a grammar of words, and
    the proof that the scanners read exactly these. */
module OptionGrammar {
  import opened Common
  import opened ArgumentOptions
  import opened CommandPath
  import opened ArgumentScan

  // ---------------------------------------------------------------- short options

  predicate Flags(flags: string) {
    forall c :: c in flags ==> c == 'q' || c == 'h' || c == 'V'
  }

  /** `-`, any flags, `o`, and what follows it. */
  function Cluster(flags: string, rest: string): string {
    "-" + flags + "o" + rest
  }

  /** A cluster whose `o` takes the next argument for its value. */
  ghost predicate EndsInO(a: string) {
    exists flags :: Flags(flags) && a == Cluster(flags, "")
  }

  /** A cluster that needs nothing more: flags alone, or an `o` with its value. */
  ghost predicate ShortAlone(a: string) {
    || (exists flags :: Flags(flags) && flags != "" && a == "-" + flags)
    || (exists flags, rest :: Flags(flags) && rest != "" && a == Cluster(flags, rest))
  }

  lemma {:induction false} FlagRunSpelled(flags: string, rest: string)
    requires Flags(flags) && (rest == "" || !IsFlag(rest[0]))
    ensures FlagRun(flags + rest) == |flags|
  {
    if flags == "" {
      assert flags + rest == rest;
    } else {
      assert flags[0] in flags && forall c :: c in flags[1..] ==> c in flags;
      assert (flags + rest)[0] == flags[0] && (flags + rest)[1..] == flags[1..] + rest;
      FlagRunSpelled(flags[1..], rest);
    }
  }

  /** What a spelled cluster means. */
  lemma ClusterSpelled(flags: string, rest: string, next: Option<string>)
    requires Flags(flags)
    ensures IsShort(Cluster(flags, rest))
    ensures ScanShort(Cluster(flags, rest), next) ==
      if rest == "" then ShortScan(OutputOf(next), true, true)
      else ShortScan(RequestedOutput(if rest[0] == '=' then rest[1..] else rest), false, true)
  {
    var cluster := flags + ("o" + rest);
    FlagRunSpelled(flags, "o" + rest);
    FirstOtherDecides(cluster, next);
    assert Cluster(flags, rest)[1..] == cluster && cluster[|flags|] == 'o';
    assert cluster[|flags| + 1..] == rest;
    if rest != "" {
      assert cluster[|flags| + 1] == rest[0] && cluster[|flags| + 2..] == rest[1..];
    }
    assert Cluster(flags, rest)[1] == cluster[0];
    assert flags != "" ==> flags[0] in flags;
  }

  lemma FlagsSpelled(flags: string, next: Option<string>)
    requires Flags(flags) && flags != ""
    ensures IsShort("-" + flags) && ScanShort("-" + flags, next) == ShortScan(None, false, true)
  {
    assert ("-" + flags)[1..] == flags && flags + "" == flags && flags[0] in flags;
    FlagRunSpelled(flags, "");
    FirstOtherDecides(flags, next);
  }

  /** Every known cluster is spelled in one of these ways. */
  lemma KnownIsSpelled(a: string, next: Option<string>)
    returns (flags: string, rest: string, alone: bool)
    requires IsShort(a) && ScanShort(a, next).known
    ensures Flags(flags)
    ensures if alone then flags != "" && a == "-" + flags else a == Cluster(flags, rest)
  {
    var k := FlagRun(a[1..]);
    FirstOtherDecides(a[1..], next);
    RunIsFlags(a[1..], k);
    flags := a[1..][..k];
    alone := k == |a[1..]|;
    rest := "";
    if alone {
      assert flags == a[1..];
    } else {
      SpelledAsCluster(a, k);
      rest := a[k + 2..];
    }
  }

  lemma RunIsFlags(cluster: string, k: nat)
    requires k <= |cluster| && forall i :: 0 <= i < k ==> IsFlag(cluster[i])
    ensures Flags(cluster[..k])
  {
    forall c | c in cluster[..k] ensures c == 'q' || c == 'h' || c == 'V' {
      var i :| 0 <= i < k && cluster[..k][i] == c;
      assert IsFlag(cluster[i]);
    }
  }

  lemma SpelledAsCluster(a: string, k: nat)
    requires HasDash(a) && k + 1 < |a| && a[k + 1] == 'o'
    ensures a == Cluster(a[1..][..k], a[k + 2..])
  {
  }

  lemma ShortSpelled(a: string)
    ensures EndsInO(a) <==>
      IsShort(a) && ScanShort(a, None).known && ScanShort(a, None).consumesNext
    ensures ShortAlone(a) <==>
      IsShort(a) && ScanShort(a, None).known && !ScanShort(a, None).consumesNext
  {
    forall flags, rest | Flags(flags) && a == Cluster(flags, rest)
      ensures IsShort(a) && ScanShort(a, None).known
        && (ScanShort(a, None).consumesNext <==> rest == "")
    {
      ClusterSpelled(flags, rest, None);
    }
    forall flags | Flags(flags) && flags != "" && a == "-" + flags
      ensures IsShort(a) && ScanShort(a, None) == ShortScan(None, false, true)
    {
      FlagsSpelled(flags, None);
    }
    if IsShort(a) && ScanShort(a, None).known {
      var flags, rest, alone := KnownIsSpelled(a, None);
    }
  }

  // ---------------------------------------------------------------- long options

  predicate LongTakesValue(a: string) {
    a == "--output" || a == "--color"
  }

  predicate LongAlone(a: string) {
    || "--output=" <= a || "--color=" <= a
    || a == "--no-input" || a == "--quiet" || a == "--help" || a == "--version"
  }

  ghost predicate GlobalTakesValue(a: string) {
    LongTakesValue(a) || EndsInO(a)
  }

  ghost predicate GlobalAlone(a: string) {
    LongAlone(a) || ShortAlone(a)
  }

  predicate RunTakesValue(a: string) {
    || a == "--profile" || a == "--environment-id" || a == "--site-id" || a == "--kind"
    || a == "--label" || a == "--jobs" || a == "--timeout"
  }

  predicate RunHasValue(a: string) {
    || "--profile=" <= a || "--environment-id=" <= a || "--site-id=" <= a || "--kind=" <= a
    || "--label=" <= a || "--jobs=" <= a || "--timeout=" <= a
  }

  predicate RunFlag(a: string) {
    a == "--all" || a == "--fail-fast" || a == "--yes" || a == "--no-pool"
  }

  predicate RunAlone(a: string) {
    RunHasValue(a) || RunFlag(a)
  }

  lemma TableStep(table: seq<Spelling>, k: nat, a: string)
    requires k < |table|
    ensures TableWidth(table, k, a) ==
      if Fits(table[k], a) then Some(table[k].width) else TableWidth(table, k + 1, a)
  {
  }

  lemma GlobalTableSpelled(a: string)
    ensures GlobalWidth(a) ==
      if LongTakesValue(a) then Some(2) else if LongAlone(a) then Some(1) else None
  {
    TableStep(GLOBAL_OPTIONS, 0, a);
    TableStep(GLOBAL_OPTIONS, 1, a);
    TableStep(GLOBAL_OPTIONS, 2, a);
    TableStep(GLOBAL_OPTIONS, 3, a);
    TableStep(GLOBAL_OPTIONS, 4, a);
    TableStep(GLOBAL_OPTIONS, 5, a);
    TableStep(GLOBAL_OPTIONS, 6, a);
    TableStep(GLOBAL_OPTIONS, 7, a);
  }

  lemma RunFlagsSpelled(a: string)
    ensures TableWidth(RUN_OPTIONS, 14, a) == if RunFlag(a) then Some(1) else None
  {
    TableStep(RUN_OPTIONS, 14, a);
    TableStep(RUN_OPTIONS, 15, a);
    TableStep(RUN_OPTIONS, 16, a);
    TableStep(RUN_OPTIONS, 17, a);
  }

  lemma RunValuesSpelled(a: string)
    ensures TableWidth(RUN_OPTIONS, 7, a) == if RunHasValue(a) || RunFlag(a) then Some(1) else None
  {
    TableStep(RUN_OPTIONS, 7, a);
    TableStep(RUN_OPTIONS, 8, a);
    TableStep(RUN_OPTIONS, 9, a);
    TableStep(RUN_OPTIONS, 10, a);
    TableStep(RUN_OPTIONS, 11, a);
    TableStep(RUN_OPTIONS, 12, a);
    TableStep(RUN_OPTIONS, 13, a);
    RunFlagsSpelled(a);
  }

  lemma RunTableSpelled(a: string)
    ensures RunWidth(a) ==
      if RunTakesValue(a) then Some(2) else if RunAlone(a) then Some(1) else None
  {
    TableStep(RUN_OPTIONS, 0, a);
    TableStep(RUN_OPTIONS, 1, a);
    TableStep(RUN_OPTIONS, 2, a);
    TableStep(RUN_OPTIONS, 3, a);
    TableStep(RUN_OPTIONS, 4, a);
    TableStep(RUN_OPTIONS, 5, a);
    TableStep(RUN_OPTIONS, 6, a);
    RunValuesSpelled(a);
  }

  /** Which options there are, and which of them take the next argument for their value. */
  lemma WidthsSpelled(a: string)
    ensures KnownWidth(a) ==
      if GlobalTakesValue(a) then Some(2) else if GlobalAlone(a) then Some(1) else None
    ensures RunWidth(a) ==
      if RunTakesValue(a) then Some(2) else if RunAlone(a) then Some(1) else None
  {
    GlobalTableSpelled(a);
    RunTableSpelled(a);
    ShortWidthSpelled(a);
    if LongTakesValue(a) || LongAlone(a) {
      GlobalLetters(a);
      LongIsNotShort(a);
    }
  }

  lemma ShortWidthSpelled(a: string)
    ensures ShortWidth(a) ==
      if EndsInO(a) then Some(2) else if ShortAlone(a) then Some(1) else None
  {
    ShortSpelled(a);
  }

  lemma LongIsNotShort(a: string)
    requires !IsShort(a)
    ensures !EndsInO(a) && !ShortAlone(a)
  {
    ShortSpelled(a);
  }

  // ---------------------------------------------------------------- the command path

  /** For each scanner the options it steps over together with their value, those it steps over by
      themselves, and what it is looking for. Those looking for `ssh` or `run` step over everything
      that looks like an option. */
  ghost predicate TakesValue(scanner: Scanner, a: string) {
    GlobalTakesValue(a) || (scanner.ForCommand? && RunTakesValue(a))
  }

  ghost predicate StandsAlone(scanner: Scanner, a: string) {
    match scanner
    case ForCommand => GlobalAlone(a) || RunAlone(a)
    case ForAny => GlobalAlone(a)
    case _ => "-" <= a && a != "--" && !GlobalTakesValue(a)
  }

  ghost predicate IsSought(scanner: Scanner, argument: Argument) {
    match scanner
    case ForSsh => argument == Text("ssh")
    case ForRun => argument == Text("run")
    case ForAny => argument.Text? && !("-" <= argument.value)
    case ForCommand =>
      argument.Text? ==>
        !TakesValue(scanner, argument.value) && !StandsAlone(scanner, argument.value)
  }

  /** By their first letters the options are told apart. */
  lemma GlobalLetters(a: string)
    requires LongTakesValue(a) || LongAlone(a)
    ensures |a| >= 6 && a[0] == '-' && a[1] == '-'
    ensures a[2] == 'o' || a[2] == 'c' || a[2] == 'q' || a[2] == 'h' || a[2] == 'v'
      || (a[2] == 'n' && a[5] == 'i')
  {
  }

  lemma RunLetters(a: string)
    requires RunTakesValue(a) || RunAlone(a)
    ensures |a| >= 5 && a[0] == '-' && a[1] == '-'
    ensures a[2] == 'p' || a[2] == 'e' || a[2] == 's' || a[2] == 'k' || a[2] == 'l' || a[2] == 'j'
      || a[2] == 't' || a[2] == 'a' || a[2] == 'f' || a[2] == 'y'
      || (a[2] == 'n' && |a| >= 6 && a[5] == 'p')
  {
  }

  lemma ShortLetters(a: string)
    requires EndsInO(a) || ShortAlone(a)
    ensures |a| >= 2 && a[0] == '-' && a[1] != '-'
  {
    ShortSpelled(a);
  }

  lemma OptionsAreTold(a: string)
    ensures GlobalTakesValue(a) || GlobalAlone(a) || RunTakesValue(a) || RunAlone(a) ==>
      |a| >= 2 && a[0] == '-' && !IsDashes(a)
    ensures GlobalTakesValue(a) || GlobalAlone(a) ==> !RunTakesValue(a) && !RunAlone(a)
  {
    if LongTakesValue(a) || LongAlone(a) {
      GlobalLetters(a);
    }
    if RunTakesValue(a) || RunAlone(a) {
      RunLetters(a);
    }
    if EndsInO(a) || ShortAlone(a) {
      ShortLetters(a);
    }
  }

  lemma ValueIsNotThere(a: string)
    requires RunTakesValue(a)
    ensures !RunHasValue(a)
  {
    if a == "--profile" {
      assert a[2] == 'p' && |a| == 9;
    } else if a == "--environment-id" {
      assert a[2] == 'e' && |a| == 16;
    } else if a == "--site-id" {
      assert a[2] == 's' && |a| == 9;
    } else if a == "--kind" {
      assert a[2] == 'k' && |a| == 6;
    } else if a == "--label" {
      assert a[2] == 'l' && |a| == 7;
    } else if a == "--jobs" {
      assert a[2] == 'j' && |a| == 6;
    } else {
      assert a[2] == 't' && |a| == 9;
    }
  }

  /** No option takes a value and stands alone. */
  lemma GlobalOneOrTheOther(a: string)
    requires GlobalTakesValue(a)
    ensures !GlobalAlone(a)
  {
    if EndsInO(a) {
      ShortLetters(a);
      ShortSpelled(a);
      if LongAlone(a) {
        GlobalLetters(a);
      }
    } else {
      GlobalLetters(a);
      LongOneOrTheOther(a);
      if ShortAlone(a) {
        ShortLetters(a);
      }
    }
  }

  lemma LongOneOrTheOther(a: string)
    requires LongTakesValue(a)
    ensures !LongAlone(a)
  {
    if a == "--output" {
      assert a[2] == 'o' && |a| == 8;
    } else {
      assert a[2] == 'c' && |a| == 7;
    }
  }

  lemma RunOneOrTheOther(a: string)
    requires RunTakesValue(a)
    ensures !RunAlone(a)
  {
    ValueIsNotThere(a);
    assert a[2] != 'a' && a[2] != 'f' && a[2] != 'y' && a[2] != 'n';
  }

  /** The step on an argument that is not `--`, by what kind of option it is, if any. */
  lemma StepByWidths(scanner: Scanner, a: string, known: Option<Width>, run: Option<Width>)
    requires KnownWidth(a) == known && RunWidth(a) == run
    requires known.Some? || run.Some? ==> HasDash(a) && !IsDashes(a)
    requires run.Some? ==> !IsShort(a) && known.None?
    ensures var step := StepOf(scanner, Classify(Text(a)));
      if IsDashes(a) then step == if scanner.ForCommand? then Enter else Abandon
      else if known.Some? then step == Skip(known.value)
      else if !HasDash(a) then
        step == if (scanner.ForSsh? && a != "ssh") || (scanner.ForRun? && a != "run")
                then Abandon else Enter
      else
        match scanner
        case ForCommand => step == if run.Some? then Skip(run.value) else Enter
        case ForAny => step == Abandon
        case _ => step == Skip(1)
  {
  }

  /** What a scanner does with one argument. */
  lemma StepSpelled(scanner: Scanner, argument: Argument)
    ensures var step := StepOf(scanner, Classify(argument));
      && (step == Skip(2) <==> argument.Text? && TakesValue(scanner, argument.value))
      && (step == Skip(1) <==> argument.Text? && StandsAlone(scanner, argument.value))
      && (step == Enter <==> IsSought(scanner, argument))
  {
    if argument.Text? {
      var a := argument.value;
      WidthsSpelled(a);
      OptionsAreTold(a);
      if GlobalTakesValue(a) {
        GlobalOneOrTheOther(a);
      }
      if RunTakesValue(a) {
        RunOneOrTheOther(a);
      }
      if RunTakesValue(a) || RunAlone(a) {
        RunLetters(a);
      }
      StepByWidths(scanner, a, KnownWidth(a), RunWidth(a));
    }
  }
}
