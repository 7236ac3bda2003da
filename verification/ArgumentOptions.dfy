/** What the hand-written scanners make of one command-line argument: the options they know, in both
    spellings, and what is left. */
module ArgumentOptions {
  import opened Common

  /** One command-line argument; only Unicode ones can be options or commands. */
  datatype Argument = Text(value: string) | NonUnicode

  datatype ShortScan = ShortScan(output: Option<bool>, consumesNext: bool, known: bool)

  predicate StartsWith(text: string, prefix: string) {
    prefix <= text
  }

  predicate HasDash(a: string) {
    a != "" && a[0] == '-'
  }

  /** `--` itself. */
  predicate IsDashes(a: string) {
    |a| == 2 && a[0] == '-' && a[1] == '-'
  }

  /** One dash, but not two. */
  predicate IsShort(a: string) {
    HasDash(a) && (|a| < 2 || a[1] != '-')
  }

  /** A short option without a value. */
  predicate IsFlag(c: char) {
    c == 'q' || c == 'h' || c == 'V'
  }

  function RequestedOutput(value: string): Option<bool> {
    if value == "json" then Some(true) else if value == "human" then Some(false) else None
  }

  function OutputOf(value: Option<string>): Option<bool> {
    if value.Some? then RequestedOutput(value.value) else None
  }

  /** The options of a short cluster from some character on. */
  function ScanCluster(cluster: string, next: Option<string>): ShortScan {
    if cluster == "" then ShortScan(None, false, true)
    else if IsFlag(cluster[0]) then ScanCluster(cluster[1..], next)
    else if cluster[0] == 'o' then
      var value := cluster[1..];
      if value == "" then ShortScan(OutputOf(next), true, true)
      else ShortScan(RequestedOutput(if value[0] == '=' then value[1..] else value), false, true)
    else ShortScan(None, false, false)
  }

  function ScanShort(argument: string, next: Option<string>): ShortScan {
    if HasDash(argument) && |argument| > 1 then ScanCluster(argument[1..], next)
    else ShortScan(None, false, false)
  }

  /** `scan_short_options`: a known cluster is any run of `q`, `h`, `V`, perhaps ended by an `o` with
      its value. */
  method ScanShortOptions(argument: string, next: Option<string>) returns (scan: ShortScan)
    ensures scan == ScanShort(argument, next)
  {
    if !HasDash(argument) || |argument| == 1 {
      return ShortScan(None, false, false);
    }
    var cluster := argument[1..];
    for offset := 0 to |cluster|
      invariant ScanCluster(cluster[offset..], next) == ScanCluster(cluster, next)
    {
      assert cluster[offset..][1..] == cluster[offset + 1..];
      var option := cluster[offset];
      if IsFlag(option) {
        continue;
      }
      if option != 'o' {
        return ShortScan(None, false, false);
      }
      var value := cluster[offset + 1..];
      var consumesNext := value == "";
      var chosen := if consumesNext then next
                    else Some(if value[0] == '=' then value[1..] else value);
      return ShortScan(OutputOf(chosen), consumesNext, true);
    }
    return ShortScan(None, false, true);
  }

  /** The flags at the start of a cluster. */
  function FlagRun(cluster: string): (k: nat)
    ensures k <= |cluster| && forall i :: 0 <= i < k ==> IsFlag(cluster[i])
    ensures k < |cluster| ==> !IsFlag(cluster[k])
  {
    if cluster == "" || !IsFlag(cluster[0]) then 0 else 1 + FlagRun(cluster[1..])
  }

  /** The first character that is no flag decides: there may be none, or it is an `o` and the rest
      of the cluster its value, with or without `=`, or the next argument if there is no rest. */
  lemma {:induction false} FirstOtherDecides(cluster: string, next: Option<string>)
    ensures var k, scan := FlagRun(cluster), ScanCluster(cluster, next);
      if k == |cluster| then scan == ShortScan(None, false, true)
      else if cluster[k] != 'o' then scan == ShortScan(None, false, false)
      else if k + 1 == |cluster| then scan == ShortScan(OutputOf(next), true, true)
      else
        var value := if cluster[k + 1] == '=' then cluster[k + 2..] else cluster[k + 1..];
        scan == ShortScan(RequestedOutput(value), false, true)
  {
    if FlagRun(cluster) > 0 {
      var rest, j := cluster[1..], FlagRun(cluster) - 1;
      FirstOtherDecides(rest, next);
      assert FlagRun(rest) == j && ScanCluster(cluster, next) == ScanCluster(rest, next);
      if j + 1 < |rest| {
        assert rest[j] == cluster[j + 1] && rest[j + 1] == cluster[j + 2];
        assert rest[j + 1..] == cluster[j + 2..] && rest[j + 2..] == cluster[j + 3..];
      }
    }
  }

  /** How far a cluster reaches does not depend on what follows it. */
  lemma {:induction false} ClusterShape(cluster: string, next: Option<string>)
    ensures ScanCluster(cluster, next).known == ScanCluster(cluster, None).known
    ensures ScanCluster(cluster, next).consumesNext == ScanCluster(cluster, None).consumesNext
    ensures !ScanCluster(cluster, next).consumesNext ==>
      ScanCluster(cluster, next) == ScanCluster(cluster, None)
    ensures ScanCluster(cluster, next).consumesNext ==>
      ScanCluster(cluster, next).known && ScanCluster(cluster, next).output == OutputOf(next)
  {
    if cluster != "" && IsFlag(cluster[0]) {
      ClusterShape(cluster[1..], next);
    }
  }

  lemma ShortShape(argument: string, next: Option<string>)
    ensures ScanShort(argument, next).known == ScanShort(argument, None).known
    ensures ScanShort(argument, next).consumesNext == ScanShort(argument, None).consumesNext
  {
    if argument != "" {
      ClusterShape(argument[1..], next);
    }
  }

  // ---------------------------------------------------------------- the known options

  /** How many arguments an option takes up, its value included. */
  type Width = width: int | 1 <= width <= 2 witness 1

  /** A spelling of an option: the whole argument, or what it begins with. */
  datatype Spelling = Whole(text: string, width: Width) | Beginning(text: string, width: Width)

  predicate Fits(spelling: Spelling, a: string) {
    match spelling
    case Whole(text, _) => a == text
    case Beginning(text, _) => StartsWith(a, text)
  }

  /** The width of the first spelling from `k` on that fits; None if none does. */
  function TableWidth(table: seq<Spelling>, k: nat, a: string): Option<Width>
    decreases |table| - k
  {
    if k >= |table| then None
    else if Fits(table[k], a) then Some(table[k].width)
    else TableWidth(table, k + 1, a)
  }

  /** The options every command accepts. */
  const GLOBAL_OPTIONS: seq<Spelling> := [
    Whole("--output", 2), Whole("--color", 2), Beginning("--output=", 1), Beginning("--color=", 1),
    Whole("--no-input", 1), Whole("--quiet", 1), Whole("--help", 1), Whole("--version", 1)]

  /** The options of `ssh run` itself. */
  const RUN_OPTIONS: seq<Spelling> := [
    Whole("--profile", 2), Whole("--environment-id", 2), Whole("--site-id", 2), Whole("--kind", 2),
    Whole("--label", 2), Whole("--jobs", 2), Whole("--timeout", 2),
    Beginning("--profile=", 1), Beginning("--environment-id=", 1), Beginning("--site-id=", 1),
    Beginning("--kind=", 1), Beginning("--label=", 1), Beginning("--jobs=", 1),
    Beginning("--timeout=", 1),
    Whole("--all", 1), Whole("--fail-fast", 1), Whole("--yes", 1), Whole("--no-pool", 1)]

  function GlobalWidth(a: string): Option<Width> {
    TableWidth(GLOBAL_OPTIONS, 0, a)
  }

  function RunWidth(a: string): Option<Width> {
    TableWidth(RUN_OPTIONS, 0, a)
  }

  /** All spellings are long, and begin with a dash. */
  ghost predicate Dashed(table: seq<Spelling>) {
    forall i :: 0 <= i < |table| ==> |table[i].text| > 3 && table[i].text[0] == '-'
  }

  lemma OptionsAreDashed()
    ensures Dashed(GLOBAL_OPTIONS) && Dashed(RUN_OPTIONS)
  {
  }

  /** What is shorter than every spelling, or begins otherwise than any, fits none. */
  lemma {:induction false} FitsNone(table: seq<Spelling>, k: nat, a: string)
    requires Dashed(table) && (|a| <= 3 || a[0] != '-')
    ensures TableWidth(table, k, a).None?
    decreases |table| - k
  {
    if k < |table| {
      FitsNone(table, k + 1, a);
    }
  }

  function ShortWidth(a: string): Option<Width> {
    if IsShort(a) && ScanShort(a, None).known
    then Some(if ScanShort(a, None).consumesNext then 2 else 1) else None
  }

  /** The width of a global option in either spelling. */
  function KnownWidth(a: string): Option<Width> {
    if GlobalWidth(a).Some? then GlobalWidth(a) else ShortWidth(a)
  }

  /** What does not begin with a dash is no option. */
  lemma WordIsNoOption(word: string)
    requires !HasDash(word)
    ensures KnownWidth(word).None? && RunWidth(word).None?
  {
    OptionsAreDashed();
    FitsNone(GLOBAL_OPTIONS, 0, word);
    FitsNone(RUN_OPTIONS, 0, word);
  }

  // ---------------------------------------------------------------- kinds of arguments

  /** All that the scanners for a command path see in an argument: no Unicode, `--`, a global option
      with its width, a short cluster that is none, any other option with its width under `ssh run`,
      or a word. */
  datatype Kind =
    | Foreign
    | Dashes
    | Global(width: Width)
    | UnknownShort
    | UnknownLong(run: Option<Width>)
    | Word(text: string)

  function Classify(argument: Argument): Kind {
    if argument.NonUnicode? then Foreign
    else
      var a := argument.value;
      if IsDashes(a) then Dashes
      else if KnownWidth(a).Some? then Global(KnownWidth(a).value)
      else if IsShort(a) then UnknownShort
      else if HasDash(a) then UnknownLong(RunWidth(a))
      else Word(a)
  }

  /** Words are what does not begin with a dash. */
  lemma WordsAreWords(argument: Argument, word: string)
    ensures Classify(argument) == Word(word) <==>
      argument == Text(word) && !HasDash(word)
  {
    if argument == Text(word) && !HasDash(word) {
      WordIsNoOption(word);
    }
  }

  function KindsUpTo(arguments: seq<Argument>, n: nat): (kinds: seq<Kind>)
    requires n <= |arguments|
    ensures |kinds| == n
  {
    if n == 0 then [] else KindsUpTo(arguments, n - 1) + [Classify(arguments[n - 1])]
  }

  /** The kinds of the arguments of a command line. */
  function Kinds(arguments: seq<Argument>): (kinds: seq<Kind>)
    ensures |kinds| == |arguments|
  {
    KindsUpTo(arguments, |arguments|)
  }

  lemma {:induction false} KindUpTo(arguments: seq<Argument>, n: nat, i: nat)
    requires i < n <= |arguments|
    ensures KindsUpTo(arguments, n)[i] == Classify(arguments[i])
  {
    if i < n - 1 {
      KindUpTo(arguments, n - 1, i);
    }
  }

  lemma KindAt(arguments: seq<Argument>, i: nat)
    requires i < |arguments|
    ensures Kinds(arguments)[i] == Classify(arguments[i])
  {
    KindUpTo(arguments, |arguments|, i);
  }

  function Next(arguments: seq<Argument>, index: nat): Option<string> {
    if index + 1 < |arguments| && arguments[index + 1].Text?
    then Some(arguments[index + 1].value) else None
  }

  /** The tests that every scanner makes on an argument, in their order. */
  method LookAt(arguments: seq<Argument>, index: nat) returns (kind: Kind)
    requires index < |arguments|
    ensures kind == Kinds(arguments)[index]
    ensures kind.Word? ==> arguments[index] == Text(kind.text)
  {
    kind := Look(arguments[index], Next(arguments, index));
    KindAt(arguments, index);
  }

  method Look(argument: Argument, next: Option<string>) returns (kind: Kind)
    ensures kind == Classify(argument)
  {
    if argument.NonUnicode? {
      return Foreign;
    }
    var a := argument.value;
    if IsDashes(a) {
      return Dashes;
    }
    var width := GlobalWidth(a);
    if width.Some? {
      return Global(width.value);
    }
    if IsShort(a) {
      var scan := ScanShortOptions(a, next);
      ShortShape(a, next);
      if scan.known {
        return Global(if scan.consumesNext then 2 else 1);
      }
      return UnknownShort;
    }
    if HasDash(a) {
      width := RunWidth(a);
      return UnknownLong(width);
    }
    return Word(a);
  }
}
