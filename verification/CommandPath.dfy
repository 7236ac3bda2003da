/** How the scanners read a command path: three walks in a row for the boundary of a remote command,
    one for the next subcommand, and how the two readings compare. */
module CommandPath {
  import opened Common
  import opened ArgumentOptions

  /** What a scanner looks for: `ssh`, then `run`, then the remote command; or any subcommand. */
  datatype Scanner = ForSsh | ForRun | ForCommand | ForAny

  /** What it does with an argument: skip it, as an option with or without its value, stop because it
      is what was looked for, or give up. */
  datatype Step = Skip(width: Width) | Enter | Abandon

  function StepOf(scanner: Scanner, kind: Kind): Step {
    match kind
    case Global(width) => Skip(width)
    case Word(text) =>
      if scanner.ForSsh? && text != "ssh" then Abandon
      else if scanner.ForRun? && text != "run" then Abandon
      else Enter
    case UnknownLong(run) =>
      if scanner.ForCommand? then if run.Some? then Skip(run.value) else Enter
      else if scanner.ForAny? then Abandon
      else Skip(1)
    case UnknownShort =>
      if scanner.ForCommand? then Enter else if scanner.ForAny? then Abandon else Skip(1)
    case _ => if scanner.ForCommand? then Enter else Abandon
  }

  /** Where a scanner ends up when it finds what it looks for. */
  function Walk(scanner: Scanner, kinds: seq<Kind>, index: nat): Option<nat>
    decreases |kinds| - index
  {
    if index >= |kinds| then None
    else
      match StepOf(scanner, kinds[index])
      case Enter => Some(index)
      case Abandon => None
      case Skip(width) => Walk(scanner, kinds, index + width)
  }

  /** Where the remote command begins, from behind `ssh`. */
  function BoundaryFrom(kinds: seq<Kind>, index: nat): Option<nat> {
    match Walk(ForRun, kinds, index)
    case None => None
    case Some(run) => Walk(ForCommand, kinds, run + 1)
  }

  /** Where the remote command of a root-level `ssh run` begins. */
  function Boundary(kinds: seq<Kind>, index: nat): Option<nat> {
    match Walk(ForSsh, kinds, index)
    case None => None
    case Some(ssh) => BoundaryFrom(kinds, ssh + 1)
  }

  lemma {:induction false} WalkWithin(scanner: Scanner, kinds: seq<Kind>, index: nat)
    ensures Walk(scanner, kinds, index).Some? ==>
      var k := Walk(scanner, kinds, index).value;
      index <= k < |kinds| && StepOf(scanner, kinds[k]) == Enter
    decreases |kinds| - index
  {
    if index < |kinds| && StepOf(scanner, kinds[index]).Skip? {
      WalkWithin(scanner, kinds, index + StepOf(scanner, kinds[index]).width);
    }
  }

  /** A boundary lies behind `ssh` and `run`, at something that is no option of `ssh run`. */
  lemma BoundaryWithin(kinds: seq<Kind>, index: nat) returns (ssh: nat, run: nat)
    requires Boundary(kinds, index).Some?
    ensures var b := Boundary(kinds, index).value;
      && index <= ssh < run < b < |kinds| && StepOf(ForCommand, kinds[b]) == Enter
      && kinds[ssh] == Word("ssh") && kinds[run] == Word("run")
  {
    ssh := Walk(ForSsh, kinds, index).value;
    WalkWithin(ForSsh, kinds, index);
    run := Walk(ForRun, kinds, ssh + 1).value;
    WalkWithin(ForRun, kinds, ssh + 1);
    WalkWithin(ForCommand, kinds, run + 1);
  }

  /** The sequences agree before `k`, and both go on there. */
  ghost predicate SameBefore<T>(xs: seq<T>, ys: seq<T>, k: nat) {
    && k < |xs| && k < |ys|
    && forall i :: 0 <= i < k ==> xs[i] == ys[i]
  }

  /** A walk looks at nothing behind the place where it ends. */
  lemma {:induction false} WalkLocal(
    scanner: Scanner, kinds: seq<Kind>, others: seq<Kind>, index: nat, k: nat)
    requires Walk(scanner, kinds, index) == Some(k)
    requires SameBefore(kinds, others, k) && StepOf(scanner, others[k]) == Enter
    ensures Walk(scanner, others, index) == Some(k)
    decreases |kinds| - index
  {
    WalkWithin(scanner, kinds, index);
    if StepOf(scanner, kinds[index]).Skip? {
      WalkWithin(scanner, kinds, index + StepOf(scanner, kinds[index]).width);
      WalkLocal(scanner, kinds, others, index + StepOf(scanner, kinds[index]).width, k);
    }
  }

  /** What precedes the boundary decides where it is, up to the argument there being no option. */
  lemma BoundaryLocal(kinds: seq<Kind>, others: seq<Kind>, index: nat, b: nat)
    requires Boundary(kinds, index) == Some(b)
    requires SameBefore(kinds, others, b) && StepOf(ForCommand, others[b]) == Enter
    ensures Boundary(others, index) == Some(b)
  {
    var ssh, run := BoundaryWithin(kinds, index);
    ssh := Walk(ForSsh, kinds, index).value;
    run := Walk(ForRun, kinds, ssh + 1).value;
    WalkWithin(ForSsh, kinds, index);
    WalkWithin(ForRun, kinds, ssh + 1);
    WalkWithin(ForCommand, kinds, run + 1);
    WalkLocal(ForSsh, kinds, others, index, ssh);
    WalkLocal(ForRun, kinds, others, ssh + 1, run);
    WalkLocal(ForCommand, kinds, others, run + 1, b);
  }

  // ---------------------------------------------------------------- two readings of a command path

  /** The reading by subcommands: where to look for what follows them, if they are `ssh` and `run`. */
  function SubcommandPath(kinds: seq<Kind>, index: nat): Option<nat> {
    match Walk(ForAny, kinds, index)
    case None => None
    case Some(i) =>
      if i < |kinds| && kinds[i] == Word("ssh") then RunPath(kinds, i + 1) else None
  }

  function RunPath(kinds: seq<Kind>, index: nat): Option<nat> {
    match Walk(ForAny, kinds, index)
    case None => None
    case Some(j) => if j < |kinds| && kinds[j] == Word("run") then Some(j + 1) else None
  }

  predicate UnknownOption(kind: Kind) {
    kind.UnknownShort? || kind.UnknownLong?
  }

  /** An unknown option turned into a global one without a value. */
  function Mended(kind: Kind): Kind {
    if UnknownOption(kind) then Global(1) else kind
  }

  /** A command line in which every unknown option is replaced by a known one. */
  function Mend(kinds: seq<Kind>): (mended: seq<Kind>)
    ensures |mended| == |kinds| && forall i :: 0 <= i < |kinds| ==> mended[i] == Mended(kinds[i])
  {
    Map(kinds, Mended)
  }

  function Sought(scanner: Scanner): string {
    if scanner.ForSsh? then "ssh" else "run"
  }

  /** The walks for `ssh` and for `run` are the walk for any subcommand on the mended command line,
      if what that finds is what they look for. */
  lemma {:induction false} SeekingIsMended(scanner: Scanner, kinds: seq<Kind>, index: nat)
    requires scanner.ForSsh? || scanner.ForRun?
    ensures var any := Walk(ForAny, Mend(kinds), index);
      Walk(scanner, kinds, index) ==
        if any.Some? && any.value < |kinds| && kinds[any.value] == Word(Sought(scanner)) then any
        else None
    decreases |kinds| - index
  {
    if index < |kinds| {
      var step := StepOf(scanner, kinds[index]);
      if step.Skip? {
        assert StepOf(ForAny, Mend(kinds)[index]) == step;
        SeekingIsMended(scanner, kinds, index + step.width);
      }
    }
  }

  /** The boundary scan, on any command line: the path it follows is the one that reading the
      subcommands of the mended command line gives, and it seeks the remote command right behind. */
  lemma BoundaryFollowsCommandPath(kinds: seq<Kind>, index: nat)
    ensures Boundary(kinds, index) == CommandAfter(kinds, SubcommandPath(Mend(kinds), index))
  {
    SeekingIsMended(ForSsh, kinds, index);
    WalkWithin(ForAny, Mend(kinds), index);
    if Walk(ForSsh, kinds, index).Some? {
      BoundaryFollowsRun(kinds, Walk(ForSsh, kinds, index).value + 1);
    }
  }

  lemma BoundaryFollowsRun(kinds: seq<Kind>, index: nat)
    ensures BoundaryFrom(kinds, index) == CommandAfter(kinds, RunPath(Mend(kinds), index))
  {
    SeekingIsMended(ForRun, kinds, index);
    WalkWithin(ForAny, Mend(kinds), index);
  }

  /** Where the remote command begins, given where `ssh run` ends. */
  function CommandAfter(kinds: seq<Kind>, path: Option<nat>): Option<nat> {
    match path
    case None => None
    case Some(p) => Walk(ForCommand, kinds, p)
  }

  /** Mending can only add a path: one that is there goes past no unknown option. */
  lemma {:induction false} MendingKeepsWalk(kinds: seq<Kind>, index: nat)
    ensures Walk(ForAny, kinds, index).Some? ==>
      Walk(ForAny, Mend(kinds), index) == Walk(ForAny, kinds, index)
    decreases |kinds| - index
  {
    if index < |kinds| {
      var step := StepOf(ForAny, kinds[index]);
      if step.Skip? {
        MendingKeepsWalk(kinds, index + step.width);
      }
    }
  }

  lemma MendingKeepsPath(kinds: seq<Kind>, index: nat)
    ensures SubcommandPath(kinds, index).Some? ==>
      SubcommandPath(Mend(kinds), index) == SubcommandPath(kinds, index)
  {
    MendingKeepsWalk(kinds, index);
    WalkWithin(ForAny, kinds, index);
    var ssh := Walk(ForAny, kinds, index);
    if ssh.Some? {
      MendingKeepsWalk(kinds, ssh.value + 1);
      WalkWithin(ForAny, kinds, ssh.value + 1);
    }
  }

  /** Where the two hand-written readings of a command path part, on any command line: exactly where
      unknown options are all that keeps the subcommands from being `ssh run`, and behind these
      stands an argument that is no option of `ssh run`. */
  lemma ReadingsPartExactly(kinds: seq<Kind>, index: nat)
    ensures Boundary(kinds, index) != CommandAfter(kinds, SubcommandPath(kinds, index)) <==>
      var path := SubcommandPath(Mend(kinds), index);
      SubcommandPath(kinds, index).None? && path.Some? && Walk(ForCommand, kinds, path.value).Some?
  {
    BoundaryFollowsCommandPath(kinds, index);
    MendingKeepsPath(kinds, index);
  }

  /** Where the walk for any subcommand stops, whether it has found one or not. */
  function Halt(kinds: seq<Kind>, index: nat): (h: nat)
    ensures h >= index && (h < |kinds| ==> !StepOf(ForAny, kinds[h]).Skip?)
    decreases |kinds| - index
  {
    if index < |kinds| && StepOf(ForAny, kinds[index]).Skip?
    then Halt(kinds, index + StepOf(ForAny, kinds[index]).width)
    else index
  }

  /** The walk for any subcommand gives up at an unknown option. */
  predicate GivesUp(kinds: seq<Kind>, index: nat) {
    var h := Halt(kinds, index);
    h < |kinds| && UnknownOption(kinds[h])
  }

  lemma {:induction false} SeekingGoesOn(scanner: Scanner, kinds: seq<Kind>, index: nat)
    requires scanner.ForSsh? || scanner.ForRun?
    requires GivesUp(kinds, index)
    ensures Walk(scanner, kinds, index) == Walk(scanner, kinds, Halt(kinds, index) + 1)
    decreases |kinds| - index
  {
    var step := StepOf(ForAny, kinds[index]);
    if step.Skip? {
      SeekingGoesOn(scanner, kinds, index + step.width);
    }
  }

  /** Where the walk for any subcommand gives up, in the place of `ssh` or behind it, the boundary
      scan looks as if the command line began behind the unknown option. */
  lemma BoundaryGoesOn(kinds: seq<Kind>, index: nat)
    requires GivesUp(kinds, index)
    ensures var h := Halt(kinds, index);
      && Boundary(kinds, index) == Boundary(kinds, h + 1)
      && BoundaryFrom(kinds, index) == BoundaryFrom(kinds, h + 1)
  {
    SeekingGoesOn(ForSsh, kinds, index);
    SeekingGoesOn(ForRun, kinds, index);
  }
}
