/** Preparing SSH targets, cutting them off under fail-fast, and merging executed results back into
    selection order. `failures` is sparse over the selection; `ready` is dense over its gaps. */
module SshTargets {
  import opened Common
  import opened Identifiers
  import opened SshTypes
  import opened Capture

  type Failures = seq<Option<TargetExecution>>

  /** How many of the first `i` slots are empty: the place in `ready` of slot `i`'s target. */
  function EmptyBefore(failures: Failures, i: nat): nat
    requires i <= |failures|
  {
    if i == 0 then 0 else EmptyBefore(failures, i - 1) + if failures[i - 1].None? then 1 else 0
  }

  lemma {:induction false} EmptyBeforeMonotone(failures: Failures, i: nat, j: nat)
    requires i <= j <= |failures|
    ensures EmptyBefore(failures, i) <= EmptyBefore(failures, j)
    ensures i < j && failures[i].None? ==> EmptyBefore(failures, i) < EmptyBefore(failures, j)
  {
    if i < j {
      EmptyBeforeMonotone(failures, i, j - 1);
    }
  }

  lemma {:induction false} EmptyBeforePrefix(a: Failures, b: Failures, i: nat)
    requires i <= |a| && i <= |b| && a[..i] == b[..i]
    ensures EmptyBefore(a, i) == EmptyBefore(b, i)
  {
    if i > 0 {
      assert a[..i][i - 1] == a[i - 1] && b[..i][i - 1] == b[i - 1];
      assert a[..i - 1] == a[..i][..i - 1] == b[..i - 1];
      EmptyBeforePrefix(a, b, i - 1);
    }
  }

  /** Slot `i` names its own environment: in its failure, or in the ready target it stands for. */
  ghost predicate SlotAligned(
    selected: seq<EnvironmentRef>, ready: seq<ExecutionTarget>, failures: Failures, i: nat)
    requires i < |failures| == |selected|
  {
    match failures[i]
    case Some(failure) => failure.environment == selected[i]
    case None =>
      var k := EmptyBefore(failures, i);
      k < |ready| && ready[k].environment == selected[i]
  }

  /** The k-th ready target belongs to the k-th empty slot. */
  ghost predicate Aligned(
    selected: seq<EnvironmentRef>, ready: seq<ExecutionTarget>, failures: Failures)
  {
    && |failures| == |selected|
    && |ready| == EmptyBefore(failures, |failures|)
    && forall i :: 0 <= i < |failures| ==> SlotAligned(selected, ready, failures, i)
  }

  /** What preparation promises: an environment with coordinates is ready with exactly those, and
      one without is reported unavailable. None stands for the provider's error. */
  ghost predicate Prepared(
    selected: seq<EnvironmentRef>, lookups: seq<Option<SshTarget>>,
    ready: seq<ExecutionTarget>, failures: Failures)
    requires |lookups| == |selected|
  {
    && Aligned(selected, ready, failures)
    && (forall i :: 0 <= i < |selected| ==>
          match lookups[i]
          case Some(ssh) =>
            && failures[i].None? && EmptyBefore(failures, i) < |ready|
            && ready[EmptyBefore(failures, i)] == ExecutionTarget(selected[i], ssh)
          case None => failures[i] == Some(Unavailable(selected[i])))
  }

  ghost predicate FirstFailure(failures: Failures, f: nat) {
    f < |failures| && failures[f].Some? && forall i :: 0 <= i < f ==> failures[i].None?
  }

  /** Everything up to slot `f` stays, everything after it is skipped, and only the targets before
      it remain ready. */
  ghost predicate CutAfter(
    selected: seq<EnvironmentRef>, f: nat, ready: seq<ExecutionTarget>, failures: Failures,
    ready': seq<ExecutionTarget>, failures': Failures)
    requires |failures| == |selected|
  {
    && |failures'| == |failures| && f < |failures| && f <= |ready| && ready' == ready[..f]
    && (forall i :: 0 <= i <= f ==> failures'[i] == failures[i])
    && (forall i :: f < i < |failures| ==>
          failures'[i] == Some(SkippedExecution(selected[i], false)))
  }

  /** What fail-fast promises: a cut after the first preparation failure, if there is one. */
  ghost predicate CutOff(
    selected: seq<EnvironmentRef>, enabled: bool,
    ready: seq<ExecutionTarget>, failures: Failures,
    ready': seq<ExecutionTarget>, failures': Failures)
    requires |failures| == |selected|
  {
    if enabled && exists f: nat :: FirstFailure(failures, f)
    then exists f: nat ::
      FirstFailure(failures, f) && CutAfter(selected, f, ready, failures, ready', failures')
    else ready' == ready && failures' == failures
  }

  class PreparedSshTargets {
    var ready: seq<ExecutionTarget>
    var failures: Failures

    constructor (ready: seq<ExecutionTarget>, failures: Failures)
      ensures this.ready == ready && this.failures == failures
    {
      this.ready := ready;
      this.failures := failures;
    }

    /** `apply_fail_fast`. Neither `expect` nor the final assertion of the source can fail. */
    method ApplyFailFast(enabled: bool, ghost selected: seq<EnvironmentRef>)
      requires Aligned(selected, ready, failures)
      modifies this
      ensures CutOff(selected, enabled, old(ready), old(failures), ready, failures)
      ensures Aligned(selected, ready, failures)
    {
      if !enabled {
        return;
      }
      var first := 0;
      while first < |failures| && failures[first].None?
        invariant first <= |failures|
        invariant forall i :: 0 <= i < first ==> failures[i].None?
      {
        first := first + 1;
      }
      if first == |failures| {
        return;
      }
      assert FirstFailure(failures, first);
      SkipAfter(first, selected);
    }

    /** The second half of `apply_fail_fast`, once the first failure is known. */
    method SkipAfter(first: nat, ghost selected: seq<EnvironmentRef>)
      requires Aligned(selected, ready, failures) && FirstFailure(failures, first)
      modifies this
      ensures CutAfter(selected, first, old(ready), old(failures), ready, failures)
      ensures Aligned(selected, ready, failures)
    {
      ghost var before := failures;
      var waiting := ready;
      var taken := 0;
      var retained: seq<ExecutionTarget> := [];
      AllEmptyBefore(before, first);
      EmptyBeforeMonotone(before, first, |before|);
      for index := 0 to |failures|
        invariant |failures| == |before| && ready == waiting
        invariant forall i :: index <= i < |before| ==> failures[i] == before[i]
        invariant forall i :: 0 <= i < index && i <= first ==> failures[i] == before[i]
        invariant forall i :: first < i < index ==>
          failures[i] == Some(SkippedExecution(selected[i], false))
        invariant taken == EmptyBefore(before, index)
        invariant retained == waiting[..Min(first, index)]
      {
        assert SlotAligned(selected, waiting, before, index);
        if index < first {
          AllEmptyBefore(before, index);
          retained := retained + [waiting[taken]];
          taken := taken + 1;
        } else if index > first {
          var environment;
          if failures[index].Some? {
            environment := failures[index].value.environment;
          } else {
            environment := waiting[taken].environment;
            taken := taken + 1;
          }
          failures := failures[index := Some(SkippedExecution(environment, false))];
        }
      }
      assert taken == |waiting|;
      ready := retained;
      CutKeepsAligned(selected, first, waiting, before, ready, failures);
    }

    /** `merge`: walk the slots, taking executed results for the empty ones. */
    method Merge(executed: Option<BatchReport>) returns (report: BatchReport)
      ensures report == Merged(failures, executed)
    {
      var queue := if executed.Some? then executed.value.results else [];
      var results: seq<TargetExecution> := [];
      for index := 0 to |failures|
        invariant results + MergeFrom(failures[index..], queue)
               == MergeFrom(failures, if executed.Some? then executed.value.results else [])
      {
        MergeNext(results, failures, index, queue);
        if failures[index].Some? {
          results := results + [failures[index].value];
        } else if queue != [] {
          results := results + [queue[0]];
          queue := queue[1..];
        }
      }
      assert results + [] == results;
      report := BatchReport(results,
        if executed.Some? then executed.value.streamLimit else EffectiveStreamLimit(|results|));
    }
  }

  function MergeFrom(failures: Failures, queue: seq<TargetExecution>): seq<TargetExecution> {
    if failures == [] then []
    else
      match failures[0]
      case Some(failure) => [failure] + MergeFrom(failures[1..], queue)
      case None =>
        if queue == [] then MergeFrom(failures[1..], queue)
        else [queue[0]] + MergeFrom(failures[1..], queue[1..])
  }

  /** One slot more is merged: what stands there moves to the results. */
  lemma MergeNext(
    results: seq<TargetExecution>, failures: Failures, index: nat, queue: seq<TargetExecution>)
    requires index < |failures|
    ensures var rest := failures[index + 1..];
      results + MergeFrom(failures[index..], queue) ==
        if failures[index].Some? then results + [failures[index].value] + MergeFrom(rest, queue)
        else if queue == [] then results + MergeFrom(rest, queue)
        else results + [queue[0]] + MergeFrom(rest, queue[1..])
  {
    var rest := failures[index + 1..];
    assert failures[index..][1..] == rest;
    if failures[index].Some? {
      ConcatAssociates(results, [failures[index].value], MergeFrom(rest, queue));
    } else if queue != [] {
      ConcatAssociates(results, [queue[0]], MergeFrom(rest, queue[1..]));
    }
  }

  function Merged(failures: Failures, executed: Option<BatchReport>): BatchReport {
    var results := MergeFrom(failures, if executed.Some? then executed.value.results else []);
    BatchReport(results,
      if executed.Some? then executed.value.streamLimit else EffectiveStreamLimit(|results|))
  }

  lemma {:induction false} AllEmptyBefore(failures: Failures, i: nat)
    requires i <= |failures| && forall k :: 0 <= k < i ==> failures[k].None?
    ensures EmptyBefore(failures, i) == i
  {
    if i > 0 {
      AllEmptyBefore(failures, i - 1);
    }
  }

  lemma {:induction false} NoneEmptyBetween(failures: Failures, i: nat, j: nat)
    requires i <= j <= |failures| && forall k :: i <= k < j ==> failures[k].Some?
    ensures EmptyBefore(failures, j) == EmptyBefore(failures, i)
  {
    if i < j {
      NoneEmptyBetween(failures, i, j - 1);
    }
  }

  lemma CutKeepsAligned(
    selected: seq<EnvironmentRef>, f: nat, ready: seq<ExecutionTarget>, failures: Failures,
    ready': seq<ExecutionTarget>, failures': Failures)
    requires Aligned(selected, ready, failures) && FirstFailure(failures, f)
    requires CutAfter(selected, f, ready, failures, ready', failures')
    ensures Aligned(selected, ready', failures')
  {
    AllEmptyBefore(failures', f);
    NoneEmptyBetween(failures', f, |failures'|);
    forall i | 0 <= i < |failures'| ensures SlotAligned(selected, ready', failures', i) {
      assert SlotAligned(selected, ready, failures, i);
      if i < f {
        AllEmptyBefore(failures', i);
        AllEmptyBefore(failures, i);
      }
    }
  }

  /** Slot by slot, merging keeps failures and hands the k-th executed result to the k-th empty
      slot; nothing executed is dropped, left over, or moved. */
  lemma {:induction false} MergeIsSlotwise(failures: Failures, queue: seq<TargetExecution>, i: nat)
    requires |queue| == EmptyBefore(failures, |failures|)
    ensures |MergeFrom(failures, queue)| == |failures|
    ensures i < |failures| ==>
      match failures[i]
      case Some(failure) => MergeFrom(failures, queue)[i] == failure
      case None =>
        EmptyBefore(failures, i) < |queue|
        && MergeFrom(failures, queue)[i] == queue[EmptyBefore(failures, i)]
  {
    if failures != [] {
      var rest := failures[1..];
      EmptyBeforeTail(failures, |failures|);
      if i < |failures| {
        EmptyBeforeMonotone(failures, i, |failures|);
        if i > 0 {
          EmptyBeforeTail(failures, i);
        }
      }
      var queue' := if failures[0].None? then queue[1..] else queue;
      MergeIsSlotwise(rest, queue', if i > 0 then i - 1 else 0);
      assert MergeFrom(failures, queue)[1..] == MergeFrom(rest, queue');
    }
  }

  lemma {:induction false} EmptyBeforeTail(failures: Failures, i: nat)
    requires 1 <= i <= |failures|
    ensures EmptyBefore(failures, i)
         == EmptyBefore(failures[1..], i - 1) + if failures[0].None? then 1 else 0
  {
    if i > 1 {
      EmptyBeforeTail(failures, i - 1);
    }
  }

  /** Every index is completed once. */
  ghost predicate Permutation(order: seq<nat>, n: nat) {
    |order| == n && Distinct(order) && forall j :: 0 <= j < n ==> order[j] < n
  }

  /** Distinct indices, with one set aside, do not fit into fewer places. */
  lemma {:induction false} Pigeonhole(order: seq<nat>, places: set<nat>)
    requires Distinct(order) && forall j :: 0 <= j < |order| ==> order[j] in places
    ensures |order| <= |places|
  {
    if order != [] {
      var rest := order[1..];
      forall j | 0 <= j < |rest| ensures rest[j] in places - {order[0]} {
        assert order[j + 1] == rest[j];
      }
      Pigeonhole(rest, places - {order[0]});
    }
  }

  lemma PermutationCovers(order: seq<nat>, n: nat, i: nat)
    requires Permutation(order, n) && i < n
    ensures i in order
  {
    if i !in order {
      Pigeonhole(order, Between(0, n) - {i});
    }
  }

  /** `ssh_targets`: lookups complete in any order, and the result does not depend on it. */
  method PrepareTargets(
    selected: seq<EnvironmentRef>, lookups: seq<Option<SshTarget>>, completion: seq<nat>)
    returns (prepared: PreparedSshTargets)
    requires |lookups| == |selected| && Permutation(completion, |selected|)
    ensures fresh(prepared)
    ensures Prepared(selected, lookups, prepared.ready, prepared.failures)
  {
    var ordered := new Option<(EnvironmentRef, Option<SshTarget>)>[|selected|](_ => None);
    for k := 0 to |completion|
      invariant ordered.Length == |selected|
      invariant forall j :: 0 <= j < k ==>
        ordered[completion[j]] == Some((selected[completion[j]], lookups[completion[j]]))
    {
      var index := completion[k];
      ordered[index] := Some((selected[index], lookups[index]));
    }
    var entries := ordered[..];
    forall i | 0 <= i < |selected| ensures entries[i] == Some((selected[i], lookups[i])) {
      PermutationCovers(completion, |selected|, i);
    }
    var ready: seq<ExecutionTarget>, failures: Failures := [], [];
    for i := 0 to |selected|
      invariant Prepared(selected[..i], lookups[..i], ready, failures)
    {
      var (environment, target) := entries[i].value;
      ghost var oldReady, oldFailures := ready, failures;
      if target.Some? {
        ready := ready + [ExecutionTarget(environment, target.value)];
        failures := failures + [None];
      } else {
        failures := failures + [Some(Unavailable(environment))];
      }
      PreparedExtends(selected, lookups, i, oldReady, oldFailures, ready, failures);
    }
    assert selected[..|selected|] == selected && lookups[..|selected|] == lookups;
    prepared := new PreparedSshTargets(ready, failures);
  }

  lemma PreparedExtends(
    selected: seq<EnvironmentRef>, lookups: seq<Option<SshTarget>>, n: nat,
    ready: seq<ExecutionTarget>, failures: Failures,
    ready': seq<ExecutionTarget>, failures': Failures)
    requires |lookups| == |selected| && n < |selected|
    requires Prepared(selected[..n], lookups[..n], ready, failures)
    requires match lookups[n]
      case Some(ssh) =>
        ready' == ready + [ExecutionTarget(selected[n], ssh)] && failures' == failures + [None]
      case None => ready' == ready && failures' == failures + [Some(Unavailable(selected[n]))]
    ensures Prepared(selected[..n + 1], lookups[..n + 1], ready', failures')
  {
    forall i | 0 <= i <= n ensures EmptyBefore(failures', i) == EmptyBefore(failures, i) {
      EmptyBeforePrefix(failures', failures, i);
    }
    var longer := selected[..n + 1];
    forall i | 0 <= i <= n ensures SlotAligned(longer, ready', failures', i) {
      if i < n {
        assert SlotAligned(selected[..n], ready, failures, i);
      }
    }
    assert forall i :: 0 <= i < n ==> lookups[..n + 1][i] == lookups[..n][i];
  }
}
