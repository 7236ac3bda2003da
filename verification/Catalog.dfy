/** The catalog of sites and environments, its canonical order and its index. */
module Catalog {
  import opened Common
  import opened Ordering
  import opened Identifiers

  datatype EnvironmentKind = Production | Staging | Development | Other

  datatype EnvironmentSummary = EnvironmentSummary(
    reference: EnvironmentRef, displayName: string, kind: EnvironmentKind,
    providerKind: Option<string>, primaryDomain: Option<string>)

  datatype CatalogSite = CatalogSite(
    siteId: string, displayName: string, labels: seq<string>,
    environments: seq<EnvironmentSummary>)

  /** An environment together with its site. */
  datatype Located = Located(site: CatalogSite, environment: EnvironmentSummary)

  function EnvironmentId(environment: EnvironmentSummary): string {
    environment.reference.environmentId
  }

  function LocatedId(located: Located): string {
    EnvironmentId(located.environment)
  }

  function InSite(site: CatalogSite, environments: seq<EnvironmentSummary>): seq<Located> {
    Map(environments, (environment: EnvironmentSummary) => Located(site, environment))
  }

  /** Every environment of the catalog, in catalog order. */
  function AllEnvironments(sites: seq<CatalogSite>): seq<Located> {
    if sites == [] then []
    else InSite(sites[0], sites[0].environments) + AllEnvironments(sites[1..])
  }

  /** How many environments the first `s` sites have. */
  function EnvironmentsBefore(sites: seq<CatalogSite>, s: nat): nat
    requires s <= |sites|
  {
    if s == 0 then 0 else EnvironmentsBefore(sites, s - 1) + |sites[s - 1].environments|
  }

  lemma {:induction false} FirstSiteFirst(sites: seq<CatalogSite>, s: nat)
    requires 1 <= s <= |sites|
    ensures EnvironmentsBefore(sites, s)
         == |sites[0].environments| + EnvironmentsBefore(sites[1..], s - 1)
  {
    if s > 1 {
      FirstSiteFirst(sites, s - 1);
    }
  }

  /** The catalog order, place by place: site after site, and within a site as the site has them. */
  lemma {:induction false} CatalogOrder(sites: seq<CatalogSite>, s: nat, e: nat)
    requires s < |sites| && e < |sites[s].environments|
    ensures |AllEnvironments(sites)| == EnvironmentsBefore(sites, |sites|)
    ensures EnvironmentsBefore(sites, s) + e < |AllEnvironments(sites)|
    ensures AllEnvironments(sites)[EnvironmentsBefore(sites, s) + e]
         == Located(sites[s], sites[s].environments[e])
  {
    CatalogLength(sites);
    if s > 0 {
      CatalogOrder(sites[1..], s - 1, e);
      FirstSiteFirst(sites, s);
    }
  }

  lemma {:induction false} CatalogLength(sites: seq<CatalogSite>)
    ensures |AllEnvironments(sites)| == EnvironmentsBefore(sites, |sites|)
  {
    if sites != [] {
      CatalogLength(sites[1..]);
      FirstSiteFirst(sites, |sites|);
    }
  }

  /** Everything in the catalog is an environment of one of its sites. */
  lemma {:induction false} CatalogMembers(sites: seq<CatalogSite>, located: Located)
    ensures located in AllEnvironments(sites) <==>
      exists s :: 0 <= s < |sites|
        && located.site == sites[s] && located.environment in sites[s].environments
  {
    if sites != [] {
      CatalogMembers(sites[1..], located);
      var here := InSite(sites[0], sites[0].environments);
      if located.site == sites[0] && located.environment in sites[0].environments {
        var e :| 0 <= e < |sites[0].environments|
          && sites[0].environments[e] == located.environment;
        assert here[e] == located;
      }
      assert sites == [sites[0]] + sites[1..];
    }
  }

  // ---------------------------------------------------------------- order

  function KindRank(kind: EnvironmentKind): nat {
    match kind
    case Production => 0
    case Staging => 1
    case Development => 2
    case Other => 3
  }

  /** `sort_environments`: by kind, then display name, then ID. */
  predicate EnvironmentLe(left: EnvironmentSummary, right: EnvironmentSummary) {
    if KindRank(left.kind) == KindRank(right.kind)
    then ThenLe(left.displayName, right.displayName,
           StringLe(EnvironmentId(left), EnvironmentId(right)))
    else KindRank(left.kind) < KindRank(right.kind)
  }

  /** A pair of keys compared by `then_with`: total, transitive, and tied only when equal. */
  lemma ThenLeProperties(a: string, a': string, b: string, b': string, c: string, c': string)
    ensures ThenLe(a, b, StringLe(a', b')) || ThenLe(b, a, StringLe(b', a'))
    ensures ThenLe(a, b, StringLe(a', b')) && ThenLe(b, a, StringLe(b', a')) ==> a == b && a' == b'
    ensures ThenLe(a, b, StringLe(a', b')) && ThenLe(b, c, StringLe(b', c')) ==>
      ThenLe(a, c, StringLe(a', c'))
  {
    StringLeTotal(a, b);
    StringLeTotal(b, c);
    StringLeTotal(a', b');
    if ThenLe(a, b, StringLe(a', b')) && ThenLe(b, c, StringLe(b', c')) {
      if StringLe(a, b) && StringLe(b, c) {
        StringLeTransitive(a, b, c);
      }
      if a == b == c {
        StringLeTransitive(a', b', c');
      }
    }
  }

  lemma EnvironmentLeIsPreorder()
    ensures TotalPreorder(EnvironmentLe)
  {
    forall x, y ensures EnvironmentLe(x, y) || EnvironmentLe(y, x) {
      ThenLeProperties(x.displayName, EnvironmentId(x), y.displayName, EnvironmentId(y), "", "");
    }
    forall x, y, z | EnvironmentLe(x, y) && EnvironmentLe(y, z) ensures EnvironmentLe(x, z) {
      ThenLeProperties(x.displayName, EnvironmentId(x), y.displayName, EnvironmentId(y),
        z.displayName, EnvironmentId(z));
    }
  }

  /** Equal keys at two positions of a sequence with distinct keys are the same position. */
  lemma DistinctKeys<T, K>(xs: seq<T>, key: T -> K, x: T, y: T)
    requires Distinct(Map(xs, key)) && x in xs && y in xs && key(x) == key(y)
    ensures x == y
  {
    var keys := Map(xs, key);
    var i :| 0 <= i < |xs| && xs[i] == x;
    var j :| 0 <= j < |xs| && xs[j] == y;
    assert keys[i] == keys[j];
  }

  /** Two different environments with the same kind, display name and ID. */
  ghost predicate HaveTwins(environments: seq<EnvironmentSummary>) {
    exists x, y :: x in environments && y in environments && Twins(x, y)
  }

  predicate Twins(x: EnvironmentSummary, y: EnvironmentSummary) {
    x != y && x.kind == y.kind && x.displayName == y.displayName
    && EnvironmentId(x) == EnvironmentId(y)
  }

  lemma TwinsTie(x: EnvironmentSummary, y: EnvironmentSummary)
    ensures Twins(x, y) <==> x != y && EnvironmentLe(x, y) && EnvironmentLe(y, x)
  {
    ThenLeProperties(x.displayName, EnvironmentId(x), y.displayName, EnvironmentId(y), "", "");
    StringLeTotal(EnvironmentId(x), EnvironmentId(x));
  }

  /** The order of a site's environments does not depend on the order the provider sent them in
      exactly if no two of them are twins. */
  lemma EnvironmentOrderCanonical(environments: seq<EnvironmentSummary>)
    ensures OrderForgotten(environments, EnvironmentLe) <==> !HaveTwins(environments)
    ensures Sorted(Sort(environments, EnvironmentLe), EnvironmentLe)
  {
    EnvironmentLeIsPreorder();
    SortSorts(environments, EnvironmentLe);
    SortForgetsExactly(environments, EnvironmentLe);
    forall x, y ensures Twins(x, y) <==> x != y && EnvironmentLe(x, y) && EnvironmentLe(y, x) {
      TwinsTie(x, y);
    }
    assert NoTies(environments, EnvironmentLe) <==> !HaveTwins(environments);
  }

  // ---------------------------------------------------------------- index

  type Index = map<string, EnvironmentRef>

  /** Linear search for an environment by ID. */
  function FindEnvironment(all: seq<Located>, id: string): (found: Option<Located>)
    ensures found.None? <==> forall i :: 0 <= i < |all| ==> LocatedId(all[i]) != id
    ensures found.Some? ==> found.value in all && LocatedId(found.value) == id
  {
    if all == [] then None
    else if LocatedId(all[0]) == id then Some(all[0])
    else FindEnvironment(all[1..], id)
  }

  /** The order in words: production first, then staging, development and the rest, and within these
      by display name and then by ID, in the order of a dictionary. */
  lemma EnvironmentOrderIs(x: EnvironmentSummary, y: EnvironmentSummary)
    ensures x.kind == y.kind ==>
      (EnvironmentLe(x, y) <==>
         || Before(x.displayName, y.displayName)
         || (x.displayName == y.displayName
             && (x.reference.environmentId == y.reference.environmentId
                 || Before(x.reference.environmentId, y.reference.environmentId))))
    ensures x.kind != y.kind ==>
      (EnvironmentLe(x, y) <==>
         || x.kind == Production || y.kind == Other
         || (x.kind == Staging && y.kind == Development))
  {
    ThenLeIsDictionary(x.displayName, EnvironmentId(x), y.displayName, EnvironmentId(y));
  }

  /** The index answers exactly as linear search does. */
  ghost predicate Indexes(index: Index, all: seq<Located>) {
    && (forall i :: 0 <= i < |all| ==> LocatedId(all[i]) in index)
    && forall id :: id in index ==>
         FindEnvironment(all, id).Some?
         && index[id] == FindEnvironment(all, id).value.environment.reference
  }

  lemma {:induction false} FindInConcat(front: seq<Located>, back: seq<Located>, id: string)
    ensures FindEnvironment(front + back, id) ==
      if FindEnvironment(front, id).Some? then FindEnvironment(front, id)
      else FindEnvironment(back, id)
  {
    if front == [] {
      assert front + back == back;
    } else {
      assert (front + back)[1..] == front[1..] + back;
      FindInConcat(front[1..], back, id);
    }
  }

  lemma IndexGrows(index: Index, all: seq<Located>, next: Located)
    requires Indexes(index, all) && Distinct(Map(all, LocatedId))
    ensures LocatedId(next) in index <==> !Distinct(Map(all + [next], LocatedId))
    ensures LocatedId(next) !in index ==>
      Indexes(index[LocatedId(next) := next.environment.reference], all + [next])
  {
    var more := all + [next];
    var ids, moreIds := Map(all, LocatedId), Map(more, LocatedId);
    assert moreIds == ids + [LocatedId(next)];
    if LocatedId(next) in index {
      var found := FindEnvironment(all, LocatedId(next)).value;
      var i :| 0 <= i < |all| && all[i] == found;
      assert moreIds[i] == moreIds[|all|];
    } else {
      forall id | id in index[LocatedId(next) := next.environment.reference]
        ensures FindEnvironment(more, id).Some?
          && FindEnvironment(more, id).value.environment.reference
               == index[LocatedId(next) := next.environment.reference][id]
      {
        FindInConcat(all, [next], id);
      }
    }
  }

  lemma DistinctPrefix(front: seq<Located>, back: seq<Located>)
    requires Distinct(Map(front + back, LocatedId))
    ensures Distinct(Map(front, LocatedId))
  {
    var all, fs := Map(front + back, LocatedId), Map(front, LocatedId);
    assert forall i :: 0 <= i < |fs| ==> fs[i] == all[i];
  }

  lemma NextEnvironment(seen: seq<Located>, site: CatalogSite, e: nat, later: seq<Located>)
    requires e < |site.environments|
    ensures seen + (InSite(site, site.environments[e..]) + later)
         == (seen + [Located(site, site.environments[e])])
            + (InSite(site, site.environments[e + 1..]) + later)
  {
    var next, rest := Located(site, site.environments[e]), InSite(site, site.environments[e + 1..]);
    assert InSite(site, site.environments[e..]) == [next] + rest;
    ConcatAssociates([next], rest, later);
    ConcatAssociates(seen, [next], rest + later);
  }

  /** `environment_index`: it fails exactly when two environments of the catalog share an ID, and
      otherwise agrees with linear search. */
  method EnvironmentIndex(sites: seq<CatalogSite>) returns (index: Option<Index>)
    ensures index.Some? <==> Distinct(Map(AllEnvironments(sites), LocatedId))
    ensures index.Some? ==> Indexes(index.value, AllEnvironments(sites))
  {
    var m: Index := map[];
    ghost var seen: seq<Located> := [];
    for s := 0 to |sites|
      invariant seen + AllEnvironments(sites[s..]) == AllEnvironments(sites)
      invariant Indexes(m, seen) && Distinct(Map(seen, LocatedId))
    {
      var site := sites[s];
      ghost var later := AllEnvironments(sites[s + 1..]);
      assert sites[s..][1..] == sites[s + 1..];
      assert InSite(site, site.environments[0..]) == InSite(site, site.environments);
      for e := 0 to |site.environments|
        invariant seen + (InSite(site, site.environments[e..]) + later) == AllEnvironments(sites)
        invariant Indexes(m, seen) && Distinct(Map(seen, LocatedId))
      {
        var environment := site.environments[e];
        ghost var next := Located(site, environment);
        ghost var rest := InSite(site, site.environments[e + 1..]) + later;
        NextEnvironment(seen, site, e, later);
        IndexGrows(m, seen, next);
        var id := EnvironmentId(environment);
        if id in m {
          if Distinct(Map(AllEnvironments(sites), LocatedId)) {
            DistinctPrefix(seen + [next], rest);
          }
          return None;
        }
        m := m[id := environment.reference];
        seen := seen + [next];
      }
      assert InSite(site, site.environments[|site.environments|..]) == [];
      assert InSite(site, []) + later == later;
    }
    assert seen + AllEnvironments([]) == seen;
    return Some(m);
  }
}
