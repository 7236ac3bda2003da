/** `select_environments`: repeated values within a category are alternatives, and different
    categories all have to hold. */
module Selection {
  import opened Common
  import opened Identifiers
  import opened Catalog

  datatype Selectors = Selectors(
    environmentIds: seq<string>, siteIds: seq<string>, kinds: seq<EnvironmentKind>,
    labels: seq<string>, all: bool)

  datatype SelectionError =
    NoSelector | MalformedId | MalformedLabel | NotFound | Ambiguous | NothingMatches

  datatype Selected = Selected(targets: seq<Located>, broad: bool)

  predicate ValidLabel(tag: string) {
    ValidComponent(tag, 512)
  }

  // ---------------------------------------------------------------- the query

  /** What it means for an environment to be selected. */
  ghost predicate Matches(selectors: Selectors, located: Located) {
    && (selectors.environmentIds == [] || LocatedId(located) in selectors.environmentIds)
    && (selectors.siteIds == [] || located.site.siteId in selectors.siteIds)
    && (selectors.kinds == [] || located.environment.kind in selectors.kinds)
    && (selectors.labels == []
        || exists tag :: tag in located.site.labels && tag in selectors.labels)
  }

  ghost function Query(selectors: Selectors, sites: seq<CatalogSite>): seq<Located> {
    Filter(AllEnvironments(sites), (located: Located) => Matches(selectors, located))
  }

  // ---------------------------------------------------------------- resolving

  function WithId(all: seq<Located>, id: string): seq<Located> {
    Filter(all, (located: Located) => LocatedId(located) == id)
  }

  /** `resolve_environment`: exactly one environment has the ID. */
  function ResolveEnvironment(sites: seq<CatalogSite>, id: string): Result<Located, SelectionError> {
    if !ValidOpaqueId(id) then Err(MalformedId)
    else
      var matching := WithId(AllEnvironments(sites), id);
      if |matching| == 0 then Err(NotFound)
      else if |matching| == 1 then Ok(matching[0])
      else Err(Ambiguous)
  }

  /** `resolve_site`: exactly one site has the ID. */
  function ResolveSite(sites: seq<CatalogSite>, id: string): Result<CatalogSite, SelectionError> {
    if !ValidOpaqueId(id) then Err(MalformedId)
    else
      var matching := Filter(sites, (site: CatalogSite) => site.siteId == id);
      if |matching| == 0 then Err(NotFound)
      else if |matching| == 1 then Ok(matching[0])
      else Err(Ambiguous)
  }

  /** How many elements are kept, told apart as far as resolving does. */
  lemma {:induction false} KeptCount<T>(xs: seq<T>, keep: T -> bool)
    ensures |Filter(xs, keep)| == 0 <==> forall i :: 0 <= i < |xs| ==> !keep(xs[i])
    ensures |Filter(xs, keep)| >= 2 <==>
      exists i, j :: 0 <= i < j < |xs| && keep(xs[i]) && keep(xs[j])
  {
    if xs != [] {
      var rest := xs[1..];
      KeptCount(rest, keep);
      assert forall i :: 0 < i < |xs| ==> xs[i] == rest[i - 1];
      if |Filter(rest, keep)| >= 2 {
        var i, j :| 0 <= i < j < |rest| && keep(rest[i]) && keep(rest[j]);
        assert keep(xs[i + 1]) && keep(xs[j + 1]);
      } else if |Filter(xs, keep)| >= 2 {
        var j :| 0 <= j < |rest| && keep(rest[j]);
        assert keep(xs[0]) && keep(xs[j + 1]);
      }
    }
  }

  ghost predicate Occurs(all: seq<Located>, id: string) {
    exists i :: 0 <= i < |all| && LocatedId(all[i]) == id
  }

  ghost predicate OccursTwice(all: seq<Located>, id: string) {
    exists i, j :: 0 <= i < j < |all| && LocatedId(all[i]) == id == LocatedId(all[j])
  }

  /** A well-formed ID resolves if it occurs exactly once in the catalog, and to that environment;
      it is not found if it occurs nowhere and ambiguous if it occurs twice. */
  lemma ResolvingIsUnambiguous(sites: seq<CatalogSite>, id: string)
    requires ValidOpaqueId(id)
    ensures var all, resolved := AllEnvironments(sites), ResolveEnvironment(sites, id);
      && (resolved == Err(NotFound) <==> !Occurs(all, id))
      && (resolved == Err(Ambiguous) <==> OccursTwice(all, id))
      && (resolved.Ok? <==> Occurs(all, id) && !OccursTwice(all, id))
      && (resolved.Ok? ==> resolved.value in all && LocatedId(resolved.value) == id)
  {
    var all, keep := AllEnvironments(sites), (located: Located) => LocatedId(located) == id;
    KeptCount(all, keep);
    assert WithId(all, id) == Filter(all, keep);
    if |WithId(all, id)| == 0 {
      assert !Occurs(all, id) by {
        forall i | 0 <= i < |all| ensures LocatedId(all[i]) != id {
          assert !keep(all[i]);
        }
      }
    } else if |WithId(all, id)| == 1 {
      var one := WithId(all, id)[0];
      FilterMembers(all, keep, one);
      var i :| 0 <= i < |all| && all[i] == one;
      assert !OccursTwice(all, id) by {
        forall i, j | 0 <= i < j < |all| ensures !(LocatedId(all[i]) == id == LocatedId(all[j])) {
          assert !(keep(all[i]) && keep(all[j]));
        }
      }
    } else {
      var i, j :| 0 <= i < j < |all| && keep(all[i]) && keep(all[j]);
      assert LocatedId(all[i]) == id == LocatedId(all[j]);
    }
  }

  ghost predicate SiteOccurs(sites: seq<CatalogSite>, id: string) {
    exists s :: 0 <= s < |sites| && sites[s].siteId == id
  }

  ghost predicate SiteOccursTwice(sites: seq<CatalogSite>, id: string) {
    exists s, t :: 0 <= s < t < |sites| && sites[s].siteId == id == sites[t].siteId
  }

  /** The same of site IDs. */
  lemma SiteResolvingIsUnambiguous(sites: seq<CatalogSite>, id: string)
    requires ValidOpaqueId(id)
    ensures var resolved := ResolveSite(sites, id);
      && (resolved == Err(NotFound) <==> !SiteOccurs(sites, id))
      && (resolved == Err(Ambiguous) <==> SiteOccursTwice(sites, id))
      && (resolved.Ok? <==> SiteOccurs(sites, id) && !SiteOccursTwice(sites, id))
      && (resolved.Ok? ==> resolved.value in sites && resolved.value.siteId == id)
  {
    var keep := (site: CatalogSite) => site.siteId == id;
    var matching := Filter(sites, keep);
    KeptCount(sites, keep);
    if |matching| == 0 {
      assert forall s :: 0 <= s < |sites| ==> !keep(sites[s]);
    } else if |matching| == 1 {
      FilterMembers(sites, keep, matching[0]);
      forall s, t | 0 <= s < t < |sites| ensures !(sites[s].siteId == id == sites[t].siteId) {
        assert !(keep(sites[s]) && keep(sites[t]));
      }
    } else {
      var s, t :| 0 <= s < t < |sites| && keep(sites[s]) && keep(sites[t]);
      assert sites[s].siteId == id == sites[t].siteId;
    }
  }

  predicate LabelExists(sites: seq<CatalogSite>, tag: string) {
    exists i :: 0 <= i < |sites| && tag in sites[i].labels
  }

  predicate Broad(selectors: Selectors) {
    selectors.all || selectors.siteIds != [] || selectors.kinds != [] || selectors.labels != []
  }

  /** The request can be answered: some selector is given, every ID names exactly one thing of the
      catalog, and every label is in use. */
  ghost predicate Answerable(selectors: Selectors, sites: seq<CatalogSite>) {
    && (Broad(selectors) || selectors.environmentIds != [])
    && (forall id :: id in selectors.environmentIds ==> ResolveEnvironment(sites, id).Ok?)
    && (forall id :: id in selectors.siteIds ==> ResolveSite(sites, id).Ok?)
    && (forall tag :: tag in selectors.labels ==>
          ValidLabel(tag) && LabelExists(sites, tag))
  }

  method ValidateSyntax(selectors: Selectors) returns (error: Option<SelectionError>)
    ensures error.None? <==>
      && (Broad(selectors) || selectors.environmentIds != [])
      && (forall id :: id in selectors.environmentIds ==> ValidOpaqueId(id))
      && (forall id :: id in selectors.siteIds ==> ValidOpaqueId(id))
      && (forall tag :: tag in selectors.labels ==> ValidLabel(tag))
    ensures error == Some(NoSelector) <==> !Broad(selectors) && selectors.environmentIds == []
    ensures error == Some(MalformedId) <==>
      && error != Some(NoSelector)
      && exists id ::
           (id in selectors.environmentIds || id in selectors.siteIds) && !ValidOpaqueId(id)
    ensures error == Some(MalformedLabel) <==>
      && error != Some(NoSelector) && error != Some(MalformedId)
      && exists tag :: tag in selectors.labels && !ValidLabel(tag)
    ensures error.Some? ==> error.value in {NoSelector, MalformedId, MalformedLabel}
  {
    if !Broad(selectors) && selectors.environmentIds == [] {
      return Some(NoSelector);
    }
    for k := 0 to |selectors.environmentIds|
      invariant forall i :: 0 <= i < k ==> ValidOpaqueId(selectors.environmentIds[i])
    {
      if !ValidOpaqueId(selectors.environmentIds[k]) {
        return Some(MalformedId);
      }
    }
    for k := 0 to |selectors.siteIds|
      invariant forall i :: 0 <= i < k ==> ValidOpaqueId(selectors.siteIds[i])
    {
      if !ValidOpaqueId(selectors.siteIds[k]) {
        return Some(MalformedId);
      }
    }
    for k := 0 to |selectors.labels|
      invariant forall i :: 0 <= i < k ==> ValidLabel(selectors.labels[i])
    {
      if !ValidLabel(selectors.labels[k]) {
        return Some(MalformedLabel);
      }
    }
    return None;
  }

  function SetOf<T>(xs: seq<T>): set<T> {
    set x | x in xs
  }

  /** `validate_requested_environment_ids`, in whatever order a hash set yields the IDs. */
  method ValidateEnvironmentIds(sites: seq<CatalogSite>, requested: seq<string>)
    returns (error: Option<SelectionError>)
    ensures error.None? <==> forall id :: id in requested ==> ResolveEnvironment(sites, id).Ok?
    ensures error.Some? ==>
      exists id :: id in requested && ResolveEnvironment(sites, id) == Err(error.value)
  {
    var pending := SetOf(requested);
    while pending != {}
      invariant forall id :: id in pending ==> id in requested
      invariant forall id :: id in requested && id !in pending ==>
        ResolveEnvironment(sites, id).Ok?
      decreases |pending|
    {
      var id :| id in pending;
      var resolved := ResolveEnvironment(sites, id);
      if resolved.Err? {
        return Some(resolved.error);
      }
      pending := pending - {id};
    }
    return None;
  }

  /** `validate_requested_site_ids`. */
  method ValidateSiteIds(sites: seq<CatalogSite>, requested: seq<string>)
    returns (error: Option<SelectionError>)
    ensures error.None? <==> forall id :: id in requested ==> ResolveSite(sites, id).Ok?
    ensures error.Some? ==> exists id :: id in requested && ResolveSite(sites, id) == Err(error.value)
  {
    var pending := SetOf(requested);
    while pending != {}
      invariant forall id :: id in pending ==> id in requested
      invariant forall id :: id in requested && id !in pending ==> ResolveSite(sites, id).Ok?
      decreases |pending|
    {
      var id :| id in pending;
      var resolved := ResolveSite(sites, id);
      if resolved.Err? {
        return Some(resolved.error);
      }
      pending := pending - {id};
    }
    return None;
  }

  /** `validate_requested_labels`. */
  method ValidateLabels(sites: seq<CatalogSite>, requested: seq<string>)
    returns (error: Option<SelectionError>)
    ensures error.None? <==>
      forall tag :: tag in requested ==> ValidLabel(tag) && LabelExists(sites, tag)
    ensures error.Some? ==>
      || (error == Some(MalformedLabel) && exists tag :: tag in requested && !ValidLabel(tag))
      || (error == Some(NotFound) && exists tag :: tag in requested && !LabelExists(sites, tag))
  {
    var pending := SetOf(requested);
    while pending != {}
      invariant forall tag :: tag in pending ==> tag in requested
      invariant forall tag :: tag in requested && tag !in pending ==>
        ValidLabel(tag) && LabelExists(sites, tag)
      decreases |pending|
    {
      var tag :| tag in pending;
      if !ValidLabel(tag) {
        return Some(MalformedLabel);
      }
      if !LabelExists(sites, tag) {
        return Some(NotFound);
      }
      pending := pending - {tag};
    }
    return None;
  }

  // ---------------------------------------------------------------- selecting

  lemma {:induction false} NothingKept<T>(xs: seq<T>, keep: T -> bool)
    requires forall i :: 0 <= i < |xs| ==> !keep(xs[i])
    ensures Filter(xs, keep) == []
  {
    if xs != [] {
      NothingKept(xs[1..], keep);
    }
  }

  /** The nested loops over sites and environments. */
  method Collect(selectors: Selectors, sites: seq<CatalogSite>) returns (targets: seq<Located>)
    ensures targets == Query(selectors, sites)
  {
    var siteIds, labels := SetOf(selectors.siteIds), SetOf(selectors.labels);
    ghost var keep := (located: Located) => Matches(selectors, located);
    targets := [];
    for s := 0 to |sites|
      invariant targets + Filter(AllEnvironments(sites[s..]), keep) == Query(selectors, sites)
    {
      var site := sites[s];
      ghost var later := AllEnvironments(sites[s + 1..]);
      assert sites[s..][1..] == sites[s + 1..];
      FilterConcat(InSite(site, site.environments), later, keep);
      var siteMatches := siteIds == {} || site.siteId in siteIds;
      var labelMatches := labels == {} || exists tag :: tag in site.labels && tag in labels;
      EmptySets(selectors);
      if siteMatches && labelMatches {
        var found := CollectSite(selectors, site);
        ConcatAssociates(targets, found, Filter(later, keep));
        targets := targets + found;
      } else {
        NothingKept(InSite(site, site.environments), keep);
        assert Filter(InSite(site, site.environments), keep) + Filter(later, keep)
            == Filter(later, keep);
      }
    }
    assert targets + Filter(AllEnvironments([]), keep) == targets;
  }

  lemma EmptySets(selectors: Selectors)
    ensures SetOf(selectors.environmentIds) == {} <==> selectors.environmentIds == []
    ensures SetOf(selectors.siteIds) == {} <==> selectors.siteIds == []
    ensures SetOf(selectors.labels) == {} <==> selectors.labels == []
  {
    assert selectors.environmentIds != [] ==>
      selectors.environmentIds[0] in SetOf(selectors.environmentIds);
    assert selectors.siteIds != [] ==> selectors.siteIds[0] in SetOf(selectors.siteIds);
    assert selectors.labels != [] ==> selectors.labels[0] in SetOf(selectors.labels);
  }

  lemma FilterStep(site: CatalogSite, e: nat, keep: Located -> bool)
    requires e < |site.environments|
    ensures Filter(InSite(site, site.environments[..e + 1]), keep)
         == Filter(InSite(site, site.environments[..e]), keep)
            + (if keep(Located(site, site.environments[e]))
               then [Located(site, site.environments[e])] else [])
  {
    var front, last := InSite(site, site.environments[..e]), Located(site, site.environments[e]);
    assert InSite(site, site.environments[..e + 1]) == front + [last];
    FilterConcat(front, [last], keep);
    assert Filter([last], keep) == if keep(last) then [last] else [];
  }

  /** In a site that matches, the two other categories decide. */
  lemma CategoriesDecide(selectors: Selectors, site: CatalogSite, environment: EnvironmentSummary)
    requires selectors.siteIds == [] || site.siteId in selectors.siteIds
    requires selectors.labels == []
      || exists tag :: tag in site.labels && tag in selectors.labels
    ensures Matches(selectors, Located(site, environment)) <==>
      && (SetOf(selectors.environmentIds) == {}
          || EnvironmentId(environment) in SetOf(selectors.environmentIds))
      && (selectors.kinds == [] || environment.kind in selectors.kinds)
  {
    EmptySets(selectors);
  }

  /** The inner loop, for a site that matches the site and label categories. */
  method CollectSite(selectors: Selectors, site: CatalogSite) returns (targets: seq<Located>)
    requires selectors.siteIds == [] || site.siteId in selectors.siteIds
    requires selectors.labels == []
      || exists tag :: tag in site.labels && tag in selectors.labels
    ensures targets ==
      Filter(InSite(site, site.environments), (located: Located) => Matches(selectors, located))
  {
    var environmentIds := SetOf(selectors.environmentIds);
    ghost var keep := (located: Located) => Matches(selectors, located);
    targets := [];
    for e := 0 to |site.environments|
      invariant targets == Filter(InSite(site, site.environments[..e]), keep)
    {
      var environment := site.environments[e];
      FilterStep(site, e, keep);
      CategoriesDecide(selectors, site, environment);
      var environmentMatches := environmentIds == {} || EnvironmentId(environment) in environmentIds;
      var kindMatches := selectors.kinds == [] || environment.kind in selectors.kinds;
      if environmentMatches && kindMatches {
        targets := targets + [Located(site, environment)];
      }
    }
    assert site.environments[..|site.environments|] == site.environments;
  }

  /** `select_environments`: an answerable request gets exactly the environments that match it, in
      catalog order, unless there are none. */
  method SelectEnvironments(selectors: Selectors, sites: seq<CatalogSite>)
    returns (result: Result<Selected, SelectionError>)
    ensures result.Ok? <==> Answerable(selectors, sites) && Query(selectors, sites) != []
    ensures result.Ok? ==> result.value.targets == Query(selectors, sites)
    ensures result.Ok? ==>
      (result.value.broad <==>
         || selectors.all || selectors.siteIds != [] || selectors.kinds != []
         || selectors.labels != [])
    ensures result == Err(NothingMatches) <==>
      Answerable(selectors, sites) && Query(selectors, sites) == []
    ensures result == Err(NoSelector) <==>
      && !selectors.all && selectors.environmentIds == [] && selectors.siteIds == []
      && selectors.kinds == [] && selectors.labels == []
    ensures result == Err(MalformedId) <==>
      && result != Err(NoSelector)
      && exists id ::
           (id in selectors.environmentIds || id in selectors.siteIds) && !ValidOpaqueId(id)
    ensures result == Err(MalformedLabel) <==>
      && result != Err(NoSelector) && result != Err(MalformedId)
      && exists tag :: tag in selectors.labels && !ValidLabel(tag)
    ensures result == Err(NotFound) ==>
      || (exists id :: id in selectors.environmentIds && !Occurs(AllEnvironments(sites), id))
      || (exists id :: id in selectors.siteIds && !SiteOccurs(sites, id))
      || (exists tag :: tag in selectors.labels
            && forall s :: 0 <= s < |sites| ==> tag !in sites[s].labels)
    ensures result == Err(Ambiguous) ==>
      (exists id :: id in selectors.environmentIds
         && ResolveEnvironment(sites, id) == Err(Ambiguous))
      || (exists id :: id in selectors.siteIds && ResolveSite(sites, id) == Err(Ambiguous))
  {
    var error := ValidateSyntax(selectors);
    if error.Some? {
      return Err(error.value);
    }
    error := ValidateEnvironmentIds(sites, selectors.environmentIds);
    if error.Some? {
      var id :| id in selectors.environmentIds
        && ResolveEnvironment(sites, id) == Err(error.value);
      ResolvingIsUnambiguous(sites, id);
      return Err(error.value);
    }
    error := ValidateSiteIds(sites, selectors.siteIds);
    if error.Some? {
      var id :| id in selectors.siteIds && ResolveSite(sites, id) == Err(error.value);
      SiteResolvingIsUnambiguous(sites, id);
      return Err(error.value);
    }
    error := ValidateLabels(sites, selectors.labels);
    if error.Some? {
      return Err(error.value);
    }
    var targets := Collect(selectors, sites);
    if targets == [] {
      return Err(NothingMatches);
    }
    return Ok(Selected(targets, Broad(selectors)));
  }

  // ---------------------------------------------------------------- what a query contains

  /** An environment is a target exactly if it is in the catalog and matches. */
  lemma {:induction false} FilterMembers<T>(xs: seq<T>, keep: T -> bool, x: T)
    ensures x in Filter(xs, keep) <==> x in xs && keep(x)
  {
    if xs != [] {
      FilterMembers(xs[1..], keep, x);
      assert xs == [xs[0]] + xs[1..];
    }
  }

  lemma TargetsAreTheMatches(selectors: Selectors, sites: seq<CatalogSite>, located: Located)
    ensures located in Query(selectors, sites) <==>
      && (exists s :: 0 <= s < |sites|
            && located.site == sites[s] && located.environment in sites[s].environments)
      && (selectors.environmentIds == []
          || located.environment.reference.environmentId in selectors.environmentIds)
      && (selectors.siteIds == [] || located.site.siteId in selectors.siteIds)
      && (selectors.kinds == [] || located.environment.kind in selectors.kinds)
      && (selectors.labels == []
          || exists tag :: tag in located.site.labels && tag in selectors.labels)
  {
    FilterMembers(AllEnvironments(sites), (l: Located) => Matches(selectors, l), located);
    CatalogMembers(sites, located);
  }

  /** Which requests can be answered at all, in words: there is a selector, every ID requested is
      well-formed and occurs once, and every label is well-formed and in use. */
  lemma AnswerableExactly(selectors: Selectors, sites: seq<CatalogSite>)
    ensures Answerable(selectors, sites) <==>
      && (selectors.all || selectors.environmentIds != [] || selectors.siteIds != []
          || selectors.kinds != [] || selectors.labels != [])
      && (forall id :: id in selectors.environmentIds ==>
            && ValidOpaqueId(id) && Occurs(AllEnvironments(sites), id)
            && !OccursTwice(AllEnvironments(sites), id))
      && (forall id :: id in selectors.siteIds ==>
            ValidOpaqueId(id) && SiteOccurs(sites, id) && !SiteOccursTwice(sites, id))
      && (forall tag :: tag in selectors.labels ==>
            ValidComponent(tag, 512) && exists s :: 0 <= s < |sites| && tag in sites[s].labels)
  {
    forall id | id in selectors.environmentIds && ValidOpaqueId(id)
      ensures ResolveEnvironment(sites, id).Ok? <==>
        Occurs(AllEnvironments(sites), id) && !OccursTwice(AllEnvironments(sites), id)
    {
      ResolvingIsUnambiguous(sites, id);
    }
    forall id | id in selectors.siteIds && ValidOpaqueId(id)
      ensures ResolveSite(sites, id).Ok? <==>
        SiteOccurs(sites, id) && !SiteOccursTwice(sites, id)
    {
      SiteResolvingIsUnambiguous(sites, id);
    }
  }

  /** A request for everything, and nothing else, gets every environment in catalog order. */
  lemma AllSelectsAll(selectors: Selectors, sites: seq<CatalogSite>)
    requires selectors == Selectors([], [], [], [], true)
    ensures Answerable(selectors, sites)
    ensures Query(selectors, sites) == AllEnvironments(sites)
  {
    KeepsAll(AllEnvironments(sites), (l: Located) => Matches(selectors, l));
  }

  lemma {:induction false} KeepsAll<T>(xs: seq<T>, keep: T -> bool)
    requires forall i :: 0 <= i < |xs| ==> keep(xs[i])
    ensures Filter(xs, keep) == xs
  {
    if xs != [] {
      KeepsAll(xs[1..], keep);
    }
  }

  /** The environments with one of the IDs. */
  function WithOneOf(all: seq<Located>, ids: set<string>): seq<Located> {
    Filter(all, (l: Located) => LocatedId(l) in ids)
  }

  lemma {:induction false} FilterByIdOnly(all: seq<Located>, ids: set<string>)
    requires forall id :: id in ids ==> |WithId(all, id)| == 1
    ensures |WithOneOf(all, ids)| == |ids|
    ensures Distinct(Map(WithOneOf(all, ids), LocatedId))
    decreases |all|
  {
    if all == [] {
      assert forall id :: |WithId(all, id)| == 0;
      assert ids == {};
    } else {
      var id, rest := LocatedId(all[0]), all[1..];
      var fewer := ids - {id};
      forall other | other in fewer ensures |WithId(rest, other)| == 1 {
        assert |WithId(all, other)| == 1;
      }
      FilterByIdOnly(rest, fewer);
      if id in ids {
        TakesTheHead(all, ids);
        FilteredIds(rest, fewer);
      } else {
        assert fewer == ids;
      }
    }
  }

  /** An environment whose ID nobody shares is selected first, and the others without its ID. */
  lemma TakesTheHead(all: seq<Located>, ids: set<string>)
    requires all != [] && LocatedId(all[0]) in ids && |WithId(all, LocatedId(all[0]))| == 1
    ensures WithOneOf(all, ids) == [all[0]] + WithOneOf(all[1..], ids - {LocatedId(all[0])})
  {
    var id, rest := LocatedId(all[0]), all[1..];
    assert |WithId(all, id)| == 1 + |WithId(rest, id)|;
    SameFilter(rest, (l: Located) => LocatedId(l) in ids,
      (l: Located) => LocatedId(l) in ids - {id}, id);
  }

  /** Where nothing carries an ID, selecting with or without it is the same. */
  lemma {:induction false} SameFilter(
    all: seq<Located>, keep: Located -> bool, keep': Located -> bool, id: string)
    requires WithId(all, id) == []
    requires forall l: Located :: LocatedId(l) != id ==> keep(l) == keep'(l)
    ensures Filter(all, keep) == Filter(all, keep')
  {
    if all != [] {
      SameFilter(all[1..], keep, keep', id);
    }
  }

  lemma FilteredIds(all: seq<Located>, ids: set<string>)
    ensures forall l :: l in WithOneOf(all, ids) ==> LocatedId(l) in ids
  {
    forall l | l in WithOneOf(all, ids) ensures LocatedId(l) in ids {
      FilterMembers(all, (l: Located) => LocatedId(l) in ids, l);
    }
  }

  /** A selection by environment IDs alone has one target for each distinct ID. */
  lemma IdSelectionIsExact(selectors: Selectors, sites: seq<CatalogSite>)
    requires Answerable(selectors, sites) && !Broad(selectors)
    ensures |Query(selectors, sites)| == |SetOf(selectors.environmentIds)|
    ensures Distinct(Map(Query(selectors, sites), LocatedId))
    ensures Query(selectors, sites) != []
  {
    var all, ids := AllEnvironments(sites), SetOf(selectors.environmentIds);
    FilterByIdOnly(all, ids);
    FilterExtensional(all, (l: Located) => Matches(selectors, l),
      (l: Located) => LocatedId(l) in ids);
    assert selectors.environmentIds[0] in ids;
  }

  lemma {:induction false} FilterExtensional<T(!new)>(xs: seq<T>, keep: T -> bool, keep': T -> bool)
    requires forall x :: keep(x) == keep'(x)
    ensures Filter(xs, keep) == Filter(xs, keep')
  {
    if xs != [] {
      FilterExtensional(xs[1..], keep, keep');
    }
  }
}
