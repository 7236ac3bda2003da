/** Joining fetched inventory with the catalog, and the canonical order of the result. */
module InventoryMapping {
  import opened Common
  import opened Ordering
  import opened Identifiers
  import opened InventoryPaging
  import opened Catalog

  datatype ComponentInstallation =
    ComponentInstallation(environment: EnvironmentRef, status: string, version: string)

  datatype Component = Component(
    slug: string, title: string, latestVersion: Option<string>,
    installations: seq<ComponentInstallation>)

  datatype Inventory =
    Inventory(total: nat, refreshedAt: Option<string>, components: seq<Component>)

  function InstallationId(installation: Installation): string {
    installation.id
  }

  predicate InstallationLe(left: ComponentInstallation, right: ComponentInstallation) {
    ThenLe(left.environment.siteId, right.environment.siteId,
      StringLe(left.environment.environmentId, right.environment.environmentId))
  }

  predicate ComponentLe(left: Component, right: Component) {
    ThenLe(left.title, right.title, StringLe(left.slug, right.slug))
  }

  function MapInstallation(installation: Installation, index: Index): Option<ComponentInstallation> {
    if installation.id in index
    then Some(ComponentInstallation(index[installation.id], installation.status,
                                    installation.version))
    else None
  }

  /** `collect` into a result: all values in order, or nothing. */
  function Collect<T>(xs: seq<Option<T>>): (all: Option<seq<T>>)
    ensures all.Some? <==> forall i :: 0 <= i < |xs| ==> xs[i].Some?
    ensures all.Some? ==>
      |all.value| == |xs| && forall i :: 0 <= i < |xs| ==> all.value[i] == xs[i].value
  {
    if xs == [] then Some([])
    else
      match (xs[0], Collect(xs[1..]))
      case (Some(x), Some(rest)) => Some([x] + rest)
      case _ => None
  }

  /** Collecting the images of `xs` and sorting them: every image, nothing else, in order. */
  lemma SortedImages<T, U(!new)>(xs: seq<T>, f: T -> Option<U>, le: (U, U) -> bool)
    requires TotalPreorder(le) && Collect(Map(xs, f)).Some?
    ensures var images := Sort(Collect(Map(xs, f)).value, le);
      && |images| == |xs| && Sorted(images, le)
      && (forall i :: 0 <= i < |xs| ==> f(xs[i]).Some? && f(xs[i]).value in images)
      && (forall u :: u in images ==> exists i :: 0 <= i < |xs| && f(xs[i]) == Some(u))
  {
    var mapped := Map(xs, f);
    var all := Collect(mapped).value;
    SortSorts(all, le);
    SortPermutes(all, le);
    forall i | 0 <= i < |xs| ensures f(xs[i]).Some? && f(xs[i]).value in Sort(all, le) {
      assert mapped[i] == f(xs[i]);
      assert all[i] in all;
    }
    forall u | u in Sort(all, le) ensures exists i :: 0 <= i < |xs| && f(xs[i]) == Some(u) {
      var i :| 0 <= i < |all| && all[i] == u;
      assert mapped[i] == f(xs[i]);
    }
  }

  /** The images of a rearranged sequence sort to the same result if none of them tie. */
  lemma SortedImagesCanonical<T, U(!new)>(
    xs: seq<T>, ys: seq<T>, f: T -> Option<U>, le: (U, U) -> bool)
    requires TotalPreorder(le) && multiset(xs) == multiset(ys)
    requires Collect(Map(xs, f)).Some? ==> NoTies(Collect(Map(xs, f)).value, le)
    ensures Collect(Map(xs, f)).Some? <==> Collect(Map(ys, f)).Some?
    ensures Collect(Map(xs, f)).Some? ==>
      Sort(Collect(Map(xs, f)).value, le) == Sort(Collect(Map(ys, f)).value, le)
  {
    var us, vs := Map(xs, f), Map(ys, f);
    MapPermutes(xs, ys, f);
    SameMultiset(us, vs);
    CollectSeesMembers(us);
    CollectSeesMembers(vs);
    if Collect(us).Some? {
      CollectPermutes(us, vs);
      SortCanonical(Collect(us).value, Collect(vs).value, le);
    }
  }

  lemma CollectSeesMembers<U>(us: seq<Option<U>>)
    ensures Collect(us).Some? <==> None !in us
  {
  }

  /** Collecting permuted values gives permuted values. */
  lemma CollectPermutes<U>(us: seq<Option<U>>, vs: seq<Option<U>>)
    requires multiset(us) == multiset(vs) && Collect(us).Some? && Collect(vs).Some?
    ensures multiset(Collect(us).value) == multiset(Collect(vs).value)
  {
    var xs, ys := Collect(us).value, Collect(vs).value;
    forall x ensures multiset(xs)[x] == multiset(ys)[x] {
      MultiplicityOfSome(us, x);
      MultiplicityOfSome(vs, x);
    }
  }

  lemma {:induction false} MultiplicityOfSome<U>(us: seq<Option<U>>, x: U)
    requires Collect(us).Some?
    ensures multiset(Collect(us).value)[x] == multiset(us)[Some(x)]
  {
    if us != [] {
      MultiplicityOfSome(us[1..], x);
      MultiplicityOfHead(us, Some(x));
      MultiplicityOfHead(Collect(us).value, x);
      assert Collect(us).value[1..] == Collect(us[1..]).value;
    }
  }

  lemma MultiplicityOfHead<T>(xs: seq<T>, x: T)
    requires xs != []
    ensures multiset(xs)[x] == (if xs[0] == x then 1 else 0) + multiset(xs[1..])[x]
  {
    assert xs == [xs[0]] + xs[1..];
  }

  function MapItem(item: InventoryItem, index: Index): Option<Component> {
    match Collect(Map(item.installations, (i: Installation) => MapInstallation(i, index)))
    case None => None
    case Some(installations) =>
      Some(Component(item.name, item.title, item.latestVersion,
        Sort(installations, InstallationLe)))
  }

  /** `map_inventory`. None is the provider contract error. */
  function MapInventory(raw: RawInventory, index: Index): Option<Inventory> {
    match Collect(Map(raw.items, (item: InventoryItem) => MapItem(item, index)))
    case None => None
    case Some(components) =>
      Some(Inventory(raw.total, raw.refreshedAt, Sort(components, ComponentLe)))
  }

  /** Every installation of every item is in an environment the index knows. */
  ghost predicate AllKnown(items: seq<InventoryItem>, index: Index) {
    forall i, j :: 0 <= i < |items| && 0 <= j < |items[i].installations| ==>
      items[i].installations[j].id in index
  }

  lemma MapItemSucceeds(item: InventoryItem, index: Index)
    ensures MapItem(item, index).Some? <==>
      forall j :: 0 <= j < |item.installations| ==> item.installations[j].id in index
  {
    var mapped := Map(item.installations, (i: Installation) => MapInstallation(i, index));
    assert forall j :: 0 <= j < |mapped| ==>
      mapped[j] == MapInstallation(item.installations[j], index);
  }

  /** Mapping fails exactly when some installation is in an unknown environment. */
  lemma MapSucceedsIffAllKnown(raw: RawInventory, index: Index)
    ensures MapInventory(raw, index).Some? <==> AllKnown(raw.items, index)
  {
    var mapped := Map(raw.items, (item: InventoryItem) => MapItem(item, index));
    forall i | 0 <= i < |mapped|
      ensures mapped[i].Some? <==>
        forall j :: 0 <= j < |raw.items[i].installations| ==>
          raw.items[i].installations[j].id in index
    {
      MapItemSucceeds(raw.items[i], index);
    }
  }

  /** One installation of one item, found in the result under its own ID: the reference the catalog
      holds for that very ID, with the status and version the provider gave. */
  ghost predicate Joined(
    component: Component, item: InventoryItem, installation: Installation, index: Index)
  {
    && component.slug == item.name && component.title == item.title
    && component.latestVersion == item.latestVersion
    && installation.id in index
    && ComponentInstallation(index[installation.id], installation.status, installation.version)
         in component.installations
  }

  /** The component of an item has all of its installations and no others, in canonical order. */
  lemma MappedItemIsJoined(item: InventoryItem, index: Index)
    requires MapItem(item, index).Some?
    ensures var component := MapItem(item, index).value;
      && component.slug == item.name && component.title == item.title
      && component.latestVersion == item.latestVersion
      && |component.installations| == |item.installations|
      && Sorted(component.installations, InstallationLe)
      && (forall j :: 0 <= j < |item.installations| ==>
            Joined(component, item, item.installations[j], index))
      && (forall x :: x in component.installations ==> ComesFrom(x, item, index))
  {
    var f := (i: Installation) => MapInstallation(i, index);
    InstallationLeIsPreorder();
    SortedImages(item.installations, f, InstallationLe);
    var component := MapItem(item, index).value;
    forall x | x in component.installations ensures ComesFrom(x, item, index) {
      var j :| 0 <= j < |item.installations| && f(item.installations[j]) == Some(x);
      assert MapInstallation(item.installations[j], index) == Some(x);
    }
    forall j | 0 <= j < |item.installations|
      ensures Joined(component, item, item.installations[j], index)
    {
      assert f(item.installations[j]).value in component.installations;
    }
  }

  /** `x` is the image of one of the item's installations. */
  ghost predicate ComesFrom(x: ComponentInstallation, item: InventoryItem, index: Index) {
    exists j :: 0 <= j < |item.installations|
      && MapInstallation(item.installations[j], index) == Some(x)
  }

  /** The components of the result are the items, mapped one by one, in canonical order. */
  lemma ComponentsAreItems(raw: RawInventory, index: Index)
    requires MapInventory(raw, index).Some?
    ensures var components := MapInventory(raw, index).value.components;
      && MapInventory(raw, index).value.total == raw.total
      && MapInventory(raw, index).value.refreshedAt == raw.refreshedAt
      && Sorted(components, ComponentLe) && |components| == |raw.items|
      && (forall i :: 0 <= i < |raw.items| ==>
            MapItem(raw.items[i], index).Some?
            && MapItem(raw.items[i], index).value in components)
      && (forall c :: c in components ==>
            exists i :: 0 <= i < |raw.items| && MapItem(raw.items[i], index) == Some(c))
  {
    var f := (item: InventoryItem) => MapItem(item, index);
    ComponentLeIsPreorder();
    SortedImages(raw.items, f, ComponentLe);
    var components := MapInventory(raw, index).value.components;
    assert forall i :: 0 <= i < |raw.items| ==> f(raw.items[i]) == MapItem(raw.items[i], index);
    forall c | c in components
      ensures exists i :: 0 <= i < |raw.items| && MapItem(raw.items[i], index) == Some(c)
    {
      var i :| 0 <= i < |raw.items| && f(raw.items[i]) == Some(c);
    }
  }

  /** With the index of a catalog every installation in the result carries a reference of that
      catalog, and it is the one with the installation's own ID. */
  lemma InstallationsAreOfTheCatalog(
    raw: RawInventory, index: Index, all: seq<Located>, c: Component, x: ComponentInstallation)
    requires Indexes(index, all) && MapInventory(raw, index).Some?
    requires c in MapInventory(raw, index).value.components && x in c.installations
    ensures exists i ::
      0 <= i < |raw.items| && raw.items[i].name == c.slug && ComesFrom(x, raw.items[i], index)
    ensures FindEnvironment(all, x.environment.environmentId).Some?
    ensures FindEnvironment(all, x.environment.environmentId).value.environment.reference
      == x.environment
  {
    ComponentsAreItems(raw, index);
    var i :| 0 <= i < |raw.items| && MapItem(raw.items[i], index) == Some(c);
    MappedItemIsJoined(raw.items[i], index);
    assert ComesFrom(x, raw.items[i], index);
    OriginIsIndexed(x, raw.items[i], index, all);
  }

  lemma OriginIsIndexed(
    x: ComponentInstallation, item: InventoryItem, index: Index, all: seq<Located>)
    requires Indexes(index, all) && ComesFrom(x, item, index)
    ensures FindEnvironment(all, x.environment.environmentId).Some?
    ensures FindEnvironment(all, x.environment.environmentId).value.environment.reference
      == x.environment
  {
    var j :| 0 <= j < |item.installations|
      && MapInstallation(item.installations[j], index) == Some(x);
    assert item.installations[j].id in index;
  }

  // ---------------------------------------------------------------- canonical order

  lemma InstallationLeIsPreorder()
    ensures TotalPreorder(InstallationLe)
  {
    forall x, y ensures InstallationLe(x, y) || InstallationLe(y, x) {
      ThenLeProperties(x.environment.siteId, x.environment.environmentId,
        y.environment.siteId, y.environment.environmentId, "", "");
    }
    forall x, y, z | InstallationLe(x, y) && InstallationLe(y, z) ensures InstallationLe(x, z) {
      ThenLeProperties(x.environment.siteId, x.environment.environmentId,
        y.environment.siteId, y.environment.environmentId,
        z.environment.siteId, z.environment.environmentId);
    }
  }

  lemma ComponentLeIsPreorder()
    ensures TotalPreorder(ComponentLe)
  {
    forall x, y ensures ComponentLe(x, y) || ComponentLe(y, x) {
      ThenLeProperties(x.title, x.slug, y.title, y.slug, "", "");
    }
    forall x, y, z | ComponentLe(x, y) && ComponentLe(y, z) ensures ComponentLe(x, z) {
      ThenLeProperties(x.title, x.slug, y.title, y.slug, z.title, z.slug);
    }
  }

  /** The two orders in words: installations by site and environment ID, components by title and
      slug, in the order of a dictionary each. */
  lemma InventoryOrderIs(
    x: ComponentInstallation, y: ComponentInstallation, c: Component, d: Component)
    ensures InstallationLe(x, y) <==>
      || Before(x.environment.siteId, y.environment.siteId)
      || (x.environment.siteId == y.environment.siteId
          && (x.environment.environmentId == y.environment.environmentId
              || Before(x.environment.environmentId, y.environment.environmentId)))
    ensures ComponentLe(c, d) <==>
      Before(c.title, d.title) || (c.title == d.title && (c.slug == d.slug || Before(c.slug, d.slug)))
  {
    ThenLeIsDictionary(x.environment.siteId, x.environment.environmentId,
      y.environment.siteId, y.environment.environmentId);
    ThenLeIsDictionary(c.title, c.slug, d.title, d.slug);
  }

  function Slug(component: Component): string {
    component.slug
  }

  function EnvironmentIdOf(installation: ComponentInstallation): string {
    installation.environment.environmentId
  }

  /** The index gives each ID a reference of its own. */
  ghost predicate OwnIds(index: Index) {
    forall id :: id in index ==> index[id].environmentId == id
  }

  lemma IndexHasOwnIds(index: Index, all: seq<Located>)
    requires Indexes(index, all)
    ensures OwnIds(index)
  {
  }

  /** The installations of an item come out the same in whatever order they came in. */
  lemma InstallationOrderIrrelevant(item: InventoryItem, other: InventoryItem, index: Index)
    requires OwnIds(index)
    requires other.(installations := []) == item.(installations := [])
    requires multiset(item.installations) == multiset(other.installations)
    requires Distinct(Map(item.installations, InstallationId))
    ensures MapItem(item, index) == MapItem(other, index)
  {
    var f := (i: Installation) => MapInstallation(i, index);
    InstallationLeIsPreorder();
    if Collect(Map(item.installations, f)).Some? {
      var xs := Collect(Map(item.installations, f)).value;
      var mapped := Map(item.installations, f);
      assert forall i :: 0 <= i < |xs| ==> mapped[i] == MapInstallation(item.installations[i], index);
      assert Map(xs, EnvironmentIdOf) == Map(item.installations, InstallationId);
      InstallationsDoNotTie(xs);
    }
    SortedImagesCanonical(item.installations, other.installations, f, InstallationLe);
  }

  lemma InstallationsDoNotTie(xs: seq<ComponentInstallation>)
    requires Distinct(Map(xs, EnvironmentIdOf))
    ensures NoTies(xs, InstallationLe)
  {
    forall x, y | x in xs && y in xs && InstallationLe(x, y) && InstallationLe(y, x)
      ensures x == y
    {
      ThenLeProperties(x.environment.siteId, x.environment.environmentId,
        y.environment.siteId, y.environment.environmentId, "", "");
      DistinctKeys(xs, EnvironmentIdOf, x, y);
    }
  }

  lemma ComponentsDoNotTie(xs: seq<Component>)
    requires Distinct(Map(xs, Slug))
    ensures NoTies(xs, ComponentLe)
  {
    forall x, y | x in xs && y in xs && ComponentLe(x, y) && ComponentLe(y, x) ensures x == y {
      ThenLeProperties(x.title, x.slug, y.title, y.slug, "", "");
      DistinctKeys(xs, Slug, x, y);
    }
  }

  /** The inventory does not depend on the order of the fetched items, and so not on how the
      provider cut its list into pages or sorted it. */
  lemma ItemOrderIrrelevant(raw: RawInventory, other: RawInventory, index: Index)
    requires other.(items := []) == raw.(items := [])
    requires multiset(raw.items) == multiset(other.items)
    requires Distinct(Map(raw.items, Name))
    ensures MapInventory(raw, index) == MapInventory(other, index)
  {
    var f := (item: InventoryItem) => MapItem(item, index);
    ComponentLeIsPreorder();
    var mapped := Map(raw.items, f);
    if Collect(mapped).Some? {
      var xs := Collect(mapped).value;
      assert forall i :: 0 <= i < |xs| ==> mapped[i] == MapItem(raw.items[i], index);
      assert Map(xs, Slug) == Map(raw.items, Name);
      ComponentsDoNotTie(xs);
    }
    SortedImagesCanonical(raw.items, other.items, f, ComponentLe);
  }

  // ---------------------------------------------------------------- joining

  /** What a request for the catalog gives. */
  type Snapshot = Result<seq<CatalogSite>, FetchError>

  /** Every installation is in an environment linear search finds. */
  ghost predicate AllFound(raw: RawInventory, all: seq<Located>) {
    forall i, j :: 0 <= i < |raw.items| && 0 <= j < |raw.items[i].installations| ==>
      FindEnvironment(all, raw.items[i].installations[j].id).Some?
  }

  ghost predicate Unambiguous(sites: seq<CatalogSite>) {
    Distinct(Map(AllEnvironments(sites), LocatedId))
  }

  /** The catalog lacks an environment, and is to be fetched once more. */
  ghost predicate NeedsRefresh(raw: RawInventory, first: Snapshot) {
    first.Ok? && Unambiguous(first.value) && !AllFound(raw, AllEnvironments(first.value))
  }

  /** The inventory can be joined with the catalog. */
  ghost predicate Joinable(raw: RawInventory, used: Snapshot) {
    used.Ok? && Unambiguous(used.value) && AllFound(raw, AllEnvironments(used.value))
  }

  /** The outcome with a catalog that is not replaced any more. */
  ghost predicate JoinedWith(
    raw: RawInventory, used: Snapshot, result: Result<Inventory, FetchError>)
  {
    && (result.Ok? <==> Joinable(raw, used))
    && match result
       case Ok(inventory) =>
         exists index ::
           Indexes(index, AllEnvironments(used.value)) && MapInventory(raw, index) == Some(inventory)
       case Err(error) => error == if used.Err? then used.error else ContractBroken
  }

  /** The outcome of joining: the newer catalog alone is used if the older one lacks something. */
  ghost predicate Joins(
    raw: RawInventory, first: Snapshot, second: Snapshot, result: Result<Inventory, FetchError>)
  {
    JoinedWith(raw, if NeedsRefresh(raw, first) then second else first, result)
  }

  /** The catalog has an environment with this ID, or two of them. */
  ghost predicate CatalogHas(sites: seq<CatalogSite>, id: string) {
    exists located :: located in AllEnvironments(sites)
      && located.environment.reference.environmentId == id
  }

  ghost predicate SharedId(sites: seq<CatalogSite>) {
    var all := AllEnvironments(sites);
    exists i, j :: 0 <= i < j < |all|
      && all[i].environment.reference.environmentId == all[j].environment.reference.environmentId
  }

  /** Some item is installed in an environment the catalog does not have. */
  ghost predicate Lacks(sites: seq<CatalogSite>, raw: RawInventory) {
    exists item, installation ::
      item in raw.items && installation in item.installations
      && !CatalogHas(sites, installation.id)
  }

  lemma AllFoundExactly(raw: RawInventory, sites: seq<CatalogSite>)
    ensures AllFound(raw, AllEnvironments(sites)) <==> !Lacks(sites, raw)
  {
    var all := AllEnvironments(sites);
    forall id ensures FindEnvironment(all, id).Some? <==> CatalogHas(sites, id) {
      if CatalogHas(sites, id) {
        var located :| located in all && located.environment.reference.environmentId == id;
        var i :| 0 <= i < |all| && all[i] == located;
        assert LocatedId(all[i]) == id;
      }
    }
    if Lacks(sites, raw) {
      var item, installation :|
        item in raw.items && installation in item.installations
        && !CatalogHas(sites, installation.id);
      var i :| 0 <= i < |raw.items| && raw.items[i] == item;
      var j :| 0 <= j < |item.installations| && item.installations[j] == installation;
      assert FindEnvironment(all, raw.items[i].installations[j].id).None?;
    }
    if !Lacks(sites, raw) {
      forall i, j | 0 <= i < |raw.items| && 0 <= j < |raw.items[i].installations|
        ensures FindEnvironment(all, raw.items[i].installations[j].id).Some?
      {
        assert raw.items[i] in raw.items;
        assert raw.items[i].installations[j] in raw.items[i].installations;
      }
    }
  }

  lemma UnambiguousExactly(sites: seq<CatalogSite>)
    ensures Unambiguous(sites) <==> !SharedId(sites)
  {
    var ids := Map(AllEnvironments(sites), LocatedId);
    if SharedId(sites) {
      var all := AllEnvironments(sites);
      var i, j :| 0 <= i < j < |all|
        && all[i].environment.reference.environmentId == all[j].environment.reference.environmentId;
      assert ids[i] == ids[j];
    }
  }

  /** The outcome of joining, in words: the first catalog decides unless it is unambiguous and lacks
      an environment, and then the second one does. What decides is the error of its fetch, a broken
      contract if it is ambiguous or lacks an environment, and otherwise a success. */
  lemma JoinsExactly(
    raw: RawInventory, first: Snapshot, second: Snapshot, result: Result<Inventory, FetchError>)
    requires Joins(raw, first, second, result)
    ensures var again :=
        first.Ok? && !SharedId(first.value) && Lacks(first.value, raw);
      && (NeedsRefresh(raw, first) <==> again)
      && (var used := if again then second else first;
          match used
          case Err(error) => result == Err(error)
          case Ok(sites) =>
            if SharedId(sites) || Lacks(sites, raw) then result == Err(ContractBroken)
            else result.Ok?)
  {
    if first.Ok? {
      AllFoundExactly(raw, first.value);
      UnambiguousExactly(first.value);
    }
    if second.Ok? {
      AllFoundExactly(raw, second.value);
      UnambiguousExactly(second.value);
    }
  }

  /** `component_inventory` after the pages are in: if an installation is in no environment of the
      catalog, the catalog is fetched once more. */
  method JoinInventory(raw: RawInventory, first: Snapshot, second: Snapshot)
    returns (result: Result<Inventory, FetchError>, refreshed: bool)
    ensures refreshed <==> NeedsRefresh(raw, first)
    ensures Joins(raw, first, second, result)
  {
    refreshed := false;
    if first.Err? {
      return Err(first.error), false;
    }
    var used := first.value;
    var index := EnvironmentIndex(used);
    if index.None? {
      return Err(ContractBroken), false;
    }
    var known := KnownInstallations(raw.items, index.value);
    KnownIsFound(raw, index.value, AllEnvironments(used));
    if !known {
      refreshed := true;
      if second.Err? {
        return Err(second.error), true;
      }
      used := second.value;
      index := EnvironmentIndex(used);
      if index.None? {
        return Err(ContractBroken), true;
      }
    }
    JoinedByIndex(raw, used, index.value);
    result := Outcome(MapInventory(raw, index.value));
  }

  function Outcome(inventory: Option<Inventory>): Result<Inventory, FetchError> {
    if inventory.Some? then Ok(inventory.value) else Err(ContractBroken)
  }

  lemma JoinedByIndex(raw: RawInventory, sites: seq<CatalogSite>, index: Index)
    requires Indexes(index, AllEnvironments(sites)) && Unambiguous(sites)
    ensures JoinedWith(raw, Ok(sites), Outcome(MapInventory(raw, index)))
  {
    MapSucceedsIffAllKnown(raw, index);
    KnownIsFound(raw, index, AllEnvironments(sites));
  }

  lemma KnownIsFound(raw: RawInventory, index: Index, all: seq<Located>)
    requires Indexes(index, all)
    ensures AllKnown(raw.items, index) <==> AllFound(raw, all)
  {
    forall id ensures id in index <==> FindEnvironment(all, id).Some? {
    }
  }

  method KnownInstallations(items: seq<InventoryItem>, index: Index) returns (known: bool)
    ensures known <==> AllKnown(items, index)
  {
    for i := 0 to |items|
      invariant forall k, j :: 0 <= k < i && 0 <= j < |items[k].installations| ==>
        items[k].installations[j].id in index
    {
      for j := 0 to |items[i].installations|
        invariant forall l :: 0 <= l < j ==> items[i].installations[l].id in index
      {
        if items[i].installations[j].id !in index {
          return false;
        }
      }
    }
    return true;
  }
}
