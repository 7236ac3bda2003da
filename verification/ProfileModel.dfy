/** The profile configuration and the validation every load and every update ends with. */
module ProfileModel {
  import opened Common
  import opened Ordering
  import opened Identifiers

  const CONFIG_SCHEMA_VERSION := 1

  datatype CredentialSource = Keyring | Environment(variable: string)

  datatype ProfileRecord = ProfileRecord(
    provider: string, name: string, companyId: string,
    source: CredentialSource, expiresAt: Option<string>)

  /** The content of `profiles.json`. */
  datatype ConfigData = ConfigData(
    schemaVersion: nat, defaultProfile: Option<ProfileRef>, profiles: seq<ProfileRecord>)

  const DEFAULT_CONFIG := ConfigData(CONFIG_SCHEMA_VERSION, None, [])

  datatype ConfigError =
    UnsupportedSchema | InvalidVariable | InvalidExpiry | DuplicateReference | MissingDefault

  function Reference(profile: ProfileRecord): ProfileRef {
    ProfileRef(profile.provider, profile.name)
  }

  predicate ValidVariable(variable: string) {
    && variable != [] && ByteLength(variable) <= 128 && !IsDigit(variable[0])
    && forall c | c in variable :: IsLower(c) || IsUpper(c) || IsDigit(c) || c == '_'
  }

  predicate ValidSource(source: CredentialSource) {
    source.Environment? ==> ValidVariable(source.variable)
  }

  predicate ValidExpiry(expiresAt: Option<string>) {
    expiresAt.Some? ==> ByteLength(expiresAt.value) <= 128 && CleanText(expiresAt.value)
  }

  predicate ValidFields(profile: ProfileRecord) {
    ValidSource(profile.source) && ValidExpiry(profile.expiresAt)
  }

  /** Environment variables are 1 to 128 letters, digits and underscores, not beginning with a digit.
      Expiry metadata is at most 128 bytes; of visible characters any will do. */
  lemma FieldsShape(text: string)
    ensures ValidVariable(text) <==>
      && 1 <= |text| <= 128 && !('0' <= text[0] <= '9')
      && forall c :: c in text ==>
           'a' <= c <= 'z' || 'A' <= c <= 'Z' || '0' <= c <= '9' || c == '_'
    ensures ValidExpiry(None)
    ensures Visible(text) ==> (ValidExpiry(Some(text)) <==> |text| <= 128)
    ensures (exists c :: c in text && c < ' ') ==> !ValidExpiry(Some(text))
  {
    if Visible(text) {
      VisibleLength(text);
      VisibleIsClean(text);
    }
  }

  predicate RefLe(left: ProfileRef, right: ProfileRef) {
    ThenLe(left.provider, right.provider, StringLe(left.profile, right.profile))
  }

  predicate ProfileLe(left: ProfileRecord, right: ProfileRecord) {
    RefLe(Reference(left), Reference(right))
  }

  /** The position of the first profile with the given reference. */
  function Position(profiles: seq<ProfileRecord>, reference: ProfileRef): (k: Option<nat>)
    ensures k.None? <==> forall i :: 0 <= i < |profiles| ==> Reference(profiles[i]) != reference
    ensures k.Some? ==> k.value < |profiles| && Reference(profiles[k.value]) == reference
  {
    if profiles == [] then None
    else if Reference(profiles[0]) == reference then Some(0)
    else
      match Position(profiles[1..], reference)
      case None => None
      case Some(k) => Some(k + 1)
  }

  function FirstFieldError(profiles: seq<ProfileRecord>): (error: Option<ConfigError>)
    ensures error.None? <==> forall i :: 0 <= i < |profiles| ==> ValidFields(profiles[i])
  {
    if profiles == [] then None
    else if !ValidSource(profiles[0].source) then Some(InvalidVariable)
    else if !ValidExpiry(profiles[0].expiresAt) then Some(InvalidExpiry)
    else FirstFieldError(profiles[1..])
  }

  predicate AdjacentDuplicate(profiles: seq<ProfileRecord>) {
    exists i :: 0 <= i < |profiles| - 1 && Reference(profiles[i]) == Reference(profiles[i + 1])
  }

  /** `normalize_and_validate`: sort, then check fields, neighbours and the default. */
  function Normalize(config: ConfigData): Result<ConfigData, ConfigError> {
    var sorted := Sort(config.profiles, ProfileLe);
    if config.schemaVersion != CONFIG_SCHEMA_VERSION then Err(UnsupportedSchema)
    else if FirstFieldError(sorted).Some? then Err(FirstFieldError(sorted).value)
    else if AdjacentDuplicate(sorted) then Err(DuplicateReference)
    else if config.defaultProfile.Some? && Position(sorted, config.defaultProfile.value).None?
    then Err(MissingDefault)
    else Ok(config.(profiles := sorted))
  }

  predicate HasProfile(config: ConfigData, reference: ProfileRef) {
    exists i :: 0 <= i < |config.profiles| && Reference(config.profiles[i]) == reference
  }

  /** What a sound configuration is, without any mention of order. */
  ghost predicate Sound(config: ConfigData) {
    && config.schemaVersion == CONFIG_SCHEMA_VERSION
    && (forall i :: 0 <= i < |config.profiles| ==> ValidFields(config.profiles[i]))
    && Distinct(Map(config.profiles, Reference))
    && (config.defaultProfile.Some? ==> HasProfile(config, config.defaultProfile.value))
  }

  lemma RefLeProperties(a: ProfileRef, b: ProfileRef, c: ProfileRef)
    ensures RefLe(a, b) || RefLe(b, a)
    ensures RefLe(a, b) && RefLe(b, a) ==> a == b
    ensures RefLe(a, b) && RefLe(b, c) ==> RefLe(a, c)
  {
    StringLeTotal(a.provider, b.provider);
    StringLeTotal(b.provider, c.provider);
    StringLeTotal(a.profile, b.profile);
    if RefLe(a, b) && RefLe(b, c) {
      if StringLe(a.provider, b.provider) && StringLe(b.provider, c.provider) {
        StringLeTransitive(a.provider, b.provider, c.provider);
      }
      if a.provider == b.provider == c.provider {
        StringLeTransitive(a.profile, b.profile, c.profile);
      }
    }
  }

  lemma ProfileLeIsPreorder()
    ensures TotalPreorder(ProfileLe)
  {
    forall x, y ensures ProfileLe(x, y) || ProfileLe(y, x) {
      RefLeProperties(Reference(x), Reference(y), Reference(x));
    }
    forall x, y, z | ProfileLe(x, y) && ProfileLe(y, z) ensures ProfileLe(x, z) {
      RefLeProperties(Reference(x), Reference(y), Reference(z));
    }
  }

  /** In a sorted list, equal references anywhere mean equal neighbours. */
  lemma SortedNeighbours(profiles: seq<ProfileRecord>)
    requires Sorted(profiles, ProfileLe)
    ensures AdjacentDuplicate(profiles) <==> !Distinct(Map(profiles, Reference))
  {
    var references := Map(profiles, Reference);
    if AdjacentDuplicate(profiles) {
      var i :| 0 <= i < |profiles| - 1 && Reference(profiles[i]) == Reference(profiles[i + 1]);
      assert references[i] == references[i + 1];
    }
    if !Distinct(references) {
      var i, j :| 0 <= i < j < |references| && references[i] == references[j];
      if i + 1 < j {
        assert ProfileLe(profiles[i], profiles[i + 1]) && ProfileLe(profiles[i + 1], profiles[j]);
        RefLeProperties(references[i], references[i + 1], references[j]);
      }
    }
  }

  lemma SoundPermutes(config: ConfigData, profiles: seq<ProfileRecord>)
    requires multiset(config.profiles) == multiset(profiles)
    ensures Sound(config) <==> Sound(config.(profiles := profiles))
  {
    SameMultiset(config.profiles, profiles);
    DistinctPermutes(config.profiles, profiles, Reference);
    forall i | 0 <= i < |profiles| ensures profiles[i] in config.profiles {
      assert profiles[i] in profiles;
    }
    forall i | 0 <= i < |config.profiles| ensures config.profiles[i] in profiles {
      assert config.profiles[i] in config.profiles;
    }
  }

  /** The sorted neighbour check decides soundness exactly, and the result is the same set of
      profiles in canonical order. */
  lemma NormalizeDecidesSoundness(config: ConfigData)
    ensures Normalize(config).Ok? <==> Sound(config)
    ensures Normalize(config).Ok? ==>
      var normal := Normalize(config).value;
      && Sound(normal) && Sorted(normal.profiles, ProfileLe)
      && multiset(normal.profiles) == multiset(config.profiles)
      && normal.defaultProfile == config.defaultProfile
  {
    var sorted := Sort(config.profiles, ProfileLe);
    ProfileLeIsPreorder();
    SortSorts(config.profiles, ProfileLe);
    SortPermutes(config.profiles, ProfileLe);
    SoundPermutes(config, sorted);
    SortedNeighbours(sorted);
  }

  /** The normal form is in the order of a dictionary: by provider, and within one by name. */
  lemma NormalizedOrder(config: ConfigData, i: nat, j: nat)
    requires Normalize(config).Ok? && i < j < |Normalize(config).value.profiles|
    ensures var p, q := Normalize(config).value.profiles[i], Normalize(config).value.profiles[j];
      Before(p.provider, q.provider) || (p.provider == q.provider && Before(p.name, q.name))
  {
    NormalizeDecidesSoundness(config);
    var normal := Normalize(config).value;
    var p, q := normal.profiles[i], normal.profiles[j];
    assert ProfileLe(p, q);
    ThenLeIsDictionary(p.provider, p.name, q.provider, q.name);
    var references := Map(normal.profiles, Reference);
    assert references[i] != references[j];
  }

  /** Of the profiles with invalid fields, this one comes first in the order. */
  ghost predicate FirstInvalid(config: ConfigData, p: ProfileRecord) {
    && p in config.profiles && !(ValidSource(p.source) && ValidExpiry(p.expiresAt))
    && forall q :: q in config.profiles && !(ValidSource(q.source) && ValidExpiry(q.expiresAt)) ==>
         ProfileLe(p, q)
  }

  lemma {:induction false} FieldErrorAt(profiles: seq<ProfileRecord>) returns (k: nat)
    requires FirstFieldError(profiles).Some?
    ensures k < |profiles| && forall i :: 0 <= i < k ==> ValidFields(profiles[i])
    ensures FirstFieldError(profiles) == Some(
      if !ValidSource(profiles[k].source) then InvalidVariable else InvalidExpiry)
    ensures !ValidFields(profiles[k])
  {
    if !ValidFields(profiles[0]) {
      k := 0;
    } else {
      var j := FieldErrorAt(profiles[1..]);
      k := j + 1;
    }
  }

  /** What each reason for refusing a configuration means, without any mention of how it is found. */
  lemma NormalizeErrors(config: ConfigData)
    ensures var result := Normalize(config);
      var version := config.schemaVersion == 1;
      var fields := forall p :: p in config.profiles ==>
        ValidSource(p.source) && ValidExpiry(p.expiresAt);
      var distinct := Distinct(Map(config.profiles, Reference));
      && (result == Err(UnsupportedSchema) <==> !version)
      && (result == Err(InvalidVariable) || result == Err(InvalidExpiry) <==> version && !fields)
      && (result == Err(DuplicateReference) <==> version && fields && !distinct)
      && (result == Err(MissingDefault) <==>
            && version && fields && distinct && config.defaultProfile.Some?
            && forall p :: p in config.profiles ==>
                 Reference(p) != config.defaultProfile.value)
    ensures Normalize(config) == Err(InvalidVariable) ==>
      exists p :: FirstInvalid(config, p) && !ValidSource(p.source)
    ensures Normalize(config) == Err(InvalidExpiry) ==>
      exists p :: FirstInvalid(config, p) && ValidSource(p.source) && !ValidExpiry(p.expiresAt)
  {
    var sorted := Sort(config.profiles, ProfileLe);
    ProfileLeIsPreorder();
    SortSorts(config.profiles, ProfileLe);
    SortPermutes(config.profiles, ProfileLe);
    DistinctPermutes(config.profiles, sorted, Reference);
    SortedNeighbours(sorted);
    FieldsOfAll(config.profiles, sorted);
    if FirstFieldError(sorted).Some? {
      FirstInvalidFound(config, sorted);
    }
    if config.defaultProfile.Some? {
      KnownOfAll(config.profiles, sorted, config.defaultProfile.value);
    }
  }

  lemma FieldsOfAll(profiles: seq<ProfileRecord>, sorted: seq<ProfileRecord>)
    requires forall p :: p in sorted <==> p in profiles
    ensures FirstFieldError(sorted).None? <==>
      forall p :: p in profiles ==> ValidSource(p.source) && ValidExpiry(p.expiresAt)
  {
    assert forall i :: 0 <= i < |sorted| ==> sorted[i] in profiles;
  }

  lemma KnownOfAll(profiles: seq<ProfileRecord>, sorted: seq<ProfileRecord>, r: ProfileRef)
    requires forall p :: p in sorted <==> p in profiles
    ensures Position(sorted, r).None? <==> forall p :: p in profiles ==> Reference(p) != r
  {
    assert forall i :: 0 <= i < |sorted| ==> sorted[i] in profiles;
  }

  lemma FirstInvalidFound(config: ConfigData, sorted: seq<ProfileRecord>)
    requires forall p :: p in sorted <==> p in config.profiles
    requires Sorted(sorted, ProfileLe) && FirstFieldError(sorted).Some?
    ensures FirstFieldError(sorted) == Some(InvalidVariable)
      || FirstFieldError(sorted) == Some(InvalidExpiry)
    ensures exists p ::
      && FirstInvalid(config, p)
      && FirstFieldError(sorted)
           == Some(if !ValidSource(p.source) then InvalidVariable else InvalidExpiry)
  {
    var k := FieldErrorAt(sorted);
    var p := sorted[k];
    forall q | q in config.profiles && !(ValidSource(q.source) && ValidExpiry(q.expiresAt))
      ensures ProfileLe(p, q)
    {
      var i :| 0 <= i < |sorted| && sorted[i] == q;
      RefLeProperties(Reference(p), Reference(p), Reference(p));
      assert i > k ==> ProfileLe(sorted[k], sorted[i]);
    }
    assert FirstInvalid(config, p);
  }

  /** Normalizing twice is normalizing once. */
  lemma NormalizeIdempotent(config: ConfigData)
    requires Normalize(config).Ok?
    ensures Normalize(Normalize(config).value) == Normalize(config)
  {
    var normal := Normalize(config).value;
    assert Sorted(normal.profiles, ProfileLe) by {
      NormalizeDecidesSoundness(config);
    }
    SortKeepsSorted(normal.profiles, ProfileLe);
  }

  /** Two configurations with the same profiles are written the same way. */
  lemma NormalizeCanonical(config: ConfigData, other: ConfigData)
    requires Sound(config) && multiset(config.profiles) == multiset(other.profiles)
    requires other.(profiles := []) == config.(profiles := [])
    ensures Normalize(config) == Normalize(other)
  {
    ProfileLeIsPreorder();
    forall x, y | x in config.profiles && y in config.profiles && ProfileLe(x, y) && ProfileLe(y, x)
      ensures x == y
    {
      RefLeProperties(Reference(x), Reference(y), Reference(x));
      var i :| 0 <= i < |config.profiles| && config.profiles[i] == x;
      var j :| 0 <= j < |config.profiles| && config.profiles[j] == y;
      var references := Map(config.profiles, Reference);
      assert references[i] == references[j];
    }
    SortCanonical(config.profiles, other.profiles, ProfileLe);
  }

  // ---------------------------------------------------------------- mutations

  /** The change an operation makes to a loaded configuration; None when it finds no such profile
      or, for an addition, when there already is one. */
  datatype Change =
    | Addition(record: ProfileRecord, makeDefault: bool)
    | NewDefault(target: ProfileRef)
    | Removal(target: ProfileRef)
    | NewCredential(target: ProfileRef, source: CredentialSource, expiresAt: Option<string>)

  function Target(change: Change): ProfileRef {
    if change.Addition? then Reference(change.record) else change.target
  }

  function Changed(config: ConfigData, change: Change): Option<ConfigData> {
    var position := Position(config.profiles, Target(change));
    match change
    case Addition(record, makeDefault) =>
      if position.Some? then None
      else Some(config.(profiles := config.profiles + [record],
        defaultProfile := if makeDefault then Some(Reference(record)) else config.defaultProfile))
    case NewDefault(target) =>
      if position.None? then None else Some(config.(defaultProfile := Some(target)))
    case Removal(target) =>
      if position.None? then None
      else
        var k := position.value;
        Some(config.(profiles := Without(config.profiles, k),
          defaultProfile :=
            if config.defaultProfile == Some(target) then None else config.defaultProfile))
    case NewCredential(_, source, expiresAt) =>
      if position.None? then None
      else
        var k := position.value;
        Some(config.(profiles := config.profiles[
          k := config.profiles[k].(source := source, expiresAt := expiresAt)]))
  }

  /** The values an operation brings in are validated before it is called. */
  predicate ValidInput(change: Change) {
    match change
    case Addition(record, _) => ValidFields(record)
    case NewCredential(_, source, expiresAt) => ValidSource(source) && ValidExpiry(expiresAt)
    case _ => true
  }

  /** The record an operation leaves under a reference: only its target's can differ. */
  function RecordAfter(config: ConfigData, change: Change, r: ProfileRef): Option<ProfileRecord> {
    var before := Lookup(config, r);
    if r != Target(change) then before
    else
      match change
      case Addition(record, _) => Some(record)
      case NewDefault(_) => before
      case Removal(_) => None
      case NewCredential(_, source, expiresAt) =>
        if before.None? then None
        else Some(before.value.(source := source, expiresAt := expiresAt))
  }

  lemma LookupAfterChange(config: ConfigData, change: Change, r: ProfileRef)
    requires Distinct(Map(config.profiles, Reference)) && Changed(config, change).Some?
    ensures Lookup(Changed(config, change).value, r) == RecordAfter(config, change, r)
  {
    var next := Changed(config, change).value;
    match change {
      case Addition(record, _) => PositionConcat(config.profiles, [record], r);
      case NewDefault(_) =>
      case Removal(target) =>
        LookupAfterRemoval(config.profiles, Position(config.profiles, target).value, r);
      case NewCredential(target, source, expiresAt) =>
        PositionSeesReferences(config.profiles, next.profiles, r);
        var references := Map(config.profiles, Reference);
        assert forall i, j :: 0 <= i < j < |references| ==> references[i] != references[j];
    }
  }

  lemma {:induction false} PositionSplit(profiles: seq<ProfileRecord>, k: nat, r: ProfileRef)
    requires k < |profiles|
    ensures Position(profiles, r) ==
      if Position(profiles[..k], r).Some? then Position(profiles[..k], r)
      else if Reference(profiles[k]) == r then Some(k)
      else if Position(profiles[k + 1..], r).Some?
      then Some(k + 1 + Position(profiles[k + 1..], r).value)
      else None
  {
    if k == 0 {
      assert profiles[..0] == [];
    } else {
      assert profiles[1..][..k - 1] == profiles[..k][1..];
      assert profiles[1..][k - 1 + 1..] == profiles[k + 1..];
      PositionSplit(profiles[1..], k - 1, r);
    }
  }

  lemma LookupAfterRemoval(profiles: seq<ProfileRecord>, k: nat, r: ProfileRef)
    requires k < |profiles| && Distinct(Map(profiles, Reference))
    ensures var before, after := Position(profiles, r), Position(Without(profiles, k), r);
      if r == Reference(profiles[k]) then after.None?
      else if before.None? then after.None?
      else after.Some? && Without(profiles, k)[after.value] == profiles[before.value]
  {
    if r == Reference(profiles[k]) {
      RemovedIsGone(profiles, k);
    } else {
      OthersStay(profiles, k, r);
    }
  }

  lemma RemovedIsGone(profiles: seq<ProfileRecord>, k: nat)
    requires k < |profiles| && Distinct(Map(profiles, Reference))
    ensures Position(Without(profiles, k), Reference(profiles[k])).None?
  {
    var references := Map(profiles, Reference);
    forall i | 0 <= i < |Without(profiles, k)|
      ensures Reference(Without(profiles, k)[i]) != Reference(profiles[k])
    {
      assert references[if i < k then i else i + 1] != references[k];
    }
  }

  lemma OthersStay(profiles: seq<ProfileRecord>, k: nat, r: ProfileRef)
    requires k < |profiles| && r != Reference(profiles[k])
    ensures var before, after := Position(profiles, r), Position(Without(profiles, k), r);
      if before.None? then after.None?
      else after.Some? && Without(profiles, k)[after.value] == profiles[before.value]
  {
    PositionSplit(profiles, k, r);
    PositionConcat(profiles[..k], profiles[k + 1..], r);
  }

  lemma {:induction false} PositionSeesReferences(
    profiles: seq<ProfileRecord>, profiles': seq<ProfileRecord>, r: ProfileRef)
    requires |profiles'| == |profiles|
    requires forall i :: 0 <= i < |profiles| ==> Reference(profiles'[i]) == Reference(profiles[i])
    ensures Position(profiles', r) == Position(profiles, r)
  {
    if profiles != [] {
      PositionSeesReferences(profiles[1..], profiles'[1..], r);
    }
  }

  /** From a sound configuration no change with valid input is ever rejected by the validation that
      follows it. */
  lemma ChangesStaySound(config: ConfigData, change: Change)
    requires Sound(config) && ValidInput(change) && Changed(config, change).Some?
    ensures Sound(Changed(config, change).value)
    ensures Normalize(Changed(config, change).value).Ok?
  {
    var next := Changed(config, change).value;
    ChangesStayDistinct(config, change);
    DefaultStaysKnown(config, change);
    FieldsStayValid(config, change);
    NormalizeDecidesSoundness(next);
  }

  lemma DefaultStaysKnown(config: ConfigData, change: Change)
    requires Sound(config) && Changed(config, change).Some?
    ensures var next := Changed(config, change).value;
      next.defaultProfile.Some? ==> HasProfile(next, next.defaultProfile.value)
  {
    var next := Changed(config, change).value;
    if next.defaultProfile.Some? {
      LookupAfterChange(config, change, next.defaultProfile.value);
      match change {
        case Addition(_, _) =>
        case NewDefault(_) =>
        case Removal(_) =>
        case NewCredential(_, _, _) =>
      }
    }
  }

  lemma FieldsStayValid(config: ConfigData, change: Change)
    requires Sound(config) && ValidInput(change) && Changed(config, change).Some?
    ensures forall profile :: profile in Changed(config, change).value.profiles ==>
      ValidFields(profile)
  {
  }

  lemma ChangesStayDistinct(config: ConfigData, change: Change)
    requires Distinct(Map(config.profiles, Reference)) && Changed(config, change).Some?
    ensures Distinct(Map(Changed(config, change).value.profiles, Reference))
  {
    var next := Changed(config, change).value;
    match change {
      case Addition(record, _) => AdditionKeepsDistinct(config.profiles, record);
      case NewDefault(_) =>
      case Removal(target) =>
        RemovalKeepsDistinct(config.profiles, Position(config.profiles, target).value);
      case NewCredential(_, _, _) =>
        assert Map(next.profiles, Reference) == Map(config.profiles, Reference);
    }
  }

  lemma AdditionKeepsDistinct(profiles: seq<ProfileRecord>, record: ProfileRecord)
    requires Distinct(Map(profiles, Reference)) && Position(profiles, Reference(record)).None?
    ensures Distinct(Map(profiles + [record], Reference))
  {
  }

  lemma RemovalKeepsDistinct(profiles: seq<ProfileRecord>, k: nat)
    requires k < |profiles| && Distinct(Map(profiles, Reference))
    ensures Distinct(Map(Without(profiles, k), Reference))
  {
    var references := Map(profiles, Reference);
    var rest := Map(Without(profiles, k), Reference);
    forall i, j | 0 <= i < j < |rest| ensures rest[i] != rest[j] {
      var i' := if i < k then i else i + 1;
      var j' := if j < k then j else j + 1;
      assert references[i'] != references[j'];
    }
  }

  /** `ProfileConfig::find`. */
  function Lookup(config: ConfigData, reference: ProfileRef): Option<ProfileRecord> {
    match Position(config.profiles, reference)
    case None => None
    case Some(k) => Some(config.profiles[k])
  }

  /** Finding skips whatever stands between two unrelated parts of the list. */
  lemma {:induction false} PositionConcat(
    front: seq<ProfileRecord>, back: seq<ProfileRecord>, r: ProfileRef)
    ensures Position(front + back, r) ==
      match Position(front, r)
      case Some(k) => Some(k)
      case None =>
        match Position(back, r)
        case Some(k) => Some(|front| + k)
        case None => None
  {
    if front == [] {
      assert front + back == back;
    } else {
      assert (front + back)[1..] == front[1..] + back;
      PositionConcat(front[1..], back, r);
    }
  }

  // ---------------------------------------------------------------- the mutable configuration

  /** A configuration loaded into memory, where operations change it in place. */
  class ProfileConfig {
    var schemaVersion: nat
    var defaultProfile: Option<ProfileRef>
    var profiles: seq<ProfileRecord>

    constructor (data: ConfigData)
      ensures Data() == data
    {
      schemaVersion := data.schemaVersion;
      defaultProfile := data.defaultProfile;
      profiles := data.profiles;
    }

    function Data(): ConfigData
      reads this
    {
      ConfigData(schemaVersion, defaultProfile, profiles)
    }

    method NormalizeAndValidate() returns (error: Option<ConfigError>)
      modifies this
      ensures match Normalize(old(Data()))
        case Ok(normal) => error.None? && Data() == normal
        case Err(reason) => error == Some(reason)
    {
      if schemaVersion != CONFIG_SCHEMA_VERSION {
        return Some(UnsupportedSchema);
      }
      profiles := Sort(profiles, ProfileLe);
      for k := 0 to |profiles|
        invariant FirstFieldError(profiles[k..]) == FirstFieldError(profiles)
      {
        assert profiles[k..][1..] == profiles[k + 1..];
        if !ValidSource(profiles[k].source) {
          return Some(InvalidVariable);
        }
        if !ValidExpiry(profiles[k].expiresAt) {
          return Some(InvalidExpiry);
        }
      }
      var end := 1;
      while end < |profiles|
        invariant 1 <= end
        invariant forall i :: 0 <= i < end - 1 && i < |profiles| - 1 ==>
          Reference(profiles[i]) != Reference(profiles[i + 1])
      {
        if Reference(profiles[end - 1]) == Reference(profiles[end]) {
          return Some(DuplicateReference);
        }
        end := end + 1;
      }
      if defaultProfile.Some? && Position(profiles, defaultProfile.value).None? {
        return Some(MissingDefault);
      }
      return None;
    }
  }
}
