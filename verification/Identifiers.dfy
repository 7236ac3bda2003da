/** The validated names of hostbraid-core and the `provider:name` grammar built on them. */
module Identifiers {
  import opened Common

  datatype ProfileRef = ProfileRef(provider: string, profile: string)

  datatype EnvironmentRef =
    EnvironmentRef(provider: string, profile: string, siteId: string, environmentId: string)

  datatype InvalidReference = InvalidReference

  /** Unicode `White_Space`, which `str::trim` strips. */
  predicate IsWhitespace(c: char) {
    var code := c as int;
    || 0x09 <= code <= 0x0D || code == 0x20 || code == 0x85 || code == 0xA0
    || code == 0x1680 || 0x2000 <= code <= 0x200A || code == 0x2028 || code == 0x2029
    || code == 0x202F || code == 0x205F || code == 0x3000
  }

  /** Unicode category Cc, which `char::is_control` recognises. */
  predicate IsControl(c: char) {
    var code := c as int;
    code < 0x20 || 0x7F <= code < 0xA0
  }

  function Utf8Length(c: char): nat {
    var code := c as int;
    if code < 0x80 then 1 else if code < 0x800 then 2 else if code < 0x1_0000 then 3 else 4
  }

  /** `str::len`: bytes, not characters. */
  function ByteLength(s: string): nat {
    if s == [] then 0 else Utf8Length(s[0]) + ByteLength(s[1..])
  }

  /** Unpadded and free of control characters. */
  predicate CleanText(s: string) {
    && (s != [] ==> !IsWhitespace(s[0]) && !IsWhitespace(s[|s| - 1]))
    && forall c | c in s :: !IsControl(c)
  }

  predicate ValidComponent(value: string, maxBytes: nat) {
    value != [] && ByteLength(value) <= maxBytes && CleanText(value)
  }

  predicate IsLower(c: char) { 'a' <= c <= 'z' }
  predicate IsUpper(c: char) { 'A' <= c <= 'Z' }
  predicate IsDigit(c: char) { '0' <= c <= '9' }

  predicate ValidProviderId(value: string) {
    ValidComponent(value, 64) && forall c | c in value :: IsLower(c) || IsDigit(c) || c == '-'
  }

  predicate ValidProfileName(value: string) {
    && ValidComponent(value, 64)
    && forall c | c in value :: IsLower(c) || IsUpper(c) || IsDigit(c) || c == '-' || c == '_'
  }

  predicate ValidOpaqueId(value: string) {
    ValidComponent(value, 512)
  }

  predicate ValidRef(reference: ProfileRef) {
    ValidProviderId(reference.provider) && ValidProfileName(reference.profile)
  }

  /** Lengths count bytes: they add up, and a character takes one to four. */
  lemma {:induction false} ByteLengthAdds(s: string, t: string)
    ensures ByteLength(s + t) == ByteLength(s) + ByteLength(t)
  {
    if s == [] {
      assert s + t == t;
    } else {
      assert (s + t)[0] == s[0] && (s + t)[1..] == s[1..] + t;
      ByteLengthAdds(s[1..], t);
    }
  }

  lemma ByteLengthOfOne(c: char)
    ensures ByteLength([c]) ==
      if c < '\U{80}' then 1 else if c < '\U{800}' then 2 else if c < '\U{10000}' then 3 else 4
  {
    assert [c][1..] == [];
  }

  /** Printable characters of ASCII, without the blank. */
  ghost predicate Visible(s: string) {
    forall c :: c in s ==> '!' <= c <= '~'
  }

  lemma {:induction false} VisibleLength(s: string)
    requires Visible(s)
    ensures ByteLength(s) == |s|
  {
    if s != [] {
      assert s[0] in s && forall c :: c in s[1..] ==> c in s;
      VisibleLength(s[1..]);
    }
  }

  lemma VisibleIsClean(s: string)
    requires Visible(s)
    ensures CleanText(s)
  {
    if s != [] {
      assert s[0] in s && s[|s| - 1] in s;
    }
  }

  /** A text of visible characters has nothing to object to but its length. A control character
      anywhere, or a blank at either end, is always wrong. */
  lemma ComponentShape(value: string, maxBytes: nat)
    ensures Visible(value) ==> (ValidComponent(value, maxBytes) <==> 1 <= |value| <= maxBytes)
    ensures (exists c :: c in value && c < ' ') ==> !ValidComponent(value, maxBytes)
    ensures value != "" && (value[0] == ' ' || value[|value| - 1] == ' ') ==>
      !ValidComponent(value, maxBytes)
  {
    if Visible(value) {
      VisibleLength(value);
      VisibleIsClean(value);
    }
  }

  /** Provider IDs are 1 to 64 small letters, digits and hyphens; profile names may also have
      capitals and underscores; other IDs are any component of up to 512 bytes. */
  lemma NamesShape(value: string)
    ensures ValidProviderId(value) <==>
      && 1 <= |value| <= 64
      && forall c :: c in value ==> 'a' <= c <= 'z' || '0' <= c <= '9' || c == '-'
    ensures ValidProfileName(value) <==>
      && 1 <= |value| <= 64
      && forall c :: c in value ==>
           'a' <= c <= 'z' || 'A' <= c <= 'Z' || '0' <= c <= '9' || c == '-' || c == '_'
    ensures Visible(value) ==> (ValidOpaqueId(value) <==> 1 <= |value| <= 512)
  {
    ComponentShape(value, 64);
    ComponentShape(value, 512);
  }

  /** `str::split_once(':')`: the text before and after the first colon. */
  function SplitOnce(value: string): (parts: Option<(string, string)>)
    ensures parts.None? <==> ':' !in value
    ensures parts.Some? ==>
      ':' !in parts.value.0 && value == parts.value.0 + [':'] + parts.value.1
  {
    if value == [] then None
    else if value[0] == ':' then Some(("", value[1..]))
    else
      match SplitOnce(value[1..])
      case None => None
      case Some((before, after)) => Some(([value[0]] + before, after))
  }

  function ParseProfileRef(value: string): Result<ProfileRef, InvalidReference> {
    match SplitOnce(value)
    case None => Err(InvalidReference)
    case Some((provider, profile)) =>
      if ':' in profile then Err(InvalidReference)
      else if ValidRef(ProfileRef(provider, profile)) then Ok(ProfileRef(provider, profile))
      else Err(InvalidReference)
  }

  function FormatProfileRef(reference: ProfileRef): string {
    reference.provider + ":" + reference.profile
  }

  /** The first colon is found wherever the text before it has none. */
  lemma {:induction false} SplitOnceFinds(before: string, after: string)
    requires ':' !in before
    ensures SplitOnce(before + ":" + after) == Some((before, after))
  {
    var value := before + ":" + after;
    if before == [] {
      assert value[1..] == after;
    } else {
      assert value[1..] == before[1..] + ":" + after;
      SplitOnceFinds(before[1..], after);
      assert before == [before[0]] + before[1..];
    }
  }

  /** Formatting a valid reference and parsing it gives it back. */
  lemma ParseAfterFormat(reference: ProfileRef)
    requires ValidRef(reference)
    ensures ParseProfileRef(FormatProfileRef(reference)) == Ok(reference)
  {
    SplitOnceFinds(reference.provider, reference.profile);
  }

  /** Parsing accepts exactly the formatted valid references, so one text names one profile. */
  lemma ParseAcceptsExactlyFormatted(value: string)
    ensures ParseProfileRef(value).Ok? <==>
      exists reference :: ValidRef(reference) && value == FormatProfileRef(reference)
    ensures ParseProfileRef(value).Ok? ==> FormatProfileRef(ParseProfileRef(value).value) == value
  {
    if ParseProfileRef(value).Ok? {
      var reference := ParseProfileRef(value).value;
      assert ValidRef(reference) && value == FormatProfileRef(reference);
    }
    forall reference | ValidRef(reference) && value == FormatProfileRef(reference)
      ensures ParseProfileRef(value).Ok?
    {
      ParseAfterFormat(reference);
    }
  }

  /** Two profiles never share a keyring account name. */
  lemma FormatInjective(left: ProfileRef, right: ProfileRef)
    requires ValidRef(left) && ValidRef(right)
    requires FormatProfileRef(left) == FormatProfileRef(right)
    ensures left == right
  {
    ParseAfterFormat(left);
    ParseAfterFormat(right);
  }
}
