/**
 * Two pieces of the ClearlyDefined client: the harvest status of a definition, decided by how many tools
 * described the component, and the slash-separated text form of component coordinates,
 * `type/provider/namespace/name[/revision]`, with `-` standing for a missing namespace.
 */
module ClearlyDefined {
  import opened Wrappers

  /** The type of a component, which says what shape it has. */
  datatype ComponentType = COMPOSER | CRATE | DEB | DEBSRC | GEM | GIT | GO | MAVEN | NPM | NUGET | POD | PYPI | SOURCE_ARCHIVE

  /** Where a component can be found. */
  datatype Provider = COCOAPODS | CRATES_IO | DEBIAN | GITHUB | GITLAB | GOLANG | MAVEN_CENTRAL | MAVEN_GOOGLE | NPM_JS | NUGET_ORG | PACKAGIST | PYPI_ORG | RUBYGEMS

  /** The text of a component type, as it appears in coordinates. */
  function TypeToString(t: ComponentType): string {
    match t
    case COMPOSER => "composer"
    case CRATE => "crate"
    case DEB => "deb"
    case DEBSRC => "debsrc"
    case GEM => "gem"
    case GIT => "git"
    case GO => "go"
    case MAVEN => "maven"
    case NPM => "npm"
    case NUGET => "nuget"
    case POD => "pod"
    case PYPI => "pypi"
    case SOURCE_ARCHIVE => "sourcearchive"
  }

  /** The component type with the given text, if there is one. */
  function TypeFromString(s: string): (r: Option<ComponentType>)
    ensures r.Some? ==> TypeToString(r.value) == s
    ensures r.None? ==> forall t: ComponentType :: TypeToString(t) != s
  {
    if s == "composer" then Some(COMPOSER)
    else if s == "crate" then Some(CRATE)
    else if s == "deb" then Some(DEB)
    else if s == "debsrc" then Some(DEBSRC)
    else if s == "gem" then Some(GEM)
    else if s == "git" then Some(GIT)
    else if s == "go" then Some(GO)
    else if s == "maven" then Some(MAVEN)
    else if s == "npm" then Some(NPM)
    else if s == "nuget" then Some(NUGET)
    else if s == "pod" then Some(POD)
    else if s == "pypi" then Some(PYPI)
    else if s == "sourcearchive" then Some(SOURCE_ARCHIVE)
    else None
  }

  /** The text of a provider, as it appears in coordinates. */
  function ProviderToString(p: Provider): string {
    match p
    case COCOAPODS => "cocoapods"
    case CRATES_IO => "cratesio"
    case DEBIAN => "debian"
    case GITHUB => "github"
    case GITLAB => "gitlab"
    case GOLANG => "golang"
    case MAVEN_CENTRAL => "mavencentral"
    case MAVEN_GOOGLE => "mavengoogle"
    case NPM_JS => "npmjs"
    case NUGET_ORG => "nuget"
    case PACKAGIST => "packagist"
    case PYPI_ORG => "pypi"
    case RUBYGEMS => "rubygems"
  }

  /** The provider with the given text, if there is one. */
  function ProviderFromString(s: string): (r: Option<Provider>)
    ensures r.Some? ==> ProviderToString(r.value) == s
    ensures r.None? ==> forall p: Provider :: ProviderToString(p) != s
  {
    if s == "cocoapods" then Some(COCOAPODS)
    else if s == "cratesio" then Some(CRATES_IO)
    else if s == "debian" then Some(DEBIAN)
    else if s == "github" then Some(GITHUB)
    else if s == "gitlab" then Some(GITLAB)
    else if s == "golang" then Some(GOLANG)
    else if s == "mavencentral" then Some(MAVEN_CENTRAL)
    else if s == "mavengoogle" then Some(MAVEN_GOOGLE)
    else if s == "npmjs" then Some(NPM_JS)
    else if s == "nuget" then Some(NUGET_ORG)
    else if s == "packagist" then Some(PACKAGIST)
    else if s == "pypi" then Some(PYPI_ORG)
    else if s == "rubygems" then Some(RUBYGEMS)
    else None
  }

  /** Reading back the text of a component type gives that type; the text holds no slash. */
  lemma TypeTextRoundTrip(t: ComponentType)
    ensures TypeFromString(TypeToString(t)) == Some(t) && '/' !in TypeToString(t)
  {
  }

  /** Reading back the text of a provider gives that provider; the text holds no slash. */
  lemma ProviderTextRoundTrip(p: Provider)
    ensures ProviderFromString(ProviderToString(p)) == Some(p) && '/' !in ProviderToString(p)
  {
  }

  // ---------------------------------------------------------------------------------------------------------
  // Harvest status
  // ---------------------------------------------------------------------------------------------------------

  datatype HarvestStatus = NOT_HARVESTED | PARTIALLY_HARVESTED | HARVESTED

  /** The description of a component; only the tools that described it are modelled. */
  datatype Described = Described(tools: Option<seq<string>>)

  /** A definition returned by ClearlyDefined; only the description is modelled. */
  datatype Defined = Defined(coordinates: Coordinates, described: Described)

  /**
   * The harvest status of a definition: not harvested without a tools list, harvested with more than two
   * tools, and partially harvested with zero, one or two.
   */
  function GetHarvestStatus(d: Defined): (r: HarvestStatus)
    ensures r == NOT_HARVESTED <==> d.described.tools.None?
    ensures r == HARVESTED <==> d.described.tools.Some? && |d.described.tools.value| > 2
    ensures r == PARTIALLY_HARVESTED <==> d.described.tools.Some? && |d.described.tools.value| <= 2
  {
    match d.described.tools
    case None => NOT_HARVESTED
    case Some(tools) => if |tools| > 2 then HARVESTED else PARTIALLY_HARVESTED
  }

  // ---------------------------------------------------------------------------------------------------------
  // Coordinates
  // ---------------------------------------------------------------------------------------------------------

  /** The coordinates of a component. */
  datatype Coordinates = Coordinates(
    componentType: ComponentType,
    provider: Provider,
    namespace: Option<string>,
    name: string,
    revision: Option<string>)

  /** Why a text is not a coordinate: an unknown type or provider, or too few segments. */
  datatype CoordinatesError = UnknownType(text: string) | UnknownProvider(text: string) | IndexOutOfBounds(index: nat)

  /** The position of the first slash in `s`. */
  function FirstSlash(s: string): (i: nat)
    requires '/' in s
    ensures i < |s| && s[i] == '/' && '/' !in s[..i]
  {
    if s[0] == '/' then 0
    else
      assert '/' in s[1..] by { var k :| 0 <= k < |s| && s[k] == '/'; assert s[1..][k - 1] == '/'; }
      var j := FirstSlash(s[1..]);
      assert s[..j + 1] == [s[0]] + s[1..][..j];
      j + 1
  }

  /** `s` split at its slashes into at most `limit` parts; the last part keeps the rest of the text. */
  function Split(s: string, limit: nat): (parts: seq<string>)
    requires limit >= 1
    ensures 1 <= |parts| <= limit
    decreases limit
  {
    if limit == 1 || '/' !in s then [s]
    else
      var i := FirstSlash(s);
      [s[..i]] + Split(s[i + 1..], limit - 1)
  }

  /** The parts joined with slashes between them. */
  function Join(parts: seq<string>): string {
    if |parts| == 0 then ""
    else if |parts| == 1 then parts[0]
    else parts[0] + "/" + Join(parts[1..])
  }

  /** The namespace segment: the namespace, or `-` if there is none. */
  function NamespaceText(namespace: Option<string>): string {
    if namespace.Some? then namespace.value else "-"
  }

  /** The segments of the text form of coordinates: type, provider, namespace or `-`, name, and the revision if any. */
  function Segments(c: Coordinates): seq<string> {
    [TypeToString(c.componentType), ProviderToString(c.provider), NamespaceText(c.namespace), c.name] +
    (if c.revision.Some? then [c.revision.value] else [])
  }

  /**
   * The text form of coordinates; a missing namespace is written `-`, and a missing revision is left out.
   * When the name and the namespace hold no slash, splitting the text at its first four slashes gives back
   * the segments, the revision whole even if it holds slashes.
   */
  function ToString(c: Coordinates): (r: string)
    ensures '/' !in c.name && '/' !in NamespaceText(c.namespace) ==> Split(r, 5) == Segments(c)
  {
    var parts := Segments(c);
    if '/' !in c.name && '/' !in NamespaceText(c.namespace) then
      TypeTextRoundTrip(c.componentType);
      ProviderTextRoundTrip(c.provider);
      assert SplitsBack(parts[3..], 5 - 3);
      assert SplitsBack(parts[2..], 5 - 2);
      assert SplitsBack(parts[1..], 5 - 1);
      SplitJoin(parts, 5);
      Join(parts)
    else
      Join(parts)
  }

  /**
   * The coordinates a text stands for. The text is split at its first four slashes; the segments are read
   * in order, so an unknown type is reported before a missing provider segment, and that before an unknown
   * provider.
   */
  function FromString(value: string): (r: Result<Coordinates, CoordinatesError>)
    ensures var parts := Split(value, 5);
      && (r.Success? <==> |parts| >= 4 && TypeFromString(parts[0]).Some? && ProviderFromString(parts[1]).Some?)
      && (TypeFromString(parts[0]).None? ==> r == Failure(UnknownType(parts[0])))
      && (TypeFromString(parts[0]).Some? && |parts| >= 2 && ProviderFromString(parts[1]).None? ==>
            r == Failure(UnknownProvider(parts[1])))
      && (TypeFromString(parts[0]).Some? && |parts| < 2 ==> r == Failure(IndexOutOfBounds(1)))
      && (TypeFromString(parts[0]).Some? && 2 <= |parts| < 4 && ProviderFromString(parts[1]).Some? ==>
            r == Failure(IndexOutOfBounds(|parts|)))
      && (r.Failure? && r.error.IndexOutOfBounds? ==>
            TypeFromString(parts[0]).Some? && |parts| < 4 && r.error.index == (if |parts| == 1 then 1 else |parts|))
      && (r.Success? ==>
          && |parts| >= 4
          && TypeToString(r.value.componentType) == parts[0]
          && ProviderToString(r.value.provider) == parts[1]
          && (r.value.namespace.None? <==> parts[2] == "-")
          && (r.value.namespace.Some? ==> r.value.namespace.value == parts[2])
          && r.value.name == parts[3]
          && r.value.revision == (if |parts| == 5 then Some(parts[4]) else None))
  {
    var parts := Split(value, 5);
    match TypeFromString(parts[0])
    case None => Failure(UnknownType(parts[0]))
    case Some(componentType) =>
      if |parts| < 2 then Failure(IndexOutOfBounds(1))
      else match ProviderFromString(parts[1])
        case None => Failure(UnknownProvider(parts[1]))
        case Some(provider) =>
          if |parts| < 4 then Failure(IndexOutOfBounds(|parts|))
          else Success(Coordinates(
            componentType,
            provider,
            if parts[2] == "-" then None else Some(parts[2]),
            parts[3],
            if |parts| == 5 then Some(parts[4]) else None))
  }

  /** Joining the parts of a split gives back the text. */
  lemma {:induction false} JoinSplit(s: string, limit: nat)
    requires limit >= 1
    ensures Join(Split(s, limit)) == s
    decreases limit
  {
    if limit > 1 && '/' in s {
      var i := FirstSlash(s);
      JoinSplit(s[i + 1..], limit - 1);
      var rest := Split(s[i + 1..], limit - 1);
      assert Split(s, limit) == [s[..i]] + rest;
      assert ([s[..i]] + rest)[1..] == rest;
      assert s == s[..i] + "/" + s[i + 1..];
    }
  }

  /** A text holding its first slash after `a` splits there. */
  lemma FirstSlashOfJoin(a: string, b: string)
    requires '/' !in a
    ensures '/' in a + "/" + b && FirstSlash(a + "/" + b) == |a|
    ensures (a + "/" + b)[..|a|] == a && (a + "/" + b)[|a| + 1..] == b
  {
    var s := a + "/" + b;
    assert s[|a|] == '/';
    assert s[..|a|] == a;
  }

  /** Splitting at a first slash that follows `a` yields `a` and the split of the rest. */
  lemma SplitAtFirstSlash(a: string, b: string, limit: nat)
    requires '/' !in a && limit > 1
    ensures Split(a + "/" + b, limit) == [a] + Split(b, limit - 1)
  {
    FirstSlashOfJoin(a, b);
  }

  /** No part but the last holds a slash, and the last holds none unless the limit makes it keep the rest. */
  predicate SplitsBack(parts: seq<string>, limit: nat)
    decreases |parts|
  {
    && 1 <= |parts| <= limit
    && (|parts| == 1 ==> limit == 1 || '/' !in parts[0])
    && (|parts| > 1 ==> '/' !in parts[0] && SplitsBack(parts[1..], limit - 1))
  }

  lemma {:induction false} SplitJoin(parts: seq<string>, limit: nat)
    requires SplitsBack(parts, limit)
    ensures Split(Join(parts), limit) == parts
    decreases |parts|
  {
    if |parts| > 1 {
      SplitJoin(parts[1..], limit - 1);
      SplitJoinStep(parts, limit);
    }
  }

  lemma SplitJoinStep(parts: seq<string>, limit: nat)
    requires 2 <= |parts| <= limit
    requires '/' !in parts[0]
    requires Split(Join(parts[1..]), limit - 1) == parts[1..]
    ensures Split(Join(parts), limit) == parts
  {
    JoinCons(parts);
    SplitAtFirstSlash(parts[0], Join(parts[1..]), limit);
    assert [parts[0]] + parts[1..] == parts;
  }

  lemma JoinCons(parts: seq<string>)
    requires |parts| >= 2
    ensures Join(parts) == parts[0] + "/" + Join(parts[1..])
  {
  }

  /**
   * Printing coordinates and parsing the text gives back the coordinates, when the name and the namespace
   * hold no slash and the namespace is not the placeholder `-`. The revision may hold slashes.
   */
  lemma FromStringToString(c: Coordinates)
    requires '/' !in c.name
    requires c.namespace.Some? ==> '/' !in c.namespace.value && c.namespace.value != "-"
    ensures FromString(ToString(c)) == Success(c)
  {
    TypeTextRoundTrip(c.componentType);
    ProviderTextRoundTrip(c.provider);
    assert Split(ToString(c), 5) == Segments(c);
  }

  /** Coordinates whose fields read as the given segments print as those segments joined. */
  lemma ToStringOfParts(c: Coordinates, parts: seq<string>)
    requires 4 <= |parts| <= 5
    requires TypeToString(c.componentType) == parts[0] && ProviderToString(c.provider) == parts[1]
    requires NamespaceText(c.namespace) == parts[2] && c.name == parts[3]
    requires c.revision == (if |parts| == 5 then Some(parts[4]) else None)
    ensures ToString(c) == Join(parts)
  {
    assert Segments(c) == parts;
  }

  /** Every text that parses prints back as itself. */
  lemma ToStringFromString(value: string)
    requires FromString(value).Success?
    ensures ToString(FromString(value).value) == value
  {
    var parts := Split(value, 5);
    var c := FromString(value).value;
    JoinSplit(value, 5);
    ToStringOfParts(c, parts);
  }
}
