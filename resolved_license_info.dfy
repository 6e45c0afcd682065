/**
 * Resolved license information of a package: the licenses found for it, where they were found, which path
 * excludes match those places, and the copyright findings attached to them. This module holds the filters
 * that drop excluded licenses and excluded copyright findings, the lookups by license and by location, and
 * the grouping of copyright findings into resolved copyrights by statement.
 */
module Licenses {
  import opened Wrappers
  import opened Model

  /** A path pattern that marks matching files as irrelevant for compliance. */
  datatype PathExclude = PathExclude(pattern: string, reason: string, comment: string)

  /** A human correction of a license finding; only carried along here. */
  datatype LicenseFindingCuration = LicenseFindingCuration(path: string, concludedLicense: string, comment: string)

  /** The unresolved license information a resolution started from; only carried along here. */
  datatype LicenseInfo = LicenseInfo(declaredLicenses: set<string>, concludedLicense: Option<string>)

  /** A copyright finding together with the path excludes matching its location. */
  datatype ResolvedCopyrightFinding = ResolvedCopyrightFinding(
    statement: string,
    location: TextLocation,
    matchingPathExcludes: seq<PathExclude>)

  /** A place where a license was found, with the copyright findings associated to it. */
  datatype ResolvedLicenseLocation = ResolvedLicenseLocation(
    provenance: Provenance,
    location: TextLocation,
    appliedCuration: Option<LicenseFindingCuration>,
    matchingPathExcludes: seq<PathExclude>,
    copyrights: set<ResolvedCopyrightFinding>)

  /** One license of a package; `originalExpressions` groups the original expressions by their source. */
  datatype ResolvedLicense = ResolvedLicense(
    license: string,
    originalDeclaredLicenses: set<string>,
    originalExpressions: map<LicenseSource, set<string>>,
    locations: set<ResolvedLicenseLocation>)

  /** A copyright statement and the findings it stands for. */
  datatype ResolvedCopyright = ResolvedCopyright(statement: string, findings: set<ResolvedCopyrightFinding>)

  /** The resolved license information of one package. */
  datatype ResolvedLicenseInfo = ResolvedLicenseInfo(
    id: Identifier,
    licenseInfo: LicenseInfo,
    licenses: seq<ResolvedLicense>,
    copyrightGarbage: map<Provenance, set<CopyrightFinding>>,
    unmatchedCopyrights: map<Provenance, set<CopyrightFinding>>)

  /**
   * What the copyright statements processor returns: clusters of statements, each keyed by the statement
   * that represents it, and the statements it left alone.
   */
  datatype ProcessorResult = ProcessorResult(
    processedStatements: map<string, set<string>>,
    unprocessedStatements: set<string>)

  /**
   * The copyright statements processor. Its clustering is not part of this model, so every operation that
   * clusters takes it as a parameter.
   */
  type Clustering = set<string> -> ProcessorResult

  // ---------------------------------------------------------------------------------------------------------
  // Properties of a single license
  // ---------------------------------------------------------------------------------------------------------

  /** The sources a license was found in. */
  function Sources(l: ResolvedLicense): set<LicenseSource> {
    l.originalExpressions.Keys
  }

  predicate IsExcludedLocation(loc: ResolvedLicenseLocation) {
    |loc.matchingPathExcludes| > 0
  }

  predicate IsExcludedFinding(c: ResolvedCopyrightFinding) {
    |c.matchingPathExcludes| > 0
  }

  /**
   * True if the license was detected and every one of its locations is excluded. For a license found only
   * by detection this is exactly what makes the list filter drop it.
   */
  predicate IsDetectedExcluded(l: ResolvedLicense): (r: bool)
    ensures Sources(l) == {DETECTED} ==> (r <==> !IsKept(l))
  {
    DETECTED in Sources(l) && forall loc | loc in l.locations :: IsExcludedLocation(loc)
  }

  /**
   * The condition under which the list filter keeps a license: always if a human asserted it, through a
   * declared or a concluded source, or if one of its locations is not excluded; a dropped license is one
   * found only by detection.
   */
  predicate IsKept(l: ResolvedLicense): (r: bool)
    ensures DECLARED in Sources(l) || CONCLUDED in Sources(l) ==> r
    ensures (exists loc | loc in l.locations :: !IsExcludedLocation(loc)) ==> r
    ensures !r ==> Sources(l) == {DETECTED}
  {
    Sources(l) != {DETECTED} || exists loc | loc in l.locations :: !IsExcludedLocation(loc)
  }

  /** Only the copyright findings that no path exclude matches. */
  function WithoutExcludedFindings(cs: set<ResolvedCopyrightFinding>): (r: set<ResolvedCopyrightFinding>)
    ensures r <= cs
    ensures forall c | c in cs :: c in r <==> !IsExcludedFinding(c)
  {
    set c | c in cs && !IsExcludedFinding(c)
  }

  /** A license location whose excluded copyright findings are removed. */
  function CleanLocation(loc: ResolvedLicenseLocation): ResolvedLicenseLocation {
    loc.(copyrights := WithoutExcludedFindings(loc.copyrights))
  }

  /**
   * The license with every excluded copyright finding removed from every location. Two locations that
   * differed only in the removed findings become one.
   */
  function FilterExcludedCopyrights(l: ResolvedLicense): (r: ResolvedLicense)
    ensures r.license == l.license
    ensures r.originalDeclaredLicenses == l.originalDeclaredLicenses
    ensures r.originalExpressions == l.originalExpressions
    ensures forall loc | loc in l.locations ::
      CleanLocation(loc) in r.locations &&
      CleanLocation(loc).provenance == loc.provenance &&
      CleanLocation(loc).location == loc.location &&
      CleanLocation(loc).appliedCuration == loc.appliedCuration &&
      CleanLocation(loc).matchingPathExcludes == loc.matchingPathExcludes &&
      CleanLocation(loc).copyrights == set c | c in loc.copyrights && !IsExcludedFinding(c)
    ensures forall loc' | loc' in r.locations :: exists loc | loc in l.locations :: loc' == CleanLocation(loc)
    ensures forall loc', c | loc' in r.locations && c in loc'.copyrights :: !IsExcludedFinding(c)
    ensures |r.locations| <= |l.locations|
  {
    var locations := set loc | loc in l.locations :: CleanLocation(loc);
    ImageNoLarger(l.locations);
    l.(locations := locations)
  }

  /** Mapping a set never makes it larger. */
  lemma {:induction false} ImageNoLarger(locs: set<ResolvedLicenseLocation>)
    ensures |set loc | loc in locs :: CleanLocation(loc)| <= |locs|
  {
    if locs != {} {
      var x :| x in locs;
      var rest := locs - {x};
      ImageNoLarger(rest);
      assert (set loc | loc in locs :: CleanLocation(loc))
          == (set loc | loc in rest :: CleanLocation(loc)) + {CleanLocation(x)};
    }
  }

  /** Removing excluded copyright findings twice is the same as removing them once. */
  lemma FilterExcludedCopyrightsIdempotent(l: ResolvedLicense)
    ensures FilterExcludedCopyrights(FilterExcludedCopyrights(l)) == FilterExcludedCopyrights(l)
  {
    var once := FilterExcludedCopyrights(l);
    forall loc | loc in once.locations ensures CleanLocation(loc) == loc {
      assert WithoutExcludedFindings(loc.copyrights) == loc.copyrights;
    }
    assert (set loc | loc in once.locations :: CleanLocation(loc)) == once.locations;
  }

  /** Removing copyright findings changes neither the sources nor which locations are excluded. */
  lemma FilterExcludedCopyrightsKeepsExclusion(l: ResolvedLicense)
    ensures IsKept(FilterExcludedCopyrights(l)) == IsKept(l)
    ensures IsDetectedExcluded(FilterExcludedCopyrights(l)) == IsDetectedExcluded(l)
  {
    var r := FilterExcludedCopyrights(l);
    if loc :| loc in l.locations && !IsExcludedLocation(loc) {
      assert CleanLocation(loc) in r.locations;
    }
  }

  // ---------------------------------------------------------------------------------------------------------
  // Filtering a list of licenses
  // ---------------------------------------------------------------------------------------------------------

  /**
   * The licenses that are kept, each with its excluded copyright findings removed: a license is dropped
   * only if DETECTED is its one source and each of its locations has a matching path exclude.
   */
  function FilterExcluded(ls: seq<ResolvedLicense>): (r: seq<ResolvedLicense>)
    ensures |r| <= |ls|
    ensures forall x :: x in r <==> exists l | l in ls :: IsKept(l) && x == FilterExcludedCopyrights(l)
  {
    if ls == [] then []
    else (if IsKept(ls[0]) then [FilterExcludedCopyrights(ls[0])] else []) + FilterExcluded(ls[1..])
  }

  /** The filter works element by element, so it preserves the order of the licenses it keeps. */
  lemma {:induction false} FilterExcludedAppend(a: seq<ResolvedLicense>, b: seq<ResolvedLicense>)
    ensures FilterExcluded(a + b) == FilterExcluded(a) + FilterExcluded(b)
  {
    if a == [] {
      assert a + b == b;
    } else {
      var head := if IsKept(a[0]) then [FilterExcludedCopyrights(a[0])] else [];
      assert (a + b)[0] == a[0];
      assert (a + b)[1..] == a[1..] + b;
      assert FilterExcluded(a + b) == head + FilterExcluded(a[1..] + b);
      FilterExcludedAppend(a[1..], b);
      assert FilterExcluded(a) == head + FilterExcluded(a[1..]);
    }
  }

  /** A single license is kept exactly when it is not detected-only with all locations excluded. */
  lemma FilterExcludedSingle(l: ResolvedLicense)
    ensures FilterExcluded([l]) ==
      if Sources(l) == {DETECTED} && forall loc | loc in l.locations :: IsExcludedLocation(loc)
      then [] else [FilterExcludedCopyrights(l)]
  {
    assert [l][1..] == [];
  }

  /** A license with a declared or a concluded source survives the filter, whatever its excludes. */
  lemma HumanAssertedLicenseKept(ls: seq<ResolvedLicense>, l: ResolvedLicense)
    requires l in ls
    requires DECLARED in Sources(l) || CONCLUDED in Sources(l)
    ensures FilterExcludedCopyrights(l) in FilterExcluded(ls)
  {
    assert Sources(l) != {DETECTED};
  }

  /** Every license the filter drops is detected-excluded. */
  lemma DroppedIsDetectedExcluded(l: ResolvedLicense)
    requires !IsKept(l)
    ensures IsDetectedExcluded(l)
  {
    assert DETECTED in {DETECTED};
  }

  /**
   * The converse fails: a license both declared and detected whose only location is excluded is
   * detected-excluded, yet the filter keeps it.
   */
  lemma DetectedExcludedNotDropped()
    ensures exists l :: IsDetectedExcluded(l) && IsKept(l)
  {
    var loc := ResolvedLicenseLocation(Provenance("vcs"), TextLocation("src/index.js", 1, 1), None,
                                       [PathExclude("src/**", "", "")], {});
    var l := ResolvedLicense("MIT", {}, map[DECLARED := {"MIT"}, DETECTED := {"MIT"}], {loc});
    assert Sources(l) == {DECLARED, DETECTED};
    assert Sources(l) != {DETECTED} by { assert DECLARED in Sources(l); }
    assert IsDetectedExcluded(l) && IsKept(l);
  }

  /** The package's license information with its excluded licenses and copyright findings filtered out. */
  function FilterExcludedInfo(info: ResolvedLicenseInfo): (r: ResolvedLicenseInfo)
    ensures r.id == info.id && r.licenseInfo == info.licenseInfo
    ensures r.copyrightGarbage == info.copyrightGarbage && r.unmatchedCopyrights == info.unmatchedCopyrights
    ensures r.licenses == FilterExcluded(info.licenses)
  {
    info.(licenses := FilterExcluded(info.licenses))
  }

  // ---------------------------------------------------------------------------------------------------------
  // Lookup and filter by location
  // ---------------------------------------------------------------------------------------------------------

  /** The first license in `ls` equal to `license`, or None. */
  function FindLicense(ls: seq<ResolvedLicense>, license: string): (r: Option<ResolvedLicense>)
    ensures r.None? <==> forall i | 0 <= i < |ls| :: ls[i].license != license
    ensures r.Some? ==> exists i | 0 <= i < |ls| ::
      ls[i] == r.value && r.value.license == license && forall j | 0 <= j < i :: ls[j].license != license
  {
    if ls == [] then None
    else if ls[0].license == license then Some(ls[0])
    else
      var r := FindLicense(ls[1..], license);
      assert r.Some? ==> exists i | 0 <= i < |ls[1..]| ::
        ls[1..][i] == r.value && forall j | 0 <= j < i :: ls[1..][j].license != license;
      assert r.Some? ==> exists i | 1 <= i < |ls| ::
        ls[i] == r.value && forall j | 0 <= j < i :: ls[j].license != license;
      r
  }

  /** Lookup of a license in the package's license information. */
  function Get(info: ResolvedLicenseInfo, license: string): (r: Option<ResolvedLicense>)
    ensures r.None? <==> forall l | l in info.licenses :: l.license != license
    ensures r.Some? ==> r.value in info.licenses && r.value.license == license
  {
    FindLicense(info.licenses, license)
  }

  /** True if the license was found in the file at `path` of `provenance`. */
  predicate HasLocation(l: ResolvedLicense, provenance: Provenance, path: string) {
    exists loc | loc in l.locations :: loc.provenance == provenance && loc.location.path == path
  }

  /** The licenses that were found in the file at `path` of `provenance`, in their original order. */
  function FilterByLocation(ls: seq<ResolvedLicense>, provenance: Provenance, path: string): (r: seq<ResolvedLicense>)
    ensures |r| <= |ls|
    ensures forall x :: x in r <==> x in ls && HasLocation(x, provenance, path)
  {
    if ls == [] then []
    else (if HasLocation(ls[0], provenance, path) then [ls[0]] else []) + FilterByLocation(ls[1..], provenance, path)
  }

  /** The location filter works element by element, so it keeps the order of the licenses. */
  lemma {:induction false} FilterByLocationAppend(a: seq<ResolvedLicense>, b: seq<ResolvedLicense>,
                                                  provenance: Provenance, path: string)
    ensures FilterByLocation(a + b, provenance, path) ==
            FilterByLocation(a, provenance, path) + FilterByLocation(b, provenance, path)
  {
    if a == [] {
      assert a + b == b;
    } else {
      assert (a + b)[1..] == a[1..] + b;
      FilterByLocationAppend(a[1..], b, provenance, path);
    }
  }

  /** Filtering the package's license information by location. */
  function Filter(info: ResolvedLicenseInfo, provenance: Provenance, path: string): (r: seq<ResolvedLicense>)
    ensures forall l :: l in r <==> l in info.licenses && HasLocation(l, provenance, path)
  {
    FilterByLocation(info.licenses, provenance, path)
  }

  // ---------------------------------------------------------------------------------------------------------
  // Resolved copyrights
  // ---------------------------------------------------------------------------------------------------------

  /** The statement map of a processor result; a left-alone statement maps to itself. */
  function ToMap(p: ProcessorResult): (m: map<string, set<string>>)
    ensures m.Keys == p.processedStatements.Keys + p.unprocessedStatements
    ensures forall s | s in p.unprocessedStatements :: m[s] == {s}
    ensures forall s | s in p.processedStatements && s !in p.unprocessedStatements :: m[s] == p.processedStatements[s]
  {
    p.processedStatements + map s | s in p.unprocessedStatements :: {s}
  }

  /** Every statement the processor returns, clustered or not. */
  function AllStatements(p: ProcessorResult): set<string> {
    p.processedStatements.Keys + p.unprocessedStatements
  }

  /** How statements are grouped: by the processor, or without it each statement on its own. */
  function StatementMap(statements: set<string>, process: bool, cluster: Clustering): (m: map<string, set<string>>)
    ensures !process ==> m.Keys == statements && forall s | s in m :: m[s] == {s}
  {
    if process then ToMap(cluster(statements)) else map s | s in statements :: {s}
  }

  /** The findings whose statement belongs to the group of `statement`. */
  function GroupOf(findings: set<ResolvedCopyrightFinding>, m: map<string, set<string>>, statement: string): set<ResolvedCopyrightFinding>
    requires statement in m
  {
    set f | f in findings && f.statement in m[statement]
  }

  /** A statement that stands for itself alone groups exactly the findings with that statement. */
  lemma GroupOfSingleton(findings: set<ResolvedCopyrightFinding>, m: map<string, set<string>>, statement: string)
    requires statement in m && m[statement] == {statement}
    ensures GroupOf(findings, m, statement) == set f | f in findings && f.statement == statement
  {
  }

  /** One resolved copyright per key of the statement map whose group holds a finding. */
  function Groups(findings: set<ResolvedCopyrightFinding>, m: map<string, set<string>>): (r: set<ResolvedCopyright>)
    ensures forall rc | rc in r :: rc.statement in m && rc.findings == GroupOf(findings, m, rc.statement) && rc.findings != {}
    ensures forall s | s in m && GroupOf(findings, m, s) != {} :: ResolvedCopyright(s, GroupOf(findings, m, s)) in r
  {
    set s | s in m && GroupOf(findings, m, s) != {} :: ResolvedCopyright(s, GroupOf(findings, m, s))
  }

  /** Without clustering, each group is the findings of one statement, and each finding has its group. */
  lemma GroupsOfSingletons(findings: set<ResolvedCopyrightFinding>, m: map<string, set<string>>)
    requires m.Keys == (set f | f in findings :: f.statement) && forall s | s in m :: m[s] == {s}
    ensures forall rc | rc in Groups(findings, m) :: rc.findings == (set f | f in findings && f.statement == rc.statement)
    ensures forall f | f in findings ::
      ResolvedCopyright(f.statement, set g | g in findings && g.statement == f.statement) in Groups(findings, m)
  {
    var r := Groups(findings, m);
    forall rc | rc in r ensures rc.findings == (set f | f in findings && f.statement == rc.statement) {
      GroupOfSingleton(findings, m, rc.statement);
    }
    forall f | f in findings
      ensures ResolvedCopyright(f.statement, set g | g in findings && g.statement == f.statement) in r
    {
      assert f.statement in m;
      GroupOfSingleton(findings, m, f.statement);
      assert f in GroupOf(findings, m, f.statement);
    }
  }

  /**
   * The findings grouped into resolved copyrights: one per key of the statement map whose group holds a
   * finding.
   */
  function ToResolvedCopyrights(findings: set<ResolvedCopyrightFinding>, process: bool, cluster: Clustering): (r: set<ResolvedCopyright>)
    ensures forall rc | rc in r :: rc.findings != {} && rc.findings <= findings
    ensures forall a, b | a in r && b in r :: a.statement == b.statement ==> a == b
    ensures !process ==> forall rc | rc in r ::
      rc.findings == (set f | f in findings && f.statement == rc.statement)
    ensures !process ==> forall f | f in findings ::
      ResolvedCopyright(f.statement, set g | g in findings && g.statement == f.statement) in r
  {
    var m := StatementMap(set f | f in findings :: f.statement, process, cluster);
    var r := Groups(findings, m);
    if process then r
    else
      GroupsOfSingletons(findings, m);
      r
  }

  /** The copyright findings of every location of the license. */
  function AllFindings(l: ResolvedLicense): (r: set<ResolvedCopyrightFinding>)
    ensures forall loc, c | loc in l.locations && c in loc.copyrights :: c in r
    ensures forall c | c in r :: exists loc | loc in l.locations :: c in loc.copyrights
  {
    set loc, c | loc in l.locations && c in loc.copyrights :: c
  }

  /** The copyright findings of every location, without the excluded ones when `omitExcluded` is set. */
  function RetainedFindings(l: ResolvedLicense, omitExcluded: bool): (r: set<ResolvedCopyrightFinding>)
    ensures forall c :: c in r <==>
      exists loc | loc in l.locations :: c in loc.copyrights && (!omitExcluded || !IsExcludedFinding(c))
  {
    set c | c in AllFindings(l) && (!omitExcluded || !IsExcludedFinding(c))
  }

  /** True if some retained finding of the license has the statement `s`. */
  predicate HasRetainedStatement(l: ResolvedLicense, omitExcluded: bool, s: string) {
    exists f | f in RetainedFindings(l, omitExcluded) :: f.statement == s
  }

  /**
   * The resolved copyrights of a license, grouped from its retained findings: each holds some of them, no
   * two share a statement, none holds an excluded finding when excluded findings are omitted, and without
   * retained findings there are none.
   */
  function ResolvedCopyrights(l: ResolvedLicense, process: bool, omitExcluded: bool, cluster: Clustering): (r: set<ResolvedCopyright>)
    ensures forall rc | rc in r :: rc.findings != {} && rc.findings <= RetainedFindings(l, omitExcluded)
    ensures forall a, b | a in r && b in r :: a.statement == b.statement ==> a == b
    ensures omitExcluded ==> forall rc, f | rc in r && f in rc.findings :: !IsExcludedFinding(f)
    ensures RetainedFindings(l, omitExcluded) == {} ==> r == {}
  {
    ToResolvedCopyrights(RetainedFindings(l, omitExcluded), process, cluster)
  }

  /**
   * Without processing, a license has one resolved copyright per distinct retained statement, holding
   * exactly the retained findings with that statement; with `omitExcluded` none of them is excluded.
   */
  lemma ResolvedCopyrightsUnprocessed(l: ResolvedLicense, omitExcluded: bool, cluster: Clustering)
    ensures var r := ResolvedCopyrights(l, false, omitExcluded, cluster);
      var kept := RetainedFindings(l, omitExcluded);
      && (forall rc | rc in r :: rc.findings != {} && rc.findings == (set f | f in kept && f.statement == rc.statement))
      && (forall f | f in kept :: exists rc | rc in r :: rc.statement == f.statement)
      && (forall a, b | a in r && b in r :: a.statement == b.statement ==> a == b)
      && (omitExcluded ==> forall rc, f | rc in r && f in rc.findings :: !IsExcludedFinding(f))
  {
    var r := ResolvedCopyrights(l, false, omitExcluded, cluster);
    var kept := RetainedFindings(l, omitExcluded);
    forall f | f in kept ensures exists rc | rc in r :: rc.statement == f.statement {
      assert ResolvedCopyright(f.statement, set g | g in kept && g.statement == f.statement) in r;
    }
    if omitExcluded {
      forall rc, f | rc in r && f in rc.findings ensures !IsExcludedFinding(f) {
        assert f in kept;
      }
    }
  }

  /**
   * The copyright statements of a license: without processing, exactly the statements of its retained
   * findings; in any case none without retained findings.
   */
  function Copyrights(l: ResolvedLicense, process: bool, omitExcluded: bool, cluster: Clustering): (r: set<string>)
    ensures !process ==> forall s :: s in r <==> HasRetainedStatement(l, omitExcluded, s)
    ensures RetainedFindings(l, omitExcluded) == {} ==> r == {}
  {
    ResolvedCopyrightsUnprocessed(l, omitExcluded, cluster);
    set rc | rc in ResolvedCopyrights(l, process, omitExcluded, cluster) :: rc.statement
  }

  /** Reading all findings of the filtered license is reading the findings of the license without the excluded ones. */
  lemma RetainedAfterFilter(l: ResolvedLicense)
    ensures RetainedFindings(FilterExcludedCopyrights(l), false) == RetainedFindings(l, true)
  {
    var r := FilterExcludedCopyrights(l);
    forall c | c in RetainedFindings(r, false) ensures c in RetainedFindings(l, true) {
      var loc' :| loc' in r.locations && c in loc'.copyrights;
      var loc :| loc in l.locations && loc' == CleanLocation(loc);
    }
    forall c | c in RetainedFindings(l, true) ensures c in RetainedFindings(r, false) {
      var loc :| loc in l.locations && c in loc.copyrights && !IsExcludedFinding(c);
      assert CleanLocation(loc) in r.locations;
    }
  }

  /** The unprocessed statements of the filtered license are those the license keeps when it omits excluded findings. */
  lemma FilterKeepsUnexcludedCopyrights(l: ResolvedLicense, cluster: Clustering)
    ensures Copyrights(FilterExcludedCopyrights(l), false, false, cluster) == Copyrights(l, false, true, cluster)
  {
    RetainedAfterFilter(l);
  }

  /**
   * At the level of statements, removing each excluded finding removes a statement exactly when every
   * finding with that statement is excluded: the statements of the filtered license are those of its
   * findings that no path exclude matches.
   */
  lemma StatementSurvivesFilter(l: ResolvedLicense, cluster: Clustering, s: string)
    ensures s in Copyrights(FilterExcludedCopyrights(l), false, false, cluster) <==>
      exists loc, c | loc in l.locations && c in loc.copyrights :: c.statement == s && !IsExcludedFinding(c)
  {
    FilterKeepsUnexcludedCopyrights(l, cluster);
    HasUnexcludedStatement(l, s);
  }

  /** A statement is retained when excluded findings are omitted exactly when some unexcluded finding has it. */
  lemma HasUnexcludedStatement(l: ResolvedLicense, s: string)
    ensures HasRetainedStatement(l, true, s) <==>
      exists loc, c | loc in l.locations && c in loc.copyrights :: c.statement == s && !IsExcludedFinding(c)
  {
    if exists loc, c | loc in l.locations && c in loc.copyrights :: c.statement == s && !IsExcludedFinding(c) {
      var loc, c :| loc in l.locations && c in loc.copyrights && c.statement == s && !IsExcludedFinding(c);
      assert c in RetainedFindings(l, true);
    }
  }

  /** The union of the unprocessed statements of the given licenses: the statements of all their retained findings. */
  function UnionCopyrights(ls: seq<ResolvedLicense>, omitExcluded: bool, cluster: Clustering): (r: set<string>)
    ensures forall s :: s in r <==> exists l | l in ls :: HasRetainedStatement(l, omitExcluded, s)
  {
    if ls == [] then {}
    else
      var rest := UnionCopyrights(ls[1..], omitExcluded, cluster);
      assert forall l :: l in ls <==> l == ls[0] || l in ls[1..];
      Copyrights(ls[0], false, omitExcluded, cluster) + rest
  }

  /**
   * All copyright statements of the package, processed as a whole if `process` is set. Without processing
   * they are the statements of the retained findings of all its licenses, so every license's statements
   * are among them.
   */
  function InfoCopyrights(info: ResolvedLicenseInfo, process: bool, omitExcluded: bool, cluster: Clustering): (r: set<string>)
    ensures !process ==> forall s :: s in r <==> exists l | l in info.licenses :: HasRetainedStatement(l, omitExcluded, s)
    ensures !process ==> forall l | l in info.licenses :: Copyrights(l, false, omitExcluded, cluster) <= r
  {
    var statements := UnionCopyrights(info.licenses, omitExcluded, cluster);
    if !process then statements else AllStatements(cluster(statements))
  }

  /** Without processing, the package's statements are the union of the statements of its licenses. */
  lemma InfoCopyrightsIsUnion(info: ResolvedLicenseInfo, omitExcluded: bool, cluster: Clustering, s: string)
    ensures s in InfoCopyrights(info, false, omitExcluded, cluster) <==>
      exists l | l in info.licenses :: s in Copyrights(l, false, omitExcluded, cluster)
  {
  }
}
