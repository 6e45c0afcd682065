/**
 * Two pieces of the CanvassLabs scanner wrapper: the version text it reads from the scanner's banner, and the
 * shaping of the scanner's raw result (a list of files, each with its matches) into the license and copyright
 * findings of a scan summary.
 */
module Scanners {
  import opened Wrappers
  import opened Model

  // ---------------------------------------------------------------------------------------------------------
  // Version
  // ---------------------------------------------------------------------------------------------------------

  /** The banner text that precedes the version in the scanner's output. */
  const VERSION_PREFIX: string := "ORTClient version "

  /** `s` without a leading `prefix`; `s` itself when it does not start with `prefix`. */
  function RemovePrefix(s: string, prefix: string): (r: string)
    ensures prefix <= s ==> prefix + r == s
    ensures !(prefix <= s) ==> r == s
  {
    if prefix <= s then s[|prefix|..] else s
  }

  /** `s` without the characters after its last comma; empty when `s` holds no comma. */
  function DropTrailingNonCommas(s: string): (r: string)
    ensures r <= s
    ensures r == [] || r[|r| - 1] == ','
    ensures forall i | |r| <= i < |s| :: s[i] != ','
    decreases |s|
  {
    if s == [] || s[|s| - 1] == ',' then s else DropTrailingNonCommas(s[..|s| - 1])
  }

  /** `s` without its last character; the empty text stays empty. */
  function DropLast(s: string): (r: string)
    ensures r <= s
    ensures |r| == if s == [] then 0 else |s| - 1
  {
    if s == [] then s else s[..|s| - 1]
  }

  /**
   * The version of the scanner, read from its output: the banner prefix is removed if present, and the rest
   * is cut at its last comma, which is dropped too. Without a comma the version is empty.
   */
  function TransformVersion(output: string): (r: string)
    ensures var rest := RemovePrefix(output, VERSION_PREFIX);
      && r <= rest
      && (',' in rest ==> |r| < |rest| && rest[|r|] == ',' && ',' !in rest[|r| + 1..])
      && (',' !in rest ==> r == [])
  {
    var rest := RemovePrefix(output, VERSION_PREFIX);
    var kept := DropTrailingNonCommas(rest);
    assert |kept| < |rest| ==> ',' !in rest[|kept|..] by {
      forall k | 0 <= k < |rest[|kept|..]| ensures rest[|kept|..][k] != ',' {
        assert rest[|kept|..][k] == rest[|kept| + k];
      }
    }
    DropLast(kept)
  }

  /** The position of the last comma of `s`, if it has one. */
  function LastComma(s: string): (r: Option<nat>)
    ensures r.Some? ==> r.value < |s| && s[r.value] == ',' && forall i | r.value < i < |s| :: s[i] != ','
    ensures r.None? ==> ',' !in s
    decreases |s|
  {
    if s == [] then None
    else if s[|s| - 1] == ',' then Some(|s| - 1)
    else LastComma(s[..|s| - 1])
  }

  /** The version is the prefix-stripped output up to its last comma, and empty if there is none. */
  lemma TransformVersionIsUpToLastComma(output: string)
    ensures var rest := RemovePrefix(output, VERSION_PREFIX);
      TransformVersion(output) == match LastComma(rest) case Some(k) => rest[..k] case None => []
  {
    var rest := RemovePrefix(output, VERSION_PREFIX);
    var r := TransformVersion(output);
    match LastComma(rest)
    case None =>
    case Some(k) =>
      assert rest[k] == ',';
  }

  /** The last comma of a text that has no comma after a given one is that one. */
  lemma {:induction false} LastCommaBefore(a: string, b: string)
    requires ',' !in b
    ensures LastComma(a + "," + b) == Some(|a|)
    decreases |b|
  {
    if b != [] {
      var init := b[..|b| - 1];
      assert (a + "," + b)[..|a + "," + b| - 1] == a + "," + init;
      assert b[|b| - 1] in b;
      LastCommaBefore(a, init);
    } else {
      assert a + "," + b == a + [','];
    }
  }

  /**
   * The banner `ORTClient version <version>,<rest>` yields `<version>` whenever `<rest>` holds no comma;
   * the version itself may hold commas.
   */
  lemma TransformVersionOfBanner(version: string, rest: string)
    requires ',' !in rest
    ensures TransformVersion(VERSION_PREFIX + version + "," + rest) == version
  {
    var output := VERSION_PREFIX + version + "," + rest;
    assert output == VERSION_PREFIX + (version + "," + rest);
    assert RemovePrefix(output, VERSION_PREFIX) == version + "," + rest;
    LastCommaBefore(version, rest);
    TransformVersionIsUpToLastComma(output);
    assert (version + "," + rest)[..|version|] == version;
  }

  // ---------------------------------------------------------------------------------------------------------
  // Result shaping
  // ---------------------------------------------------------------------------------------------------------

  /** A 32-bit signed integer, as the raw result's line indices are read. */
  newtype Int32 = x: int | -0x8000_0000 <= x < 0x8000_0000

  /** `x + 1` in 32-bit two's complement arithmetic: the largest value wraps to the smallest. */
  function Inc32(x: Int32): (r: Int32)
    ensures (r as int - x as int - 1) % 0x1_0000_0000 == 0
    ensures x < 0x7fff_ffff ==> r as int == x as int + 1
  {
    if x == 0x7fff_ffff then -0x8000_0000 else x + 1
  }

  /**
   * One match of the raw result: its type, which is `copyright` for a copyright statement and the license
   * name otherwise, its 0-based first and last line, and the text it matched.
   */
  datatype Match = Match(matchedType: string, startLineInd: Int32, endLineInd: Int32, foundRegion: string)

  /** One file of the raw result, with the path the scanner reported for it and its matches. */
  datatype FileEntry = FileEntry(localFilePath: string, matches: seq<Match>)

  /**
   * What the shaping depends on beyond the raw result: the scanned directory, the mapping of a match type to
   * an SPDX license id, and the relativization of a reported path against the scanned directory.
   */
  datatype Environment = Environment(
    scanPath: string,
    spdxId: string -> string,
    relativize: (string, string) -> string)

  /** Whether a match is a copyright statement rather than a license. */
  predicate IsCopyright(m: Match) {
    m.matchedType == "copyright"
  }

  /** The location of a match: the relativized path and the lines shifted from 0-based to 1-based. */
  function LocationOf(env: Environment, file: FileEntry, m: Match): TextLocation {
    TextLocation(env.relativize(env.scanPath, file.localFilePath), Inc32(m.startLineInd) as int, Inc32(m.endLineInd) as int)
  }

  /** The license finding a license match stands for. */
  function LicenseOf(env: Environment, file: FileEntry, m: Match): LicenseFinding {
    LicenseFinding(env.spdxId(m.matchedType), LocationOf(env, file, m))
  }

  /** The copyright finding a copyright match stands for. */
  function CopyrightOf(env: Environment, file: FileEntry, m: Match): CopyrightFinding {
    CopyrightFinding(m.foundRegion, LocationOf(env, file, m))
  }

  /** The license findings of the first matches `ms` of `file`. */
  function FileLicenses(env: Environment, file: FileEntry, ms: seq<Match>): set<LicenseFinding>
    decreases |ms|
  {
    if ms == [] then {}
    else
      var m := ms[|ms| - 1];
      FileLicenses(env, file, ms[..|ms| - 1]) + (if IsCopyright(m) then {} else {LicenseOf(env, file, m)})
  }

  /** The copyright findings of the first matches `ms` of `file`. */
  function FileCopyrights(env: Environment, file: FileEntry, ms: seq<Match>): set<CopyrightFinding>
    decreases |ms|
  {
    if ms == [] then {}
    else
      var m := ms[|ms| - 1];
      FileCopyrights(env, file, ms[..|ms| - 1]) + (if IsCopyright(m) then {CopyrightOf(env, file, m)} else {})
  }

  /** The license findings of all matches of `files`: every file's, and nothing that is not some file's. */
  function Licenses(env: Environment, files: seq<FileEntry>): (r: set<LicenseFinding>)
    ensures forall i | 0 <= i < |files| :: FileLicenses(env, files[i], files[i].matches) <= r
    ensures forall x | x in r :: exists i | 0 <= i < |files| :: x in FileLicenses(env, files[i], files[i].matches)
    decreases |files|
  {
    if files == [] then {}
    else
      var f := files[|files| - 1];
      assert forall i | 0 <= i < |files| - 1 :: files[..|files| - 1][i] == files[i];
      Licenses(env, files[..|files| - 1]) + FileLicenses(env, f, f.matches)
  }

  /** The copyright findings of all matches of `files`: every file's, and nothing that is not some file's. */
  function Copyrights(env: Environment, files: seq<FileEntry>): (r: set<CopyrightFinding>)
    ensures forall i | 0 <= i < |files| :: FileCopyrights(env, files[i], files[i].matches) <= r
    ensures forall x | x in r :: exists i | 0 <= i < |files| :: x in FileCopyrights(env, files[i], files[i].matches)
    decreases |files|
  {
    if files == [] then {}
    else
      var f := files[|files| - 1];
      assert forall i | 0 <= i < |files| - 1 :: files[..|files| - 1][i] == files[i];
      Copyrights(env, files[..|files| - 1]) + FileCopyrights(env, f, f.matches)
  }

  /** Collects the license findings of every match that is not a copyright, file by file. */
  method CollectLicenses(env: Environment, result: seq<FileEntry>) returns (findings: set<LicenseFinding>)
    ensures findings == Licenses(env, result)
  {
    findings := {};
    var i := 0;
    while i < |result|
      invariant 0 <= i <= |result|
      invariant findings == Licenses(env, result[..i])
    {
      var file := result[i];
      var j := 0;
      while j < |file.matches|
        invariant 0 <= j <= |file.matches|
        invariant findings == Licenses(env, result[..i]) + FileLicenses(env, file, file.matches[..j])
      {
        var m := file.matches[j];
        if !IsCopyright(m) {
          findings := findings + {LicenseOf(env, file, m)};
        }
        assert file.matches[..j + 1][..j] == file.matches[..j];
        j := j + 1;
      }
      assert file.matches[..j] == file.matches;
      assert result[..i + 1][..i] == result[..i];
      i := i + 1;
    }
    assert result[..i] == result;
  }

  /** Collects the copyright findings of every copyright match, file by file. */
  method CollectCopyrights(env: Environment, result: seq<FileEntry>) returns (findings: set<CopyrightFinding>)
    ensures findings == Copyrights(env, result)
  {
    findings := {};
    var i := 0;
    while i < |result|
      invariant 0 <= i <= |result|
      invariant findings == Copyrights(env, result[..i])
    {
      var file := result[i];
      var j := 0;
      while j < |file.matches|
        invariant 0 <= j <= |file.matches|
        invariant findings == Copyrights(env, result[..i]) + FileCopyrights(env, file, file.matches[..j])
      {
        var m := file.matches[j];
        if IsCopyright(m) {
          findings := findings + {CopyrightOf(env, file, m)};
        }
        assert file.matches[..j + 1][..j] == file.matches[..j];
        j := j + 1;
      }
      assert file.matches[..j] == file.matches;
      assert result[..i + 1][..i] == result[..i];
      i := i + 1;
    }
    assert result[..i] == result;
  }

  /**
   * The summary of a run: the times and the verification code as given, one file counted per entry of the
   * raw result, the license and copyright findings of its matches, and no issues.
   */
  method GenerateSummary(startTime: int, endTime: int, env: Environment, packageVerificationCode: string, result: seq<FileEntry>)
    returns (summary: ScanSummary)
    ensures summary == ScanSummary(startTime, endTime, |result|, packageVerificationCode,
                                   Licenses(env, result), Copyrights(env, result), [])
  {
    var licenseFindings := CollectLicenses(env, result);
    var copyrightFindings := CollectCopyrights(env, result);
    summary := ScanSummary(startTime, endTime, |result|, packageVerificationCode, licenseFindings, copyrightFindings, []);
  }

  /** Whether `lf` is the license finding of some match of `file` among `ms` that is not a copyright. */
  predicate LicenseFromMatches(env: Environment, file: FileEntry, ms: seq<Match>, lf: LicenseFinding) {
    exists j | 0 <= j < |ms| :: !IsCopyright(ms[j]) && lf == LicenseOf(env, file, ms[j])
  }

  /** Whether `cf` is the copyright finding of some copyright match of `file` among `ms`. */
  predicate CopyrightFromMatches(env: Environment, file: FileEntry, ms: seq<Match>, cf: CopyrightFinding) {
    exists j | 0 <= j < |ms| :: IsCopyright(ms[j]) && cf == CopyrightOf(env, file, ms[j])
  }

  /** Whether `lf` is the license finding of some match of `files` that is not a copyright. */
  predicate LicenseFromResult(env: Environment, files: seq<FileEntry>, lf: LicenseFinding) {
    exists i | 0 <= i < |files| :: LicenseFromMatches(env, files[i], files[i].matches, lf)
  }

  /** Whether `cf` is the copyright finding of some copyright match of `files`. */
  predicate CopyrightFromResult(env: Environment, files: seq<FileEntry>, cf: CopyrightFinding) {
    exists i | 0 <= i < |files| :: CopyrightFromMatches(env, files[i], files[i].matches, cf)
  }

  lemma {:induction false} FileLicensesExactly(env: Environment, file: FileEntry, ms: seq<Match>, lf: LicenseFinding)
    ensures lf in FileLicenses(env, file, ms) <==> LicenseFromMatches(env, file, ms, lf)
    decreases |ms|
  {
    if ms != [] {
      var init := ms[..|ms| - 1];
      FileLicensesExactly(env, file, init, lf);
      if LicenseFromMatches(env, file, init, lf) {
        var j :| 0 <= j < |init| && !IsCopyright(init[j]) && lf == LicenseOf(env, file, init[j]);
        assert ms[j] == init[j];
      }
      if LicenseFromMatches(env, file, ms, lf) && !LicenseFromMatches(env, file, init, lf) {
        var j :| 0 <= j < |ms| && !IsCopyright(ms[j]) && lf == LicenseOf(env, file, ms[j]);
      }
    }
  }

  lemma {:induction false} FileCopyrightsExactly(env: Environment, file: FileEntry, ms: seq<Match>, cf: CopyrightFinding)
    ensures cf in FileCopyrights(env, file, ms) <==> CopyrightFromMatches(env, file, ms, cf)
    decreases |ms|
  {
    if ms != [] {
      var init := ms[..|ms| - 1];
      FileCopyrightsExactly(env, file, init, cf);
      if CopyrightFromMatches(env, file, init, cf) {
        var j :| 0 <= j < |init| && IsCopyright(init[j]) && cf == CopyrightOf(env, file, init[j]);
        assert ms[j] == init[j];
      }
      if CopyrightFromMatches(env, file, ms, cf) && !CopyrightFromMatches(env, file, init, cf) {
        var j :| 0 <= j < |ms| && IsCopyright(ms[j]) && cf == CopyrightOf(env, file, ms[j]);
      }
    }
  }

  /**
   * The license findings are exactly those of the matches that are not copyrights: the SPDX id of the match
   * type, at the relativized path, with both line indices shifted by one.
   */
  lemma LicensesExactly(env: Environment, files: seq<FileEntry>, lf: LicenseFinding)
    ensures lf in Licenses(env, files) <==> LicenseFromResult(env, files, lf)
  {
    forall i | 0 <= i < |files| {
      FileLicensesExactly(env, files[i], files[i].matches, lf);
    }
  }

  /**
   * The copyright findings are exactly those of the copyright matches: the matched text as the statement, at
   * the relativized path, with both line indices shifted by one.
   */
  lemma CopyrightsExactly(env: Environment, files: seq<FileEntry>, cf: CopyrightFinding)
    ensures cf in Copyrights(env, files) <==> CopyrightFromResult(env, files, cf)
  {
    forall i | 0 <= i < |files| {
      FileCopyrightsExactly(env, files[i], files[i].matches, cf);
    }
  }

  /**
   * Every match lands in exactly one of the two sets its type picks: a copyright match contributes its
   * copyright finding, any other match its license finding.
   */
  lemma MatchPartition(env: Environment, files: seq<FileEntry>, i: nat, j: nat)
    requires i < |files| && j < |files[i].matches|
    ensures var m := files[i].matches[j];
      && (IsCopyright(m) ==> CopyrightOf(env, files[i], m) in Copyrights(env, files))
      && (!IsCopyright(m) ==> LicenseOf(env, files[i], m) in Licenses(env, files))
  {
    var m := files[i].matches[j];
    if IsCopyright(m) {
      CopyrightsExactly(env, files, CopyrightOf(env, files[i], m));
      assert CopyrightFromMatches(env, files[i], files[i].matches, CopyrightOf(env, files[i], m));
    } else {
      LicensesExactly(env, files, LicenseOf(env, files[i], m));
      assert LicenseFromMatches(env, files[i], files[i].matches, LicenseOf(env, files[i], m));
    }
  }

  /**
   * Every finding of a summary sits one line after the 0-based indices of a match it comes from; away from
   * the largest 32-bit index that is plain `+ 1`.
   */
  lemma SummaryLines(startTime: int, endTime: int, env: Environment, code: string, files: seq<FileEntry>, lf: LicenseFinding, cf: CopyrightFinding)
    ensures var summary := ScanSummary(startTime, endTime, |files|, code, Licenses(env, files), Copyrights(env, files), []);
      && (lf in summary.licenseFindings ==> exists i, j | 0 <= i < |files| && 0 <= j < |files[i].matches| ::
            && !IsCopyright(files[i].matches[j])
            && lf.license == env.spdxId(files[i].matches[j].matchedType)
            && lf.location.startLine == Inc32(files[i].matches[j].startLineInd) as int
            && lf.location.endLine == Inc32(files[i].matches[j].endLineInd) as int)
      && (cf in summary.copyrightFindings ==> exists i, j | 0 <= i < |files| && 0 <= j < |files[i].matches| ::
            && IsCopyright(files[i].matches[j])
            && cf.statement == files[i].matches[j].foundRegion
            && cf.location.startLine == Inc32(files[i].matches[j].startLineInd) as int
            && cf.location.endLine == Inc32(files[i].matches[j].endLineInd) as int)
  {
    LicensesExactly(env, files, lf);
    CopyrightsExactly(env, files, cf);
  }
}
