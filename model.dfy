/**
 * The records of the tool's data model that the modelled components share: package identifiers, text
 * locations, raw findings, scan summaries and the cache container that accumulates them.
 */
module Model {

  /** The coordinates of a package: type, namespace, name and version. */
  datatype Identifier = Identifier(kind: string, namespace: string, name: string, version: string)

  /** The origin of a license finding: as declared by the package, concluded by a human, or detected by a scanner. */
  datatype LicenseSource = DECLARED | CONCLUDED | DETECTED

  /** Where source code was obtained from; only compared for equality here. */
  datatype Provenance = Provenance(origin: string)

  /** A range of lines in a file, relative to the root of its provenance. */
  datatype TextLocation = TextLocation(path: string, startLine: int, endLine: int)

  /** A license detected at a text location. */
  datatype LicenseFinding = LicenseFinding(license: string, location: TextLocation)

  /** A copyright statement detected at a text location. */
  datatype CopyrightFinding = CopyrightFinding(statement: string, location: TextLocation)

  /** A problem met during detection. */
  datatype Issue = Issue(source: string, message: string)

  /** The outcome of one detector run over one provenance. Times are opaque values supplied by the caller. */
  datatype ScanSummary = ScanSummary(
    startTime: int,
    endTime: int,
    fileCount: nat,
    packageVerificationCode: string,
    licenseFindings: set<LicenseFinding>,
    copyrightFindings: set<CopyrightFinding>,
    issues: seq<Issue>)

  /** A scan summary together with the provenance and the scanner that produced it. */
  datatype ScanResult = ScanResult(provenance: Provenance, scanner: string, summary: ScanSummary)

  /** The cache entry of a package: every scan result stored for it, oldest first. */
  datatype ScanResultContainer = ScanResultContainer(id: Identifier, results: seq<ScanResult>)
}
