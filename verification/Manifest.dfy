/** The update manifest and the rules for accepting one (crates/trace-updater/src/manifest.rs). */
module Manifests {
  import opened Collections
  import opened Paths

  /** A release version, by its text; it is also the name of the directory of the release. */
  type Version = string
  type Bytes = seq<bv8>
  type Digester = Bytes -> string

  const UNINSTALLED: Version := "0.0.0"
  const SCHEMA_VERSION := 1

  /** Which texts are versions, and their precedence (item 11 of Semantic Versioning 2.0.0). */
  datatype Semver = Semver(valid: string -> bool, less: (string, string) -> bool)

  ghost predicate OrderedAt(semver: Semver, a: Version, b: Version, c: Version) {
    && !semver.less(a, a)
    && (semver.less(a, b) || a == b || semver.less(b, a))
    && (semver.less(a, b) && semver.less(b, c) ==> semver.less(a, c))
  }

  /** Precedence is a strict total order of the texts. */
  ghost predicate TotallyOrdered(semver: Semver) {
    forall a, b, c :: OrderedAt(semver, a, b, c)
  }

  /** `a` does not come after `b`. */
  predicate AtMost(semver: Semver, a: Version, b: Version) {
    a == b || semver.less(a, b)
  }

  datatype Artifact = Artifact(name: Name, sha256: string, size: nat)

  datatype Manifest = Manifest(
    schema: nat,
    version: string,
    artifacts: seq<Artifact>,
    minInstalled: Option<string>,
    rollback: bool,
    cohorts: seq<string>)

  datatype UpdateError =
    | Malformed
    | MalformedVersion
    | UpgradePathRequired(installed: Version, minInstalled: Version)
    | DowngradeRefused(installed: Version, offered: Version)
    | Fetch(name: Name)
    | DigestMismatch(name: Name)
    | Io
    | RollbackImpossible(version: Version)

  datatype Decision = Install(version: Version) | UpToDate | NotInCohort

  predicate IsHexDigest(text: string) {
    |text| == 64 && forall c :: c in text ==> '0' <= c <= '9' || 'a' <= c <= 'f' || 'A' <= c <= 'F'
  }

  /** The checks made once the signature has been verified. */
  function Checked(semver: Semver, m: Manifest): Outcome<UpdateError> {
    if m.schema > SCHEMA_VERSION || m.artifacts == [] then Fail(Malformed)
    else if exists a :: a in m.artifacts && !IsHexDigest(a.sha256) then Fail(Malformed)
    else if !semver.valid(m.version) then Fail(MalformedVersion)
    else Pass
  }

  function Decide(semver: Semver, m: Manifest, installed: Version, cohort: string): Result<Decision, UpdateError> {
    if m.cohorts != [] && cohort !in m.cohorts then Ok(NotInCohort)
    else if !semver.valid(m.version) then Err(MalformedVersion)
    else if m.minInstalled.Some? && !semver.valid(m.minInstalled.value) then Err(MalformedVersion)
    else if m.minInstalled.Some? && semver.less(installed, m.minInstalled.value) then
      Err(UpgradePathRequired(installed, m.minInstalled.value))
    else if m.version == installed then Ok(UpToDate)
    else if semver.less(m.version, installed) && !m.rollback then Err(DowngradeRefused(installed, m.version))
    else Ok(Install(m.version))
  }

  /** Exactly when a release is installed: offered here, allowed from here, and newer or a marked rollback. */
  lemma InstallsIff(semver: Semver, m: Manifest, installed: Version, cohort: string, v: Version)
    requires TotallyOrdered(semver)
    ensures Decide(semver, m, installed, cohort) == Ok(Install(v)) <==>
      && (m.cohorts == [] || cohort in m.cohorts)
      && m.version == v && semver.valid(v)
      && (m.minInstalled.Some? ==>
            semver.valid(m.minInstalled.value) && AtMost(semver, m.minInstalled.value, installed))
      && (semver.less(installed, v) || (semver.less(v, installed) && m.rollback))
  {
    assert OrderedAt(semver, v, installed, v) && OrderedAt(semver, installed, v, installed);
    if m.minInstalled.Some? {
      var least := m.minInstalled.value;
      assert OrderedAt(semver, least, installed, least) && OrderedAt(semver, installed, least, installed);
    }
  }

  /** The digest is written as 64 hexadecimal digits, in either case. */
  ghost predicate HasHexDigest(a: Artifact) {
    |a.sha256| == 64 && forall i :: 0 <= i < 64 ==> a.sha256[i] in "0123456789abcdefABCDEF"
  }

  /** What a manifest has to be like before anything is fetched for it, and which error says that it is not. */
  lemma CheckedIff(semver: Semver, m: Manifest)
    ensures var wellFormed := m.schema <= 1 && m.artifacts != [] && forall a :: a in m.artifacts ==> HasHexDigest(a);
      && (Checked(semver, m) == Pass <==> wellFormed && semver.valid(m.version))
      && (Checked(semver, m) == Fail(Malformed) <==> !wellFormed)
      && (Checked(semver, m) == Fail(MalformedVersion) <==> wellFormed && !semver.valid(m.version))
  {
    forall a: Artifact
      ensures HasHexDigest(a) <==> IsHexDigest(a.sha256)
    {
      HexDigits(a);
    }
  }

  lemma HexDigits(a: Artifact)
    ensures HasHexDigest(a) <==> IsHexDigest(a.sha256)
  {
    forall i | 0 <= i < |a.sha256|
      ensures var c := a.sha256[i];
        c in "0123456789abcdefABCDEF" <==> '0' <= c <= '9' || 'a' <= c <= 'f' || 'A' <= c <= 'F'
    {
      IsHexChar(a.sha256[i]);
    }
    if IsHexDigest(a.sha256) {
      assert forall i :: 0 <= i < 64 ==> a.sha256[i] in a.sha256;
    }
  }

  lemma IsHexChar(c: char)
    ensures c in "0123456789abcdefABCDEF" <==> '0' <= c <= '9' || 'a' <= c <= 'f' || 'A' <= c <= 'F'
  {
    var digits := "0123456789abcdefABCDEF";
    if '0' <= c <= '9' {
      assert digits[c as int - '0' as int] == c;
    } else if 'a' <= c <= 'f' {
      assert digits[c as int - 'a' as int + 10] == c;
    } else if 'A' <= c <= 'F' {
      assert digits[c as int - 'A' as int + 16] == c;
    }
  }

  /** The release is offered to the cohort, and its versions can be read. */
  predicate Readable(semver: Semver, m: Manifest, cohort: string) {
    && (m.cohorts == [] || cohort in m.cohorts)
    && semver.valid(m.version) && (m.minInstalled.Some? ==> semver.valid(m.minInstalled.value))
  }

  /** When a release is not installed, and what is answered then: the first of these that applies. */
  lemma DeclinesIff(semver: Semver, m: Manifest, installed: Version, cohort: string)
    requires TotallyOrdered(semver)
    ensures var decision, readable := Decide(semver, m, installed, cohort), Readable(semver, m, cohort);
      var tooOld := m.minInstalled.Some? && semver.less(installed, m.minInstalled.value);
      && (decision == Ok(NotInCohort) <==> m.cohorts != [] && cohort !in m.cohorts)
      && (decision == Err(MalformedVersion) <==> (m.cohorts == [] || cohort in m.cohorts) && !readable)
      && (decision == Err(UpgradePathRequired(installed, m.minInstalled.GetOr(""))) <==> readable && tooOld)
      && (decision == Ok(UpToDate) <==> readable && !tooOld && m.version == installed)
      && (decision == Err(DowngradeRefused(installed, m.version)) <==>
            readable && !tooOld && semver.less(m.version, installed) && !m.rollback)
  {
    assert OrderedAt(semver, m.version, m.version, m.version);
    assert OrderedAt(semver, m.version, installed, m.version);
  }
}
