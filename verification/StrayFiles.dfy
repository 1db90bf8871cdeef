/** What an overlooked leftover directory can do: a run in which an unlisted file goes live. */
module StrayFiles {
  import opened ArtifactNames
  import opened Collections
  import opened InstallRoots
  import opened Manifests
  import opened Paths
  import opened ReleaseStaging
  import opened Updater
  import opened UpdateRuns

  /** A machine on which nothing has been installed. */
  function EmptyMachine(root: Path): Image {
    Image(root, map[], map[], map[], map[], NoLink, NoLink, "", NoLink, NoLink)
  }

  /** A manifest of one file, and what a source that has it makes of it. */
  function OneFile(sha: Digester, v: Version, file: string, bytes: Bytes): Manifest {
    Manifest(SCHEMA_VERSION, v, [Artifact([Normal(file)], sha(bytes), |bytes|)], None, false, [])
  }

  function OnePlan(sha: Digester, v: Version, file: string, bytes: Bytes, misread: bool): Plan {
    PlanFor(sha, OneFile(sha, v, file, bytes), Having(bytes), misread)
  }

  function Having(bytes: Bytes): nat -> Option<Bytes> {
    _ => Some(bytes)
  }

  /** Where staging it ends. */
  function OneStaged(start: Image, v: Version, file: string, bytes: Bytes, misread: bool): Image {
    start.(staging := start.staging[v := Leftover(start, v, misread)[[file] := File(bytes)]])
  }

  lemma OneFileInstalls(semver: Semver, sha: Digester, v: Version, file: string, bytes: Bytes)
    requires TotallyOrdered(semver) && semver.valid(v) && semver.less(UNINSTALLED, v) && IsHexDigest(sha(bytes))
    ensures Checked(semver, OneFile(sha, v, file, bytes)).Pass?
    ensures Decide(semver, OneFile(sha, v, file, bytes), UNINSTALLED, "") == Ok(Decision.Install(v))
  {
    InstallsIff(semver, OneFile(sha, v, file, bytes), UNINSTALLED, "", v);
  }

  lemma OneFileGoes(sha: Digester, start: Image, v: Version, file: string, bytes: Bytes, misread: bool)
    requires [file] !in Leftover(start, v, misread)
    ensures var plan := OnePlan(sha, v, file, bytes, misread);
      && Goes(plan, Prepared(plan, start), 0)
      && After(plan, Prepared(plan, start), 1) == OneStaged(start, v, file, bytes, misread)
  {
    var plan := OnePlan(sha, v, file, bytes, misread);
    var img, base := Prepared(plan, start), Leftover(start, v, misread);
    hide Writable, Filed;
    PlainNameGoes(img, v, file, bytes);
    AfterNext(plan, img, 1);
    var filled := base[[file] := File(bytes)];
    assert start.staging[v := base][v := filled] == start.staging[v := filled];
  }

  /** Staging it over a leftover directory that was overlooked, or over none, gets all the way. */
  lemma OneFileStaged(sha: Digester, start: Image, v: Version, file: string, bytes: Bytes, misread: bool)
    requires [file] !in Leftover(start, v, misread)
    ensures var plan, end := OnePlan(sha, v, file, bytes, misread), OneStaged(start, v, file, bytes, misread);
      InProgress(plan, start, end, 1) && Moment(plan, start, end) && Staged(plan, start, end) && Contained(plan, start)
  {
    var plan := OnePlan(sha, v, file, bytes, misread);
    var img := Prepared(plan, start);
    hide Writable, Filed, Serves;
    OneFileGoes(sha, start, v, file, bytes, misread);
    GuardedIsContained(plan, start);
    assert Reaches(plan, img, 0);
    ProgressStarts(plan, start);
    ProgressOne(plan, start, img, 0);
    WrittenIsPassed(plan, img, 1);
    MomentIsStaged(plan, start, After(plan, img, 1));
  }

  /** The image once the staged release is live. */
  function MadeLive(img: Image, v: Version): Image
    requires v in img.staging
  {
    img.(staging := img.staging - {v}, releases := img.releases[v := img.staging[v]], current := To(v))
  }

  lemma StagedGoesLive(plan: Plan, start: Image, img: Image)
    requires InProgress(plan, start, img, |plan.artifacts|) && Staged(plan, start, img) && Contained(plan, start)
    requires start.current == NoLink
    ensures Sheltered(plan, start, MadeLive(img, plan.version)) && Complete(plan, start, MadeLive(img, plan.version))
  {
    assert plan.artifacts[..|plan.artifacts|] == plan.artifacts;
  }

  lemma OneFileListed(sha: Digester, start: Image, v: Version, file: string, bytes: Bytes, path: Path)
    ensures ListsFile(Entries(start, v, OneFile(sha, v, file, bytes).artifacts), path) <==> path == [file]
  {
    GuardedStaysInside(start, v, [Normal(file)]);
    assert Normals([Normal(file)]) == [file] by { assert [Normal(file)][1..] == []; }
    var arts := OneFile(sha, v, file, bytes).artifacts;
    assert Entries(start, v, arts) == [Entry([file], sha(bytes), |bytes|)] by { assert arts[..0] == []; }
    assert Entries(start, v, arts)[0] in Entries(start, v, arts);
  }

  /** Two attempts: the first is cut off after staging, the second overlooks that and goes live. */
  function StrayLife(sha: Digester, root: Path, v: Version, bytes: Bytes): Life {
    var first := EmptyMachine(root);
    var cut := OneStaged(first, v, "stray", bytes, false);
    Attempted(Attempted(Fresh(first), OneFile(sha, v, "stray", bytes), Having(bytes), false, cut),
              OneFile(sha, v, "f", bytes), Having(bytes), true, MadeLive(OneStaged(cut, v, "f", bytes, true), v))
  }

  /** So a file that the manifest does not list can go live: one left over from a manifest that did. */
  lemma OverlookedFileGoesLive(semver: Semver, sha: Digester, root: Path, v: Version, bytes: Bytes)
    requires TotallyOrdered(semver) && semver.valid(v) && semver.less(UNINSTALLED, v) && IsHexDigest(sha(bytes))
    ensures var life := StrayLife(sha, root, v, bytes);
      && IsLife(semver, sha, "", life) && AllContained(sha, life) && Last(life).current == To(v)
      && FilledLast(sha, life, v, Last(life).releases[v]) && HasFile(Last(life).releases[v], ["stray"])
      && !ListsFile(Entries(Last(life.before), v, life.manifest.artifacts), ["stray"])
  {
    var first := EmptyMachine(root);
    var cut := OneStaged(first, v, "stray", bytes, false);
    OneFileInstalls(semver, sha, v, "stray", bytes);
    OneFileInstalls(semver, sha, v, "f", bytes);
    OneFileStaged(sha, first, v, "stray", bytes, false);
    StagedIsSheltered(OnePlan(sha, v, "stray", bytes, false), first, cut);
    OneFileStaged(sha, cut, v, "f", bytes, true);
    StagedGoesLive(OnePlan(sha, v, "f", bytes, true), cut, OneStaged(cut, v, "f", bytes, true));
    OneFileListed(sha, cut, v, "f", bytes, ["stray"]);
  }
}
