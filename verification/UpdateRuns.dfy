/** What holds over the whole life of an installation: any number of update attempts, cut off anywhere. */
module UpdateRuns {
  import opened Collections
  import opened InstallRoots
  import opened Manifests
  import opened Paths
  import opened ReleaseStaging
  import opened Updater

  // ------------------------------------------------------------ what a manifest can ask for

  /** Every entry is in the directory, with the size and digest listed for it. */
  ghost predicate AllPresent(sha: Digester, entries: seq<Entry>, dir: Dir) {
    forall e :: e in entries ==>
      HasFile(dir, e.path) && |dir[e.path].bytes| == e.size && sha(dir[e.path].bytes) == e.sha256
  }

  /** Entries for one file do not contradict each other. */
  ghost predicate Consistent(entries: seq<Entry>) {
    forall e, f :: e in entries && f in entries && e.path == f.path ==> e == f
  }

  ghost predicate ListsFile(entries: seq<Entry>, path: Path) {
    exists e :: e in entries && e.path == path
  }

  lemma {:induction false} LookupFinds(entries: seq<Entry>, path: Path)
    ensures Lookup(entries, path).Some? ==>
              Lookup(entries, path).value in entries && Lookup(entries, path).value.path == path
    ensures Lookup(entries, path).Some? <==> ListsFile(entries, path)
  {
    if entries != [] {
      LookupFinds(entries[..|entries| - 1], path);
      DropLast(entries);
    }
  }

  ghost predicate ListsExactly(entries: seq<Entry>, dir: Dir) {
    forall path :: HasFile(dir, path) <==> ListsFile(entries, path)
  }

  ghost predicate ListsAll(entries: seq<Entry>, dir: Dir) {
    forall path :: HasFile(dir, path) ==> ListsFile(entries, path)
  }

  /**
   A staged directory has the files that the names of the manifest lead to, and those that were left
   over. So it has no others if and only if every file left over is listed too; and it satisfies every
   entry if and only if entries that lead to one file agree.
   */
  lemma ServedExactly(sha: Digester, entries: seq<Entry>, base: Dir, dir: Dir)
    requires Serves(sha, entries, base, dir)
    ensures forall path :: HasFile(dir, path) <==> ListsFile(entries, path) || HasFile(base, path)
    ensures ListsExactly(entries, dir) <==> ListsAll(entries, base)
    ensures AllPresent(sha, entries, dir) <==> Consistent(entries)
  {
    forall path
      ensures HasFile(dir, path) <==> ListsFile(entries, path) || HasFile(base, path)
      ensures forall e :: e in entries && e.path == path ==> Lookup(entries, path).Some?
      ensures Lookup(entries, path).Some? ==>
                Lookup(entries, path).value in entries && Lookup(entries, path).value.path == path
      ensures Lookup(entries, path).Some? ==>
                && HasFile(dir, path)
                && Matches(sha, Lookup(entries, path).value.size, Lookup(entries, path).value.sha256, dir[path].bytes)
    {
      LookupFinds(entries, path);
      assert FileRight(sha, entries, base, dir, path);
    }
  }

  /** The entries of a manifest are its artifacts, each under the path its name leads to. */
  lemma {:induction false} EntriesAreArtifacts(img: Image, v: Version, arts: seq<Artifact>, e: Entry)
    ensures e in Entries(img, v, arts) <==>
              exists a :: a in arts && e == Entry(Inner(img, v, a.name), a.sha256, a.size)
  {
    if arts != [] {
      EntriesAreArtifacts(img, v, arts[..|arts| - 1], e);
      DropLast(arts);
    }
  }

  lemma TwoSpellings(img: Image, v: Version)
    ensures Inner(img, v, [Normal("f")]) == ["f"] && Inner(img, v, [CurDir, Normal("f")]) == ["f"]
  {
    GuardedStaysInside(img, v, [Normal("f")]);
    GuardedStaysInside(img, v, [CurDir, Normal("f")]);
    assert Normals([Normal("f")]) == ["f"];
    assert [CurDir, Normal("f")][1..] == [Normal("f")];
  }

  lemma TwoEntries(img: Image, v: Version, a: Artifact, b: Artifact)
    ensures Entries(img, v, [a, b]) ==
            [Entry(Inner(img, v, a.name), a.sha256, a.size), Entry(Inner(img, v, b.name), b.sha256, b.size)]
  {
    assert [a, b][..1] == [a] && [a][..0] == [];
    assert Entries(img, v, [a]) == [] + [Entry(Inner(img, v, a.name), a.sha256, a.size)];
  }

  lemma LastEntryWins(sha: Digester, path: Path, one: Bytes, two: Bytes)
    requires sha(one) != sha(two)
    ensures var entries := [Entry(path, sha(one), |one|), Entry(path, sha(two), |two|)];
      Serves(sha, entries, map[], map[path := File(two)]) && !Consistent(entries)
  {
    var e, f := Entry(path, sha(one), |one|), Entry(path, sha(two), |two|);
    var none: Dir := map[];
    assert Serves(sha, [], none, none);
    ServesOneMore(sha, [], e, none, none, one);
    assert [] + [e] == [e] && [e] + [f] == [e, f];
    ServesOneMore(sha, [e], f, none, none[path := File(one)], two);
    assert none[path := File(one)][path := File(two)] == map[path := File(two)];
    assert e in [e, f] && f in [e, f];
  }

  /**
   A manifest may list one file twice, also under two spellings; then what was staged need not be what
   each entry asks for.
   */
  lemma RepeatedNameIsLost(img: Image, v: Version, sha: Digester, one: Bytes, two: Bytes)
    requires sha(one) != sha(two)
    ensures var arts := [Artifact([Normal("f")], sha(one), |one|), Artifact([CurDir, Normal("f")], sha(two), |two|)];
            var entries, dir: Dir := Entries(img, v, arts), map[["f"] := File(two)];
            && (forall a :: a in arts ==> Guarded(a.name)) && Serves(sha, entries, map[], dir)
            && !Consistent(entries) && !AllPresent(sha, entries, dir)
  {
    var a, b := Artifact([Normal("f")], sha(one), |one|), Artifact([CurDir, Normal("f")], sha(two), |two|);
    TwoSpellings(img, v);
    TwoEntries(img, v, a, b);
    LastEntryWins(sha, ["f"], one, two);
    ServedExactly(sha, Entries(img, v, [a, b]), map[], map[["f"] := File(two)]);
  }

  // ------------------------------------------------------------ lives

  /**
   A history: a fresh disk, then attempts, each leaving some image behind. A new process prepares its links
   under other names, and in between symlinks may be made or removed.
   */
  datatype Life =
    | Fresh(first: Image)
    | Restarted(before: Life, after: Image)
    | Attempted(before: Life, manifest: Manifest, fetch: nat -> Option<Bytes>, misread: bool, after: Image)

  function First(life: Life): Image {
    if life.Fresh? then life.first else First(life.before)
  }

  function Last(life: Life): Image {
    if life.Fresh? then life.first else life.after
  }

  /** Two images that differ at most in temporary links and in links outside the installation. */
  ghost predicate SameButLinks(a: Image, b: Image) {
    && a.root == b.root && a.current == b.current && a.previous == b.previous
    && a.staging == b.staging && a.releases == b.releases && a.elsewhere == b.elsewhere
  }

  ghost predicate IsLife(semver: Semver, sha: Digester, cohort: string, life: Life) {
    match life
    case Fresh(_) => true
    case Restarted(before, after) => IsLife(semver, sha, cohort, before) && SameButLinks(Last(before), after)
    case Attempted(before, m, fetch, misread, after) =>
      IsLife(semver, sha, cohort, before) && Attempt(semver, sha, m, cohort, fetch, misread, Last(before), after)
  }

  /**
   Each attempt prolongs the life of the disk, whichever of the images it passes through is the one that
   a power cut leaves for the next attempt.
   */
  method UpdateInLife(disk: Disk, semver: Semver, sha: Digester, m: Manifest, cohort: string,
                      fetch: nat -> Option<Bytes>, healthy: bool, ghost life: Life)
    returns (res: Result<UpdateOutcome, UpdateError>, ghost after: Life)
    requires disk.Valid() && IsLife(semver, sha, cohort, life) && Last(life) == disk.image
    modifies disk, disk.os
    ensures disk.Valid() && IsLife(semver, sha, cohort, after) && Last(after) == disk.image
    ensures after.Attempted? && after == Attempted(life, m, fetch, after.misread, disk.image)
    ensures forall x :: x in disk.seen ==>
              x in old(disk.seen) || IsLife(semver, sha, cohort, Attempted(life, m, fetch, after.misread, x))
  {
    ghost var misread;
    res, misread := Update(disk, semver, sha, m, cohort, fetch, healthy);
    after := Attempted(life, m, fetch, misread, disk.image);
  }

  predicate NeverRollback(life: Life) {
    life.Fresh? || (NeverRollback(life.before) && (life.Attempted? ==> !life.manifest.rollback))
  }

  /** What the last attempt of a life was to stage. */
  function PlanOf(sha: Digester, life: Life): Plan
    requires life.Attempted?
  {
    PlanFor(sha, life.manifest, life.fetch, life.misread)
  }

  /** No artifact name that staging ever got to has left its staging directory. */
  ghost predicate AllContained(sha: Digester, life: Life) {
    life.Fresh? ||
    (AllContained(sha, life.before) && (life.Attempted? ==> Contained(PlanOf(sha, life), Last(life.before))))
  }

  /** The guard of the artifact paths, on the names of every manifest. */
  predicate AllGuarded(life: Life) {
    life.Fresh? ||
    (AllGuarded(life.before) && (life.Attempted? ==> forall a :: a in life.manifest.artifacts ==> Guarded(a.name)))
  }

  lemma {:induction false} GuardedLifeIsContained(sha: Digester, life: Life)
    requires AllGuarded(life)
    ensures AllContained(sha, life)
  {
    if !life.Fresh? {
      GuardedLifeIsContained(sha, life.before);
      if life.Attempted? {
        GuardedIsContained(PlanOf(sha, life), Last(life.before));
      }
    }
  }

  function DirOf(img: Image, v: Version): Option<Dir> {
    if v in img.releases then Some(img.releases[v]) else None
  }

  /**
   One attempt, cut off anywhere: the live version changes only to what the manifest offers, only from
   its minimum version up, and downwards only when the manifest is marked as a rollback. `previous` names
   the release that was live before `current` leaves it.
   */
  lemma {:induction false} MovesByTheRules(semver: Semver, sha: Digester, m: Manifest, cohort: string,
                                           fetch: nat -> Option<Bytes>, misread: bool, start: Image, img: Image)
    requires TotallyOrdered(semver)
    requires Attempt(semver, sha, m, cohort, fetch, misread, start, img) && img.current != start.current
    ensures img.current == To(m.version) && m.version in img.releases
    ensures m.minInstalled.Some? ==> AtMost(semver, m.minInstalled.value, InstalledOrNone(start))
    ensures semver.less(InstalledOrNone(start), m.version)
            || (m.rollback && semver.less(m.version, InstalledOrNone(start)))
    ensures m.cohorts == [] || cohort in m.cohorts
    ensures !start.current.To? ==>
              semver.less("0.0.0", m.version) || (m.rollback && semver.less(m.version, "0.0.0"))
    ensures m.schema <= 1 && m.artifacts != [] && forall a :: a in m.artifacts ==> HasHexDigest(a)
    ensures start.current.To? ==> img.previous == start.current
    ensures Contained(PlanFor(sha, m, fetch, misread), start) ==> Complete(PlanFor(sha, m, fetch, misread), start, img)
  {
    InstallsIff(semver, m, InstalledOrNone(start), cohort, m.version);
    CheckedIff(semver, m);
  }

  /** When the names it gets to stay inside, every release but the offered one and every other file is untouched. */
  lemma OtherFilesIntact(semver: Semver, sha: Digester, m: Manifest, cohort: string, fetch: nat -> Option<Bytes>,
                         misread: bool, start: Image, img: Image, v: Version)
    requires Attempt(semver, sha, m, cohort, fetch, misread, start, img)
    requires Contained(PlanFor(sha, m, fetch, misread), start) && v != m.version
    ensures DirOf(img, v) == DirOf(start, v) && img.elsewhere == start.elsewhere
  {
    if img != start {
      assert v in img.releases <==> v in img.releases - {m.version};
      assert v in start.releases <==> v in start.releases - {m.version};
      assert v in img.releases ==> (img.releases - {m.version})[v] == img.releases[v];
      assert v in start.releases ==> (start.releases - {m.version})[v] == start.releases[v];
    }
  }

  /** The directory of the release that was live is intact, also when nothing was installed. */
  lemma OutgoingReleaseIntact(semver: Semver, sha: Digester, m: Manifest, cohort: string,
                              fetch: nat -> Option<Bytes>, misread: bool, start: Image, img: Image)
    requires TotallyOrdered(semver) && Attempt(semver, sha, m, cohort, fetch, misread, start, img)
    requires start.current.To? && Contained(PlanFor(sha, m, fetch, misread), start)
    ensures DirOf(img, start.current.version) == DirOf(start, start.current.version)
  {
    if img != start {
      InstallsIff(semver, m, InstalledOrNone(start), cohort, m.version);
      assert OrderedAt(semver, m.version, m.version, m.version);
      OtherFilesIntact(semver, sha, m, cohort, fetch, misread, start, img, start.current.version);
    }
  }

  /** Without rollback-marked manifests the live version never goes down, whatever fails or is cut off. */
  lemma {:induction false} NeverGoesBack(semver: Semver, sha: Digester, cohort: string, life: Life)
    requires TotallyOrdered(semver) && IsLife(semver, sha, cohort, life) && NeverRollback(life)
    ensures AtMost(semver, InstalledOrNone(First(life)), InstalledOrNone(Last(life)))
    ensures First(life).current.To? ==> Last(life).current.To?
  {
    if !life.Fresh? {
      NeverGoesBack(semver, sha, cohort, life.before);
      var start := Last(life.before);
      if life.after.current != start.current {
        MovesByTheRules(semver, sha, life.manifest, cohort, life.fetch, life.misread, start, life.after);
        assert OrderedAt(semver, InstalledOrNone(First(life)), InstalledOrNone(start), InstalledOrNone(life.after));
      }
    }
  }

  /** The last attempt of the life offered version `v` and filled `dir` with what its manifest lists. */
  ghost predicate FilledLast(sha: Digester, life: Life, v: Version, dir: Dir)
    requires life.Attempted?
  {
    var start := Last(life.before);
    && life.manifest.version == v
    && Serves(sha, Entries(start, v, life.manifest.artifacts), Leftover(start, v, life.misread), dir)
  }

  /** Some attempt of the life did. */
  ghost predicate FilledBy(sha: Digester, life: Life, v: Version, dir: Option<Dir>) {
    !life.Fresh? &&
    (FilledBy(sha, life.before, v, dir) || (life.Attempted? && dir.Some? && FilledLast(sha, life, v, dir.value)))
  }

  /**
   The last attempt of the life left in `dir` the files its manifest lists, and what it had overlooked: so
   no others if and only if those are listed too, and with the listed contents if and only if the entries agree.
   */
  ghost predicate HeldLast(sha: Digester, life: Life, v: Version, dir: Dir)
    requires life.Attempted?
  {
    var start := Last(life.before);
    var entries, base := Entries(start, v, life.manifest.artifacts), Leftover(start, v, life.misread);
    && life.manifest.version == v
    && (forall path :: HasFile(dir, path) <==> ListsFile(entries, path) || HasFile(base, path))
    && (ListsExactly(entries, dir) <==> ListsAll(entries, base))
    && (AllPresent(sha, entries, dir) <==> Consistent(entries))
    && (!life.misread ==> ListsExactly(entries, dir))
  }

  ghost predicate HeldBy(sha: Digester, life: Life, v: Version, dir: Option<Dir>) {
    !life.Fresh? &&
    (HeldBy(sha, life.before, v, dir) || (life.Attempted? && dir.Some? && HeldLast(sha, life, v, dir.value)))
  }

  ghost predicate Untouched(life: Life, v: Version) {
    First(life).current == To(v) && DirOf(Last(life), v) == DirOf(First(life), v)
  }

  /**
   At any moment the directory behind `current` is complete: it is the one that was live at the start,
   untouched, or it was filled from a manifest of that very version.
   */
  lemma {:induction false} LiveReleaseIsWhole(semver: Semver, sha: Digester, cohort: string, life: Life, v: Version)
    requires TotallyOrdered(semver) && IsLife(semver, sha, cohort, life) && AllContained(sha, life)
    requires Last(life).current == To(v)
    ensures FilledBy(sha, life, v, DirOf(Last(life), v)) || Untouched(life, v)
  {
    if life.Restarted? {
      LiveReleaseIsWhole(semver, sha, cohort, life.before, v);
    } else if life.Attempted? {
      var start := Last(life.before);
      if life.after.current == start.current {
        OutgoingReleaseIntact(semver, sha, life.manifest, cohort, life.fetch, life.misread, start, life.after);
        LiveReleaseIsWhole(semver, sha, cohort, life.before, v);
      } else {
        MovesByTheRules(semver, sha, life.manifest, cohort, life.fetch, life.misread, start, life.after);
      }
    }
  }

  lemma {:induction false} FilledIsHeld(sha: Digester, life: Life, v: Version, dir: Option<Dir>)
    requires FilledBy(sha, life, v, dir)
    ensures HeldBy(sha, life, v, dir)
  {
    if FilledBy(sha, life.before, v, dir) {
      FilledIsHeld(sha, life.before, v, dir);
    } else {
      var start := Last(life.before);
      ServedExactly(sha, Entries(start, v, life.manifest.artifacts), Leftover(start, v, life.misread), dir.value);
    }
  }

  /** And in that case exactly the files it holds are known, whether or not leftovers were overlooked. */
  lemma LiveReleaseIsExact(semver: Semver, sha: Digester, cohort: string, life: Life, v: Version)
    requires TotallyOrdered(semver) && IsLife(semver, sha, cohort, life) && AllContained(sha, life)
    requires Last(life).current == To(v)
    ensures HeldBy(sha, life, v, DirOf(Last(life), v)) || Untouched(life, v)
  {
    LiveReleaseIsWhole(semver, sha, cohort, life, v);
    if FilledBy(sha, life, v, DirOf(Last(life), v)) {
      FilledIsHeld(sha, life, v, DirOf(Last(life), v));
    }
  }

  /** An order as required of versions exists. */
  lemma SomeOrderOfVersions()
    ensures exists semver :: TotallyOrdered(semver)
  {
    var semver := Semver((v: string) => true, (a: string, b: string) => Less(a, b));
    forall a, b, c
      ensures OrderedAt(semver, a, b, c)
    {
      LessIsStrictOrder(a, b, c);
    }
    assert TotallyOrdered(semver);
  }
}
