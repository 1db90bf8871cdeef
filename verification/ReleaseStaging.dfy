/** Fetching a release into its staging directory (crates/trace-updater/src/apply.rs, stage). */
module ReleaseStaging {
  import opened Collections
  import opened InstallRoots
  import opened Manifests
  import opened Paths
  import opened Trips

  // ------------------------------------------------------------ what a manifest asks for

  predicate Matches(sha: Digester, size: nat, sha256: string, bytes: Bytes) {
    |bytes| == size && sha(bytes) == sha256
  }

  /** A file of a release: where it belongs and what is to be in it. */
  datatype Entry = Entry(path: Path, sha256: string, size: nat)

  /** The files that a manifest lists, by where their names lead. */
  function Entries(img: Image, v: Version, arts: seq<Artifact>): seq<Entry> {
    if arts == [] then []
    else
      var last := arts[|arts| - 1];
      Entries(img, v, arts[..|arts| - 1]) + [Entry(Inner(img, v, last.name), last.sha256, last.size)]
  }

  /** The entry that has the last say over one file. */
  function Lookup(entries: seq<Entry>, path: Path): Option<Entry> {
    if entries == [] then None
    else if entries[|entries| - 1].path == path then Some(entries[|entries| - 1])
    else Lookup(entries[..|entries| - 1], path)
  }

  predicate HasFile(dir: Dir, path: Path) {
    path in dir && dir[path].File?
  }

  /** What the entries and the leftover directory `base` say about one file. */
  ghost predicate FileRight(sha: Digester, entries: seq<Entry>, base: Dir, dir: Dir, path: Path) {
    match Lookup(entries, path)
    case Some(e) => HasFile(dir, path) && Matches(sha, e.size, e.sha256, dir[path].bytes)
    case None => (HasFile(dir, path) <==> HasFile(base, path)) && (HasFile(dir, path) ==> dir[path] == base[path])
  }

  /** A directory holds what the manifest lists, over whatever was left in it before. */
  ghost predicate Serves(sha: Digester, entries: seq<Entry>, base: Dir, dir: Dir) {
    forall path :: FileRight(sha, entries, base, dir, path)
  }

  lemma ServesOneMore(sha: Digester, entries: seq<Entry>, e: Entry, base: Dir, dir: Dir, bytes: Bytes)
    requires Serves(sha, entries, base, dir) && Matches(sha, e.size, e.sha256, bytes)
    ensures Serves(sha, entries + [e], base, dir[e.path := File(bytes)])
  {
    var more, written := entries + [e], dir[e.path := File(bytes)];
    assert more[..|entries|] == entries;
    forall path
      ensures FileRight(sha, more, base, written, path)
    {
      assert FileRight(sha, entries, base, dir, path);
    }
  }

  lemma ServesFolder(sha: Digester, entries: seq<Entry>, base: Dir, dir: Dir, path: Path)
    requires Serves(sha, entries, base, dir) && path !in dir
    ensures Serves(sha, entries, base, dir[path := Folder])
  {
    var more := dir[path := Folder];
    forall other
      ensures FileRight(sha, entries, base, more, other)
    {
      assert FileRight(sha, entries, base, dir, other);
    }
  }

  /** Why fetching and checking the artifacts from the k-th on stops, if it does. */
  function Refusal(sha: Digester, arts: seq<Artifact>, fetch: nat -> Option<Bytes>, k: nat)
    : (e: Option<UpdateError>)
    requires k <= |arts|
    ensures e.Some? ==> e.value.Fetch? || e.value.DigestMismatch?
    decreases |arts| - k
  {
    if k == |arts| then None
    else if fetch(k).None? then Some(Fetch(arts[k].name))
    else if !Matches(sha, arts[k].size, arts[k].sha256, fetch(k).value) then Some(DigestMismatch(arts[k].name))
    else Refusal(sha, arts, fetch, k + 1)
  }

  /** Compares an artifact with its size first, then with its digest. */
  method VerifyDigest(sha: Digester, a: Artifact, bytes: Bytes) returns (res: Outcome<UpdateError>)
    ensures res == if Matches(sha, a.size, a.sha256, bytes) then Pass else Fail(DigestMismatch(a.name))
    ensures res == if |bytes| == a.size && sha(bytes) == a.sha256 then Pass else Fail(DigestMismatch(a.name))
  {
    if |bytes| != a.size {
      return Fail(DigestMismatch(a.name));
    }
    var actual := sha(bytes);
    if actual != a.sha256 {
      return Fail(DigestMismatch(a.name));
    }
    res := Pass;
  }

  // ------------------------------------------------------------ preparation

  /** What was left in the staging directory when the look at it went wrong. */
  function Leftover(start: Image, v: Version, misread: bool): Dir {
    if misread && v in start.staging then start.staging[v] else map[]
  }

  function PreparedAs(start: Image, v: Version, misread: bool): Image {
    start.(staging := start.staging[v := Leftover(start, v, misread)])
  }

  lemma AgreeBut(a: map<Version, Dir>, b: map<Version, Dir>, v: Version)
    requires a - {v} == b - {v} && v in b
    ensures b == a[v := b[v]]
  {
    forall w | w != v
      ensures w in a <==> w in b
      ensures w in a ==> a[w] == b[w]
    {
      assert w in a <==> w in a - {v};
      assert w in b <==> w in b - {v};
      assert w in a ==> (a - {v})[w] == a[w];
      assert w in b ==> (b - {v})[w] == b[w];
    }
  }

  /** Clears the staging directory of `v` of what an interrupted attempt left, and creates it. */
  method PrepareStaging(disk: Disk, v: Version) returns (ok: bool, ghost misread: bool)
    requires disk.Valid()
    modifies disk, disk.os
    ensures disk.Valid() && old(disk.seen) <= disk.seen
    ensures DiffersAt(old(disk.image), disk.image, Staging, v)
    ensures forall x :: x in disk.seen ==> x in old(disk.seen) || DiffersAt(old(disk.image), x, Staging, v)
    ensures ok ==> disk.image == PreparedAs(old(disk.image), v, misread)
    ensures old(disk.os.made) <= disk.os.made
    ensures disk.os.Quiet(old(disk.os.made), disk.os.made) ==> ok && !misread
  {
    var found;
    found, misread := disk.Exists(Staging, v);
    if found {
      ok := disk.RemoveTree(Staging, v);
      if !ok {
        return;
      }
    }
    ok := disk.CreateStaging(v);
    if ok {
      AgreeBut(old(disk.image).staging, disk.image.staging, v);
    }
  }

  // ------------------------------------------------------------ one artifact after another

  /**
   An attempt to stage a release: what its manifest lists, the bytes the source has for each artifact, if
   any, and whether a leftover was overlooked.
   */
  datatype Plan = Plan(sha: Digester, version: Version, artifacts: seq<Artifact>, fetch: nat -> Option<Bytes>,
                       misread: bool)

  /** The image staging starts from. */
  function Prepared(plan: Plan, start: Image): Image {
    PreparedAs(start, plan.version, plan.misread)
  }

  /** What writing artifact k makes of an image. */
  function Writing(plan: Plan): (Image, nat) -> Image {
    (img: Image, k: nat) =>
      if k < |plan.artifacts| then Filed(img, plan.version, plan.artifacts[k].name, plan.fetch(k).GetOr([])) else img
  }

  /** The image once the first k artifacts have been written, each where its name leads. */
  function After(plan: Plan, img: Image, k: nat): Image {
    Iterate(Writing(plan), img, k)
  }

  lemma AfterNext(plan: Plan, img: Image, k: nat)
    requires 0 < k <= |plan.artifacts|
    ensures After(plan, img, k) ==
            Filed(After(plan, img, k - 1), plan.version, plan.artifacts[k - 1].name, plan.fetch(k - 1).GetOr([]))
  {
  }

  /** Artifact k arrives, and has the size and digest listed for it. */
  predicate Arrives(plan: Plan, k: nat) {
    && k < |plan.artifacts| && plan.fetch(k).Some?
    && |plan.fetch(k).value| == plan.artifacts[k].size && plan.sha(plan.fetch(k).value) == plan.artifacts[k].sha256
  }

  /** Artifact k is the first that the source does not have, or has with another size or digest. */
  ghost predicate FirstAmiss(plan: Plan, k: nat) {
    k < |plan.artifacts| && !Arrives(plan, k) && forall j :: 0 <= j < k ==> Arrives(plan, j)
  }

  lemma {:induction false} RefusalFrom(plan: Plan, i: nat, k: nat)
    requires i <= k <= |plan.artifacts| && forall j :: i <= j < k ==> Arrives(plan, j)
    ensures Refusal(plan.sha, plan.artifacts, plan.fetch, i) == Refusal(plan.sha, plan.artifacts, plan.fetch, k)
    decreases k - i
  {
    if i < k {
      assert Arrives(plan, i);
      RefusalFrom(plan, i + 1, k);
    }
  }

  /** What is answered for a source that has not got all of it: which artifact comes first, and what is wrong. */
  lemma RefusalNamesFirst(plan: Plan, k: nat)
    ensures FirstAmiss(plan, k) ==>
              Refusal(plan.sha, plan.artifacts, plan.fetch, 0) == Some(
                if plan.fetch(k).None? then Fetch(plan.artifacts[k].name) else DigestMismatch(plan.artifacts[k].name))
    ensures (forall j :: 0 <= j < |plan.artifacts| ==> Arrives(plan, j)) ==>
              Refusal(plan.sha, plan.artifacts, plan.fetch, 0) == None
  {
    if FirstAmiss(plan, k) {
      RefusalFrom(plan, 0, k);
    } else if forall j :: 0 <= j < |plan.artifacts| ==> Arrives(plan, j) {
      RefusalFrom(plan, 0, |plan.artifacts|);
    }
  }

  /** And it can be written. */
  predicate Goes(plan: Plan, img: Image, k: nat) {
    Arrives(plan, k) && Writable(After(plan, img, k), plan.version, plan.artifacts[k].name)
  }

  /** Staging gets as far as trying to write artifact k. */
  ghost predicate Reaches(plan: Plan, img: Image, k: nat) {
    Arrives(plan, k) && forall j: nat :: j < k ==> Goes(plan, img, j)
  }

  /** The image at some moment while artifact k is being written. */
  ghost predicate Partway(plan: Plan, img: Image, k: nat, x: Image) {
    Reaches(plan, img, k) && Underway(After(plan, img, k), x, plan.version, plan.artifacts[k].name, plan.fetch(k).value)
  }

  /** The images that writing the artifacts passes through. */
  ghost predicate Passes(plan: Plan, img: Image, x: Image) {
    exists k: nat :: Partway(plan, img, k, x)
  }

  /** The second image has the links of the first, and the staging directory of `v` if that had it. */
  ghost predicate Follows(a: Image, b: Image, v: Version) {
    LinksKept(a, b) && (v in a.staging ==> v in b.staging)
  }

  lemma FiledFollows(img: Image, v: Version, name: Name, bytes: Bytes)
    ensures Follows(img, Filed(img, v, name, bytes), v)
  {
    FoldersKeepLinks(img, TripTo(img, v, name).made);
    StoredKeepsLinks(Opened(img, v, name), Destination(img, v, name), File(bytes));
  }

  lemma AfterFollows(plan: Plan, img: Image, k: nat)
    ensures Follows(img, After(plan, img, k), plan.version)
  {
    forall x, j: nat
      ensures Follows(img, x, plan.version) ==> Follows(img, Writing(plan)(x, j), plan.version)
    {
      if Follows(img, x, plan.version) && j < |plan.artifacts| {
        FiledFollows(x, plan.version, plan.artifacts[j].name, plan.fetch(j).GetOr([]));
      }
    }
    IterateKeeps(Writing(plan), img, k, x => Follows(img, x, plan.version));
  }

  lemma UnderwayKeepsLinks(img: Image, x: Image, v: Version, name: Name, bytes: Bytes)
    requires Underway(img, x, v, name, bytes)
    ensures LinksKept(img, x)
  {
    var made := TripTo(img, v, name).made;
    if OnTheWay(img, x, v, name) {
      var i: nat :| i <= |made| && x == WithFolders(img, made[..i]);
      FoldersKeepLinks(img, made[..i]);
    } else {
      var n: nat :| n <= |bytes| && x == Filed(img, v, name, bytes[..n]);
      FiledFollows(img, v, name, bytes[..n]);
    }
  }

  lemma PassesKeepsLinks(plan: Plan, img: Image, x: Image)
    requires Passes(plan, img, x)
    ensures LinksKept(img, x)
  {
    var k: nat :| Partway(plan, img, k, x);
    AfterFollows(plan, img, k);
    UnderwayKeepsLinks(After(plan, img, k), x, plan.version, plan.artifacts[k].name, plan.fetch(k).value);
  }

  // ------------------------------------------------------------ when staging stays inside

  /** No more than the staging directory is written to for the file: inside, or an empty file emptied again. */
  predicate HarmlessWrite(img: Image, v: Version, name: Name, bytes: Bytes) {
    StaysInside(img, v, name)
    || (bytes == [] && Content(Opened(img, v, name), Destination(img, v, name)) == Some(File([])))
  }

  /** Trying to write the file leaves everything outside the staging directory as it is. */
  predicate Harmless(img: Image, v: Version, name: Name, bytes: Bytes) {
    MakesInside(img, v, name) && (Writable(img, v, name) ==> HarmlessWrite(img, v, name, bytes))
  }

  lemma OpenedInside(base: Image, img: Image, v: Version, name: Name, i: nat)
    requires v in img.staging && DiffersAt(base, img, Staging, v) && MakesInside(img, v, name)
    requires i <= |TripTo(img, v, name).made|
    ensures DiffersAt(base, WithFolders(img, TripTo(img, v, name).made[..i]), Staging, v)
  {
    FoldersInside(img, v, Departure(img, v, name), i);
  }

  lemma UnderwayInside(base: Image, img: Image, x: Image, v: Version, name: Name, bytes: Bytes)
    requires v in img.staging && DiffersAt(base, img, Staging, v) && Harmless(img, v, name, bytes)
    requires Underway(img, x, v, name, bytes)
    ensures DiffersAt(base, x, Staging, v)
  {
    var made := TripTo(img, v, name).made;
    if OnTheWay(img, x, v, name) {
      var i: nat :| i <= |made| && x == WithFolders(img, made[..i]);
      OpenedInside(base, img, v, name, i);
    } else {
      var n: nat :| n <= |bytes| && x == Filed(img, v, name, bytes[..n]);
      if StaysInside(img, v, name) {
        FiledInside(img, v, name, bytes[..n]);
      } else {
        OpenedInside(base, img, v, name, |made|);
        assert made[..|made|] == made && bytes[..n] == [];
        SameStored(Opened(img, v, name), Destination(img, v, name), File([]));
      }
    }
  }

  /** What trying to write a file changes outside at one moment at least, unless it is harmless. */
  lemma HarmIsDone(base: Image, img: Image, v: Version, name: Name, bytes: Bytes) returns (x: Image)
    requires v in img.staging && DiffersAt(base, img, Staging, v) && !Harmless(img, v, name, bytes)
    ensures Underway(img, x, v, name, bytes) && !DiffersAt(base, x, Staging, v)
  {
    var made := TripTo(img, v, name).made;
    if MakesInside(img, v, name) {
      x := FileOutside(base, img, v, name, bytes);
    } else {
      var p :| p in made && !(DirPath(img, Staging, v) <= p);
      var i :| 0 <= i < |made| && made[i] == p;
      FolderOutside(base, img, v, Departure(img, v, name), i);
      x := if DiffersAt(base, WithFolders(img, made[..i]), Staging, v) then WithFolders(img, made[..i + 1])
           else WithFolders(img, made[..i]);
      assert OnTheWay(img, x, v, name);
    }
  }

  lemma FileOutside(base: Image, img: Image, v: Version, name: Name, bytes: Bytes) returns (x: Image)
    requires v in img.staging && DiffersAt(base, img, Staging, v) && MakesInside(img, v, name)
    requires Writable(img, v, name) && !HarmlessWrite(img, v, name, bytes)
    ensures Beginning(img, x, v, name, bytes) && !DiffersAt(base, x, Staging, v)
  {
    var made, open, at := TripTo(img, v, name).made, Opened(img, v, name), Destination(img, v, name);
    OpenedInside(base, img, v, name, |made|);
    assert made[..|made|] == made;
    InsideLocation(img, v, LeadsTo(img, v, name));
    WritableHasPlace(img, v, name);
    var n := if Content(open, at) == Some(File([])) then |bytes| else 0;
    x := Filed(img, v, name, bytes[..n]);
    ContentAfter(open, at, File(bytes[..n]));
    SameContentOutside(base, open, at, v);
    if DiffersAt(base, x, Staging, v) {
      SameContentOutside(base, x, at, v);
    }
  }

  /** The k-th attempt to write is harmless. */
  ghost predicate HarmlessAt(plan: Plan, img: Image, k: nat) {
    k < |plan.artifacts| &&
    Harmless(After(plan, img, k), plan.version, plan.artifacts[k].name, plan.fetch(k).GetOr([]))
  }

  lemma WrittenIsUnderway(img: Image, v: Version, name: Name, bytes: Bytes)
    requires Writable(img, v, name)
    ensures Underway(img, Filed(img, v, name, bytes), v, name, bytes)
  {
    assert bytes[..|bytes|] == bytes;
    assert Beginning(img, Filed(img, v, name, bytes), v, name, bytes);
  }

  lemma WrittenIsPassed(plan: Plan, img: Image, k: nat)
    requires k > 0 && Reaches(plan, img, k - 1) && Goes(plan, img, k - 1)
    ensures Partway(plan, img, k - 1, After(plan, img, k))
  {
    AfterNext(plan, img, k);
    WrittenIsUnderway(After(plan, img, k - 1), plan.version, plan.artifacts[k - 1].name, plan.fetch(k - 1).value);
  }

  lemma PartwayInside(plan: Plan, img: Image, k: nat, x: Image)
    requires plan.version in img.staging && Partway(plan, img, k, x) && HarmlessAt(plan, img, k)
    requires DiffersAt(img, After(plan, img, k), Staging, plan.version)
    ensures DiffersAt(img, x, Staging, plan.version)
  {
    AfterFollows(plan, img, k);
    UnderwayInside(img, After(plan, img, k), x, plan.version, plan.artifacts[k].name, plan.fetch(k).value);
  }

  lemma PartwayOutside(plan: Plan, img: Image, k: nat) returns (x: Image)
    requires plan.version in img.staging && Reaches(plan, img, k) && !HarmlessAt(plan, img, k)
    requires DiffersAt(img, After(plan, img, k), Staging, plan.version)
    ensures Partway(plan, img, k, x) && !DiffersAt(img, x, Staging, plan.version)
  {
    AfterFollows(plan, img, k);
    x := HarmIsDone(img, After(plan, img, k), plan.version, plan.artifacts[k].name, plan.fetch(k).value);
  }

  lemma ReachesThrough(plan: Plan, img: Image, k: nat)
    requires Reaches(plan, img, k) && k > 0
    ensures Reaches(plan, img, k - 1) && Partway(plan, img, k - 1, After(plan, img, k))
  {
    assert Goes(plan, img, k - 1);
    WrittenIsPassed(plan, img, k);
  }

  /** Every attempt to write is harmless. */
  ghost predicate AllHarmless(plan: Plan, img: Image) {
    forall k: nat :: Reaches(plan, img, k) ==> HarmlessAt(plan, img, k)
  }

  lemma FirstInside(plan: Plan, img: Image)
    ensures DiffersAt(img, After(plan, img, 0), Staging, plan.version)
  {
  }

  lemma NextInside(plan: Plan, img: Image, k: nat)
    requires plan.version in img.staging && AllHarmless(plan, img) && Reaches(plan, img, k) && k > 0
    requires DiffersAt(img, After(plan, img, k - 1), Staging, plan.version)
    ensures DiffersAt(img, After(plan, img, k), Staging, plan.version)
  {
    ReachesThrough(plan, img, k);
    PartwayInside(plan, img, k - 1, After(plan, img, k));
  }

  lemma {:induction false} ReachedInside(plan: Plan, img: Image, k: nat)
    requires plan.version in img.staging && AllHarmless(plan, img) && Reaches(plan, img, k)
    ensures DiffersAt(img, After(plan, img, k), Staging, plan.version)
  {
    hide *;
    if k == 0 {
      FirstInside(plan, img);
    } else {
      ReachesThrough(plan, img, k);
      ReachedInside(plan, img, k - 1);
      NextInside(plan, img, k);
    }
  }

  lemma PassesInside(plan: Plan, img: Image, x: Image)
    requires plan.version in img.staging && Passes(plan, img, x) && AllHarmless(plan, img)
    ensures DiffersAt(img, x, Staging, plan.version)
  {
    var k: nat :| Partway(plan, img, k, x);
    ReachedInside(plan, img, k);
    PartwayInside(plan, img, k, x);
  }

  lemma PassesOutside(plan: Plan, img: Image, k: nat) returns (x: Image)
    requires plan.version in img.staging && Reaches(plan, img, k) && !HarmlessAt(plan, img, k)
    ensures Passes(plan, img, x) && !DiffersAt(img, x, Staging, plan.version)
  {
    if DiffersAt(img, After(plan, img, k), Staging, plan.version) {
      x := PartwayOutside(plan, img, k);
    } else {
      x := After(plan, img, k);
      ReachesThrough(plan, img, k);
    }
  }

  /**
   Writing the artifacts of a manifest leaves everything but their staging directory alone, at every
   moment, if and only if that holds of each artifact that staging gets to: no directory is made outside
   on the way to it, and if it can be written its name stays inside; or it is empty, and so is the file it
   overwrites.
   */
  lemma StagingStaysInsideIff(plan: Plan, img: Image)
    requires plan.version in img.staging
    ensures (forall x :: Passes(plan, img, x) ==> DiffersAt(img, x, Staging, plan.version))
            <==> AllHarmless(plan, img)
  {
    if AllHarmless(plan, img) {
      forall x | Passes(plan, img, x)
        ensures DiffersAt(img, x, Staging, plan.version)
      {
        PassesInside(plan, img, x);
      }
    } else {
      var k: nat :| Reaches(plan, img, k) && !HarmlessAt(plan, img, k);
      var x := PassesOutside(plan, img, k);
    }
  }

  /** Writing artifact k, if it comes to that, keeps to the staging directory. */
  ghost predicate KeepsInside(plan: Plan, img: Image, k: nat) {
    k < |plan.artifacts| &&
    var before, name := After(plan, img, k), plan.artifacts[k].name;
    MakesInside(before, plan.version, name)
    && (Writable(before, plan.version, name) ==> StaysInside(before, plan.version, name))
  }

  /** Every artifact that staging gets to keeps to it. */
  ghost predicate Contained(plan: Plan, start: Image) {
    forall k: nat :: Reaches(plan, Prepared(plan, start), k) ==> KeepsInside(plan, Prepared(plan, start), k)
  }

  lemma GuardedKeepsInside(img: Image, v: Version, name: Name)
    requires Guarded(name)
    ensures StaysInside(img, v, name) && MakesInside(img, v, name)
  {
    GuardedStaysInside(img, v, name);
    GuardedMakesInside(img, v, Departure(img, v, name));
  }

  /** They do when no name is absolute or holds `..`, whatever the links are and whatever the source has. */
  lemma GuardedIsContained(plan: Plan, start: Image)
    requires forall a :: a in plan.artifacts ==> Guarded(a.name)
    ensures Contained(plan, start)
  {
    forall k: nat | Reaches(plan, Prepared(plan, start), k)
      ensures KeepsInside(plan, Prepared(plan, start), k)
    {
      assert plan.artifacts[k] in plan.artifacts;
      GuardedKeepsInside(After(plan, Prepared(plan, start), k), plan.version, plan.artifacts[k].name);
    }
  }

  // ------------------------------------------------------------ staging

  /** What staging has done up to some moment: if every name it gets to stays inside, only inside. */
  ghost predicate Staged(plan: Plan, start: Image, img: Image) {
    LinksKept(start, img) && (Contained(plan, start) ==> DiffersAt(start, img, Staging, plan.version))
  }

  /** The images that staging passes through: first the directory is cleared, then files are written. */
  ghost predicate Moment(plan: Plan, start: Image, x: Image) {
    DiffersAt(start, x, Staging, plan.version) || Passes(plan, Prepared(plan, start), x)
  }

  lemma MomentIsStaged(plan: Plan, start: Image, x: Image)
    requires Moment(plan, start, x)
    ensures Staged(plan, start, x)
  {
    var img := Prepared(plan, start);
    if Passes(plan, img, x) {
      PassesKeepsLinks(plan, img, x);
      if Contained(plan, start) {
        forall k: nat | Reaches(plan, img, k)
          ensures HarmlessAt(plan, img, k)
        {
          assert KeepsInside(plan, img, k);
        }
        PassesInside(plan, img, x);
      }
    }
  }

  /** Where staging is once the first k artifacts have been written. */
  ghost predicate InProgress(plan: Plan, start: Image, img: Image, k: nat) {
    && k <= |plan.artifacts| && plan.version in img.staging
    && img == After(plan, Prepared(plan, start), k)
    && (forall j: nat :: j < k ==> Goes(plan, Prepared(plan, start), j))
    && (Contained(plan, start) ==>
          Serves(plan.sha, Entries(start, plan.version, plan.artifacts[..k]),
                 Leftover(start, plan.version, plan.misread), img.staging[plan.version]))
  }

  lemma ProgressStarts(plan: Plan, start: Image)
    ensures InProgress(plan, start, Prepared(plan, start), 0)
  {
    var base := Leftover(start, plan.version, plan.misread);
    assert Serves(plan.sha, Entries(start, plan.version, plan.artifacts[..0]), base, base);
  }

  /** The directories made on the way add no files. */
  lemma {:induction false} OpenedServes(sha: Digester, entries: seq<Entry>, base: Dir, img: Image, v: Version, leg: Leg,
                                        i: nat)
    requires v in img.staging && i <= |Travel(img, leg).made|
    requires forall p :: p in Travel(img, leg).made ==> DirPath(img, Staging, v) <= p
    requires Serves(sha, entries, base, img.staging[v])
    ensures var open := WithFolders(img, Travel(img, leg).made[..i]);
      v in open.staging && Serves(sha, entries, base, open.staging[v])
  {
    hide Travel, CanMake, Serves;
    if i > 0 {
      var made := Travel(img, leg).made;
      var before := WithFolders(img, made[..i - 1]);
      OpenedServes(sha, entries, base, img, v, leg, i - 1);
      FoldersKeepLinks(img, made[..i - 1]);
      FoldersUpTo(img, made, i - 1);
      EachIsMade(img, leg, i - 1);
      assert made[i - 1] in made;
      FolderServes(sha, entries, base, before, v, made[i - 1]);
    }
  }

  lemma AllFoldersServe(sha: Digester, entries: seq<Entry>, base: Dir, img: Image, v: Version, name: Name)
    requires v in img.staging && MakesInside(img, v, name) && Serves(sha, entries, base, img.staging[v])
    ensures v in Opened(img, v, name).staging && Serves(sha, entries, base, Opened(img, v, name).staging[v])
  {
    var made := TripTo(img, v, name).made;
    OpenedServes(sha, entries, base, img, v, Departure(img, v, name), |made|);
    assert made[..|made|] == made;
  }

  lemma InnerKept(a: Image, b: Image, v: Version, name: Name)
    requires LinksKept(a, b)
    ensures Inner(a, v, name) == Inner(b, v, name) && StaysInside(a, v, name) == StaysInside(b, v, name)
  {
  }

  lemma FolderServes(sha: Digester, entries: seq<Entry>, base: Dir, img: Image, v: Version, p: Path)
    requires v in img.staging && DirPath(img, Staging, v) <= p && CanMake(img, p)
    requires Serves(sha, entries, base, img.staging[v])
    ensures v in WithFolder(img, p).staging && Serves(sha, entries, base, WithFolder(img, p).staging[v])
  {
    FolderInside(img, v, p);
    ServesFolder(sha, entries, base, img.staging[v], p[|img.root| + 2..]);
  }

  lemma WriteServes(sha: Digester, start: Image, img: Image, v: Version, arts: seq<Artifact>, k: nat, base: Dir,
                    bytes: Bytes)
    requires k < |arts| && LinksKept(start, img) && v in img.staging
    requires StaysInside(img, v, arts[k].name) && MakesInside(img, v, arts[k].name) && Writable(img, v, arts[k].name)
    requires Matches(sha, arts[k].size, arts[k].sha256, bytes)
    requires Serves(sha, Entries(start, v, arts[..k]), base, img.staging[v])
    ensures var next := Filed(img, v, arts[k].name, bytes);
      v in next.staging && Serves(sha, Entries(start, v, arts[..k + 1]), base, next.staging[v])
  {
    hide Filed, Writable, StaysInside, MakesInside, Inner, Serves, WithFolders, Travel;
    var a, trip := arts[k], TripTo(img, v, arts[k].name);
    AllFoldersServe(sha, Entries(start, v, arts[..k]), base, img, v, a.name);
    FiledInside(img, v, a.name, bytes);
    InnerKept(start, img, v, a.name);
    PrefixOfPrefix(arts, k + 1, k);
    ServesOneMore(sha, Entries(start, v, arts[..k]), Entry(Inner(start, v, a.name), a.sha256, a.size), base,
                  Opened(img, v, a.name).staging[v], bytes);
  }

  lemma ServesNext(plan: Plan, start: Image, img: Image, k: nat)
    requires InProgress(plan, start, img, k) && Goes(plan, Prepared(plan, start), k) && Contained(plan, start)
    ensures var next := Filed(img, plan.version, plan.artifacts[k].name, plan.fetch(k).value);
      && plan.version in next.staging
      && Serves(plan.sha, Entries(start, plan.version, plan.artifacts[..k + 1]),
                Leftover(start, plan.version, plan.misread), next.staging[plan.version])
  {
    assert Reaches(plan, Prepared(plan, start), k) && KeepsInside(plan, Prepared(plan, start), k);
    AfterFollows(plan, Prepared(plan, start), k);
    WriteServes(plan.sha, start, img, plan.version, plan.artifacts, k, Leftover(start, plan.version, plan.misread),
                plan.fetch(k).value);
  }

  lemma ProgressOne(plan: Plan, start: Image, img: Image, k: nat)
    requires InProgress(plan, start, img, k) && Goes(plan, Prepared(plan, start), k)
    ensures InProgress(plan, start, Filed(img, plan.version, plan.artifacts[k].name, plan.fetch(k).value), k + 1)
  {
    hide Filed, Writable, KeepsInside, Contained, Serves, Matches;
    AfterNext(plan, Prepared(plan, start), k + 1);
    FiledFollows(img, plan.version, plan.artifacts[k].name, plan.fetch(k).value);
    if Contained(plan, start) {
      ServesNext(plan, start, img, k);
    }
  }

  /** What writing one artifact, once it has been checked, may have made of an image at some moment. */
  ghost predicate Written(sha: Digester, a: Artifact, fetched: Option<Bytes>, v: Version, before: Image, x: Image) {
    && fetched.Some? && Matches(sha, a.size, a.sha256, fetched.value)
    && Underway(before, x, v, a.name, fetched.value)
  }

  lemma WrittenIsMoment(plan: Plan, start: Image, img: Image, k: nat, x: Image)
    requires InProgress(plan, start, img, k) && k < |plan.artifacts|
    requires Written(plan.sha, plan.artifacts[k], plan.fetch(k), plan.version, img, x)
    ensures Moment(plan, start, x)
  {
    assert Partway(plan, Prepared(plan, start), k, x);
  }

  /** Checks one fetched artifact and writes it. */
  method StageOne(disk: Disk, sha: Digester, a: Artifact, fetched: Option<Bytes>, v: Version)
    returns (res: Outcome<UpdateError>)
    requires disk.Valid() && v in disk.image.staging
    modifies disk, disk.os
    ensures disk.Valid() && old(disk.seen) <= disk.seen
    ensures disk.image == old(disk.image) || Written(sha, a, fetched, v, old(disk.image), disk.image)
    ensures forall x :: x in disk.seen ==> x in old(disk.seen) || Written(sha, a, fetched, v, old(disk.image), x)
    ensures res.Pass? ==>
              && Written(sha, a, fetched, v, old(disk.image), disk.image) && Writable(old(disk.image), v, a.name)
              && disk.image == Filed(old(disk.image), v, a.name, fetched.value)
    ensures res.Fail? ==>
              || res.error == Io
              || (fetched.None? && res.error == Fetch(a.name))
              || (fetched.Some? && !Matches(sha, a.size, a.sha256, fetched.value)
                  && res.error == DigestMismatch(a.name))
    ensures old(disk.os.made) <= disk.os.made
    ensures res == Fail(Io) ==> fetched.Some? && Matches(sha, a.size, a.sha256, fetched.value)
    ensures disk.os.Quiet(old(disk.os.made), disk.os.made) && res == Fail(Io) ==>
              !Writable(old(disk.image), v, a.name)
  {
    if fetched.None? {
      return Fail(Fetch(a.name));
    }
    res := VerifyDigest(sha, a, fetched.value);
    if res.Fail? {
      return;
    }
    var wrote := disk.WriteFile(v, a.name, fetched.value);
    res := if wrote then Pass else Fail(Io);
  }

  /** Everything that holds between two artifacts. */
  ghost predicate Between(plan: Plan, start: Image, disk: Disk, k: nat)
    reads disk
  {
    disk.Valid() && InProgress(plan, start, disk.image, k) && Moment(plan, start, disk.image)
  }

  /** Stages one more artifact. */
  method StageNext(disk: Disk, sha: Digester, arts: seq<Artifact>, fetch: nat -> Option<Bytes>, v: Version, k: nat,
                   ghost plan: Plan, ghost start: Image)
    returns (res: Outcome<UpdateError>)
    requires plan == Plan(sha, v, arts, fetch, plan.misread) && k < |arts| && Between(plan, start, disk, k)
    modifies disk, disk.os
    ensures disk.Valid() && old(disk.seen) <= disk.seen && Moment(plan, start, disk.image)
    ensures forall x :: x in disk.seen ==> x in old(disk.seen) || Moment(plan, start, x)
    ensures res.Pass? ==> Between(plan, start, disk, k + 1)
    ensures res.Pass? ==> Refusal(sha, arts, fetch, k) == Refusal(sha, arts, fetch, k + 1)
    ensures res.Fail? && res.error != Io ==> Refusal(sha, arts, fetch, k) == Some(res.error) && !Arrives(plan, k)
    ensures old(disk.os.made) <= disk.os.made
    ensures disk.os.Quiet(old(disk.os.made), disk.os.made) && res == Fail(Io) ==>
              Reaches(plan, Prepared(plan, start), k) && !Goes(plan, Prepared(plan, start), k)
  {
    hide Writable, Filed, Underway, Serves, Contained;
    ghost var before := disk.image;
    res := StageOne(disk, sha, arts[k], fetch(k), v);
    forall x | Written(sha, arts[k], fetch(k), v, before, x)
      ensures Moment(plan, start, x)
    {
      WrittenIsMoment(plan, start, before, k, x);
    }
    if res.Pass? {
      ProgressOne(plan, start, before, k);
    }
  }

  /** Staging gets to an artifact that arrives and matches and cannot be written. */
  ghost predicate GetsStuck(plan: Plan, img: Image) {
    exists k: nat :: Reaches(plan, img, k) && !Goes(plan, img, k)
  }

  lemma StopsAt(plan: Plan, start: Image, k: nat)
    requires forall j: nat :: j < k ==> Goes(plan, Prepared(plan, start), j)
    ensures !Arrives(plan, k) ==> !GetsStuck(plan, Prepared(plan, start))
    ensures Reaches(plan, Prepared(plan, start), k) && !Goes(plan, Prepared(plan, start), k) ==>
              GetsStuck(plan, Prepared(plan, start))
  {
    hide Writable, Filed, Matches;
    var img := Prepared(plan, start);
    assert !Arrives(plan, k) ==> !Goes(plan, img, k);
  }

  lemma AllWent(plan: Plan, start: Image)
    requires forall j: nat :: j < |plan.artifacts| ==> Goes(plan, Prepared(plan, start), j)
    ensures !GetsStuck(plan, Prepared(plan, start))
  {
    hide Writable, Filed, Matches;
  }

  method BeginStaging(disk: Disk, ghost sha: Digester, ghost arts: seq<Artifact>, ghost fetch: nat -> Option<Bytes>,
                      v: Version)
    returns (ok: bool, ghost plan: Plan)
    requires disk.Valid()
    modifies disk, disk.os
    ensures plan == Plan(sha, v, arts, fetch, plan.misread)
    ensures disk.Valid() && old(disk.seen) <= disk.seen && Moment(plan, old(disk.image), disk.image)
    ensures forall x :: x in disk.seen ==> x in old(disk.seen) || Moment(plan, old(disk.image), x)
    ensures ok ==> Between(plan, old(disk.image), disk, 0)
    ensures old(disk.os.made) <= disk.os.made
    ensures disk.os.Quiet(old(disk.os.made), disk.os.made) ==> ok && !plan.misread
  {
    ghost var start, misread := disk.image, false;
    ok, misread := PrepareStaging(disk, v);
    plan := Plan(sha, v, arts, fetch, misread);
    if ok {
      ProgressStarts(plan, start);
    }
  }

  /** Fetches every artifact into the staging directory of `v`, checking each one. */
  method Stage(disk: Disk, sha: Digester, arts: seq<Artifact>, fetch: nat -> Option<Bytes>, v: Version)
    returns (res: Outcome<UpdateError>, ghost plan: Plan)
    requires disk.Valid()
    modifies disk, disk.os
    ensures plan == Plan(sha, v, arts, fetch, plan.misread)
    ensures disk.Valid() && old(disk.seen) <= disk.seen
    ensures Moment(plan, old(disk.image), disk.image)
    ensures forall x :: x in disk.seen ==> x in old(disk.seen) || Moment(plan, old(disk.image), x)
    ensures res.Pass? ==> InProgress(plan, old(disk.image), disk.image, |arts|) && Refusal(sha, arts, fetch, 0) == None
    ensures res.Fail? ==> res.error == Io || Refusal(sha, arts, fetch, 0) == Some(res.error)
    ensures old(disk.os.made) <= disk.os.made
    ensures disk.os.Quiet(old(disk.os.made), disk.os.made) ==>
              !plan.misread && (res == Fail(Io) <==> GetsStuck(plan, Prepared(plan, old(disk.image))))
  {
    hide Writable, Filed, Underway, Serves, Contained, Arrives;
    ghost var start := disk.image;
    var ready;
    ready, plan := BeginStaging(disk, sha, arts, fetch, v);
    if !ready {
      return Fail(Io), plan;
    }
    var k := 0;
    while k < |arts|
      invariant 0 <= k <= |arts| && old(disk.seen) <= disk.seen
      invariant Between(plan, start, disk, k) && old(disk.os.made) <= disk.os.made
      invariant disk.os.Quiet(old(disk.os.made), disk.os.made) ==> !plan.misread
      invariant forall x :: x in disk.seen ==> x in old(disk.seen) || Moment(plan, start, x)
      invariant Refusal(sha, arts, fetch, 0) == Refusal(sha, arts, fetch, k)
    {
      res := StageNext(disk, sha, arts, fetch, v, k, plan, start);
      if res.Fail? {
        StopsAt(plan, start, k);
        return;
      }
      k := k + 1;
    }
    AllWent(plan, start);
    res := Pass;
  }
}
