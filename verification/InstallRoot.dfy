/**
 The disk that the updater works on (crates/trace-updater/src/apply.rs): the install root, every other
 file and symlink of the machine, and the primitive changes an update is made of. Power may fail between
 any two of them, also in the middle of writing a file or deleting a directory; a rename is one durable
 change. Any primitive may instead fail with an I/O error.
 */
module InstallRoots {
  import opened Collections
  import opened Faults
  import opened Manifests
  import opened Paths

  datatype Node = File(bytes: Bytes) | Folder

  /** The files and directories of a directory tree, by their paths below it. */
  type Dir = map<Path, Node>

  /** Where a link of the installation points; Foreign is a name whose last component is no version. */
  datatype Target = NoLink | To(version: Version) | Foreign(name: Name)

  datatype Place = Staging | Releases
  datatype Slot = Current | Previous

  /**
   The install root with everything under it, and all other files, directories and symlinks of the machine. A link is
   prepared under a temporary name, which carries the id of the process; what other processes left under
   such a name is among `links`.
   */
  datatype Image = Image(
    root: Path,
    staging: map<Version, Dir>,
    releases: map<Version, Dir>,
    elsewhere: map<Path, Node>,
    links: map<Path, Name>,
    current: Target,
    previous: Target,
    process: string,
    currentTmp: Target,
    previousTmp: Target)

  function Dirs(img: Image, place: Place): map<Version, Dir> {
    match place case Staging => img.staging case Releases => img.releases
  }

  function WithDirs(img: Image, place: Place, dirs: map<Version, Dir>): Image {
    match place
    case Staging => img.(staging := dirs)
    case Releases => img.(releases := dirs)
  }

  function TmpOf(img: Image, slot: Slot): Target {
    match slot case Current => img.currentTmp case Previous => img.previousTmp
  }

  function WithTmp(img: Image, slot: Slot, t: Target): Image {
    match slot
    case Current => img.(currentTmp := t)
    case Previous => img.(previousTmp := t)
  }

  /** The temporary link renamed over the real one. */
  function Renamed(img: Image, slot: Slot): Image {
    match slot
    case Current => img.(current := img.currentTmp, currentTmp := NoLink)
    case Previous => img.(previous := img.previousTmp, previousTmp := NoLink)
  }

  // ------------------------------------------------------------ where a name leads

  function PlaceIn(root: Path, place: Place): Path {
    root + [if place.Staging? then "staging" else "releases"]
  }

  function PlacePath(img: Image, place: Place): Path {
    PlaceIn(img.root, place)
  }

  function DirPath(img: Image, place: Place, v: Version): Path {
    PlacePath(img, place) + [v]
  }

  /** The install root and its two directories are real directories, and there are no links in these two. */
  predicate LinkFree(root: Path, p: Path) {
    || p <= PlaceIn(root, Staging) || p <= PlaceIn(root, Releases)
    || PlaceIn(root, Staging) <= p || PlaceIn(root, Releases) <= p
  }

  function NameOf(root: Path, t: Target): Name {
    match t
    case NoLink => []
    case To(v) => Absolute(PlaceIn(root, Releases) + [v])
    case Foreign(name) => name
  }

  /** The symlinks of a machine: those of the installation, and the others. */
  function LinkMap(root: Path, others: map<Path, Name>, slots: map<Path, Target>): map<Path, Name> {
    (map l | l in others && l !in slots && !LinkFree(root, l) :: others[l]) +
    (map l | l in slots && slots[l] != NoLink :: NameOf(root, slots[l]))
  }

  function Links(img: Image): map<Path, Name> {
    LinkMap(img.root, img.links, map[
              img.root + ["current"] := img.current,
              img.root + ["previous"] := img.previous,
              img.root + ["current.tmp-" + img.process] := img.currentTmp,
              img.root + ["previous.tmp-" + img.process] := img.previousTmp])
  }

  lemma NoLinkInTrees(img: Image, place: Place, l: Path)
    requires l in Links(img)
    ensures !(PlacePath(img, place) <= l) && !(l <= PlacePath(img, place))
  {
    var n := |img.root|;
    assert (img.root + ["current"])[n] == "current" && (img.root + ["previous"])[n] == "previous";
    assert (img.root + ["current.tmp-" + img.process])[n][0] == 'c';
    assert (img.root + ["previous.tmp-" + img.process])[n][0] == 'p';
  }

  datatype Location =
    | Fixed
    | VersionDir(place: Place, version: Version)
    | InDir(place: Place, version: Version, path: Path)
    | Other(path: Path)

  /** What an absolute path is; the root of the installation and its two directories are fixed. */
  function Locate(img: Image, p: Path): Location {
    var n := |img.root| + 1;
    if p <= PlacePath(img, Staging) || p <= PlacePath(img, Releases) then Fixed
    else if PlacePath(img, Staging) <= p then
      if |p| == n + 1 then VersionDir(Staging, p[n]) else InDir(Staging, p[n], p[n + 1..])
    else if PlacePath(img, Releases) <= p then
      if |p| == n + 1 then VersionDir(Releases, p[n]) else InDir(Releases, p[n], p[n + 1..])
    else Other(p)
  }

  /**
   Where a file name of a manifest leads when it is joined onto the staging directory of `v`; a name with
   too many links is as good as one that leads to `/`, where no file can be either.
   */
  function LeadsTo(img: Image, v: Version, name: Name): Path {
    Walk(Links(img), DirPath(img, Staging, v), name, MAX_LINKS).GetOr([])
  }

  /** The name does not leave the staging directory it is joined onto. */
  predicate StaysInside(img: Image, v: Version, name: Name) {
    DirPath(img, Staging, v) <= LeadsTo(img, v, name)
  }

  /** Where in the staged directory a name that stays inside leads. */
  function Inner(img: Image, v: Version, name: Name): Path {
    if StaysInside(img, v, name) then LeadsTo(img, v, name)[|img.root| + 2..] else []
  }

  /** The file that a name of a manifest stands for. */
  function Destination(img: Image, v: Version, name: Name): Location {
    Locate(img, LeadsTo(img, v, name))
  }

  lemma InsideLocation(img: Image, v: Version, p: Path)
    ensures DirPath(img, Staging, v) <= p <==>
              Locate(img, p) == VersionDir(Staging, v) || (Locate(img, p).InDir? && Locate(img, p).place.Staging?
                                                           && Locate(img, p).version == v)
    ensures DirPath(img, Staging, v) < p ==> Locate(img, p) == InDir(Staging, v, p[|img.root| + 2..])
  {
    var n := |img.root| + 1;
    if |p| > n {
      assert p[..n + 1] == p[..n] + [p[n]];
    }
  }

  /** The guard that artifact paths are put through would keep artifact names inside as well. */
  lemma GuardedStaysInside(img: Image, v: Version, name: Name)
    requires Guarded(name)
    ensures StaysInside(img, v, name) && Inner(img, v, name) == Normals(name)
  {
    var at := DirPath(img, Staging, v);
    forall l | l in Links(img)
      ensures !(at <= l)
    {
      NoLinkInTrees(img, Staging, l);
    }
    GuardedGoesDown(Links(img), at, name, MAX_LINKS);
  }

  // ------------------------------------------------------------ files

  /** What is in a place, if anything is. */
  function Content(img: Image, at: Location): Option<Node> {
    match at
    case Fixed => Some(Folder)
    case VersionDir(place, w) =>
      var p := DirPath(img, place, w);
      if w in Dirs(img, place) then Some(Folder)
      else if p in img.elsewhere && img.elsewhere[p].File? then Some(img.elsewhere[p])
      else None
    case InDir(place, w, path) =>
      var dirs := Dirs(img, place);
      if w in dirs && path in dirs[w] then Some(dirs[w][path]) else None
    case Other(path) => if path in img.elsewhere then Some(img.elsewhere[path]) else None
  }

  /** The image with one file or directory put in a place; the directory it is in has to be there. */
  function Stored(img: Image, at: Location, node: Node): Image {
    match at
    case Fixed => img
    case VersionDir(place, w) =>
      if node.Folder? then WithDirs(img, place, Dirs(img, place)[w := map[]])
      else img.(elsewhere := img.elsewhere[DirPath(img, place, w) := node])
    case InDir(place, w, path) =>
      var dirs := Dirs(img, place);
      if w in dirs then WithDirs(img, place, dirs[w := dirs[w][path := node]]) else img
    case Other(path) => img.(elsewhere := img.elsewhere[path := node])
  }

  predicate IsFolder(img: Image, p: Path) {
    Content(img, Locate(img, p)) == Some(Folder)
  }

  // ------------------------------------------------------------ on the way to a file

  /** The directories that are made on the way to a file, and whether nothing stops it. */
  datatype Trip = Trip(made: seq<Path>, clear: bool)

  function WithFolder(img: Image, p: Path): Image {
    Stored(img, Locate(img, p), Folder)
  }

  /** The image with these directories made, one after another. */
  function WithFolders(img: Image, made: seq<Path>): Image {
    if made == [] then img else WithFolder(WithFolders(img, made[..|made| - 1]), made[|made| - 1])
  }

  lemma OneMoreFolder(img: Image, made: seq<Path>, p: Path)
    ensures WithFolders(img, made + [p]) == WithFolder(WithFolders(img, made), p)
  {
    assert (made + [p])[..|made|] == made;
  }

  /** Whether something but the directory itself comes behind a component. */
  predicate GoesOn(rest: Name) {
    exists c :: c in rest && !c.CurDir?
  }

  function Least(a: nat, b: nat): nat {
    if a < b then a else b
  }

  /** Where one is on the way: the components to come, how many of them are the name's own, and links left to follow. */
  datatype Leg = Leg(at: Path, rest: Name, own: nat, limit: nat)

  datatype Move = Stop | Go(on: Leg) | Make(on: Leg)

  /**
   One component taken. Nothing leads on from a file. A component that is not there is made a directory
   if it is one of the name's own and not the last of all; what comes from a symlink has to be there.
   */
  function Next(img: Image, leg: Leg): (move: Move)
    requires leg.rest != []
    ensures !move.Stop? ==>
              move.on.limit < leg.limit || (move.on.limit == leg.limit && |move.on.rest| < |leg.rest|)
  {
    var later := leg.rest[1..];
    var own := Least(leg.own, |later|);
    if !IsFolder(img, leg.at) then Stop
    else
      match leg.rest[0]
      case RootDir => Go(Leg([], later, own, leg.limit))
      case CurDir => Go(Leg(leg.at, later, own, leg.limit))
      case ParentDir => Go(Leg(Parent(leg.at), later, own, leg.limit))
      case Normal(n) =>
        var p := leg.at + [n];
        if p !in Links(img) then
          var on := Leg(p, later, own, leg.limit);
          if |leg.rest| <= leg.own && GoesOn(later) && Content(img, Locate(img, p)).None? then Make(on) else Go(on)
        else if leg.limit == 0 then Stop
        else Go(Leg(leg.at, Links(img)[p] + later, own, leg.limit - 1))
  }

  function Travel(img: Image, leg: Leg): Trip
    decreases leg.limit, |leg.rest|
  {
    if leg.rest == [] then Trip([], true)
    else
      match Next(img, leg)
      case Stop => Trip([], false)
      case Go(on) => Travel(img, on)
      case Make(on) =>
        var onward := Travel(WithFolder(img, on.at), on);
        Trip([on.at] + onward.made, onward.clear)
  }

  function Departure(img: Image, v: Version, name: Name): Leg {
    Leg(DirPath(img, Staging, v), name, |name|, MAX_LINKS)
  }

  /** The way to the file that a name of a manifest stands for. */
  function TripTo(img: Image, v: Version, name: Name): Trip {
    Travel(img, Departure(img, v, name))
  }

  /** The image once the directories on the way to the file are there. */
  function Opened(img: Image, v: Version, name: Name): Image {
    WithFolders(img, TripTo(img, v, name).made)
  }

  /** Nothing but an I/O error keeps the file that the name stands for from being written. */
  predicate Writable(img: Image, v: Version, name: Name) {
    && name != [] && name[|name| - 1].Normal?
    && TripTo(img, v, name).clear
    && IsFolder(Opened(img, v, name), Parent(LeadsTo(img, v, name)))
    && Content(Opened(img, v, name), Destination(img, v, name)) != Some(Folder)
  }

  /** The image once the file has been written. */
  function Filed(img: Image, v: Version, name: Name, bytes: Bytes): Image {
    Stored(Opened(img, v, name), Destination(img, v, name), File(bytes))
  }

  /** No directory outside the staging directory is made on the way to the file. */
  predicate MakesInside(img: Image, v: Version, name: Name) {
    forall p :: p in TripTo(img, v, name).made ==> DirPath(img, Staging, v) <= p
  }

  // ------------------------------------------------------------ what differs

  /** Names lead to the same places on both images, and both links are as they were. */
  ghost predicate LinksKept(a: Image, b: Image) {
    && a.root == b.root && a.links == b.links && a.process == b.process
    && a.current == b.current && a.previous == b.previous
    && a.currentTmp == b.currentTmp && a.previousTmp == b.previousTmp
  }

  lemma LeadsAlike(a: Image, b: Image, v: Version, name: Name)
    requires LinksKept(a, b)
    ensures LeadsTo(a, v, name) == LeadsTo(b, v, name) && Destination(a, v, name) == Destination(b, v, name)
  {
  }

  lemma StoredKeepsLinks(img: Image, at: Location, node: Node)
    ensures LinksKept(img, Stored(img, at, node))
    ensures forall v :: v in img.staging ==> v in Stored(img, at, node).staging
  {
  }

  lemma {:induction false} FoldersKeepLinks(img: Image, made: seq<Path>)
    ensures LinksKept(img, WithFolders(img, made))
    ensures forall v :: v in img.staging ==> v in WithFolders(img, made).staging
  {
    if made != [] {
      var before := WithFolders(img, made[..|made| - 1]);
      FoldersKeepLinks(img, made[..|made| - 1]);
      StoredKeepsLinks(before, Locate(before, made[|made| - 1]), Folder);
    }
  }

  /** The two images differ at most in the directory of `v` in one place. */
  ghost predicate DiffersAt(a: Image, b: Image, place: Place, v: Version) {
    b == WithDirs(a, place, Dirs(b, place)) && Dirs(b, place) - {v} == Dirs(a, place) - {v}
  }

  /**
   What writing a file may have made of an image at some moment: the first directories on the way are
   there, or all of them and a beginning of the bytes.
   */
  ghost predicate Underway(a: Image, b: Image, v: Version, name: Name, bytes: Bytes) {
    OnTheWay(a, b, v, name) || (Writable(a, v, name) && Beginning(a, b, v, name, bytes))
  }

  ghost predicate OnTheWay(a: Image, b: Image, v: Version, name: Name) {
    exists i: nat :: i <= |TripTo(a, v, name).made| && b == WithFolders(a, TripTo(a, v, name).made[..i])
  }

  ghost predicate Beginning(a: Image, b: Image, v: Version, name: Name, bytes: Bytes) {
    exists n: nat :: n <= |bytes| && b == Filed(a, v, name, bytes[..n])
  }

  /** The two images differ at most in the temporary name of one link. */
  ghost predicate DiffersInTmp(a: Image, b: Image, slot: Slot) {
    b == WithTmp(a, slot, TmpOf(b, slot))
  }

  lemma ContentAfter(img: Image, at: Location, node: Node)
    requires Content(img, at) != Some(Folder) && (at.InDir? ==> at.version in Dirs(img, at.place))
    ensures Content(Stored(img, at, node), at) == Some(node)
  {
  }

  lemma SameStored(img: Image, at: Location, node: Node)
    requires Content(img, at) == Some(node) && node.File?
    ensures Stored(img, at, node) == img
  {
    match at
    case VersionDir(place, w) =>
      assert img.elsewhere[DirPath(img, place, w) := node] == img.elsewhere;
    case InDir(place, w, path) =>
      var dirs := Dirs(img, place);
      assert dirs[w][path := node] == dirs[w];
      assert dirs[w := dirs[w][path := node]] == dirs;
    case Other(path) =>
      assert img.elsewhere[path := node] == img.elsewhere;
  }

  predicate In(at: Location, v: Version) {
    (at.InDir? || at.VersionDir?) && at.place.Staging? && at.version == v
  }

  lemma SameContentOutside(a: Image, b: Image, at: Location, v: Version)
    requires DiffersAt(a, b, Staging, v) && !In(at, v)
    ensures Content(a, at) == Content(b, at)
  {
    if (at.InDir? || at.VersionDir?) && at.place.Staging? {
      var w := at.version;
      assert w in a.staging <==> w in a.staging - {v};
      assert w in b.staging <==> w in b.staging - {v};
      assert w in a.staging ==> (a.staging - {v})[w] == a.staging[w];
      assert w in b.staging ==> (b.staging - {v})[w] == b.staging[w];
    }
  }

  /** Following the link finds something. */
  predicate Leads(img: Image, t: Target) {
    match t
    case NoLink => false
    case To(v) => v in img.releases
    case Foreign(name) =>
      && Travel(img, Leg(img.root, name, 0, MAX_LINKS - 1)).clear
      && Content(img, Locate(img, Walk(Links(img), img.root, name, MAX_LINKS - 1).GetOr([]))).Some?
  }

  /** The temporary name of a link is free, or can be freed: what is left under it leads somewhere. */
  predicate TmpFree(img: Image, slot: Slot) {
    TmpOf(img, slot) == NoLink || Leads(img, TmpOf(img, slot))
  }

  /** The way is taken up to `leg`, with the directories of `done` made. */
  ghost predicate Halfway(start: Image, trip: Trip, img: Image, leg: Leg, done: seq<Path>) {
    && img == WithFolders(start, done)
    && trip == Trip(done + Travel(img, leg).made, Travel(img, leg).clear)
  }

  lemma HalfwayStarts(img: Image, v: Version, name: Name)
    ensures Halfway(img, TripTo(img, v, name), img, Departure(img, v, name), [])
  {
    hide Travel;
    var made := TripTo(img, v, name).made;
    assert [] + made == made;
  }

  lemma HalfwayStopped(start: Image, trip: Trip, img: Image, leg: Leg, done: seq<Path>)
    requires Halfway(start, trip, img, leg, done) && leg.rest != [] && Next(img, leg) == Stop
    ensures !trip.clear
  {
    hide Next;
  }

  lemma HalfwayGone(start: Image, trip: Trip, img: Image, leg: Leg, done: seq<Path>, on: Leg)
    requires Halfway(start, trip, img, leg, done) && leg.rest != [] && Next(img, leg) == Go(on)
    ensures Halfway(start, trip, img, on, done)
  {
    TravelGone(img, leg, on);
  }

  lemma TravelGone(img: Image, leg: Leg, on: Leg)
    requires leg.rest != [] && Next(img, leg) == Go(on)
    ensures Travel(img, leg) == Travel(img, on)
  {
  }

  lemma HalfwayMade(start: Image, trip: Trip, img: Image, leg: Leg, done: seq<Path>, on: Leg)
    requires Halfway(start, trip, img, leg, done) && leg.rest != [] && Next(img, leg) == Make(on)
    ensures Halfway(start, trip, WithFolder(img, on.at), on, done + [on.at])
  {
    TravelMade(img, leg, on);
    OneMoreFolder(start, done, on.at);
    Assoc(done, [on.at], Travel(WithFolder(img, on.at), on).made);
  }

  lemma TravelMade(img: Image, leg: Leg, on: Leg)
    requires leg.rest != [] && Next(img, leg) == Make(on)
    ensures var onward := Travel(WithFolder(img, on.at), on);
      Travel(img, leg) == Trip([on.at] + onward.made, onward.clear)
  {
  }

  lemma HalfwayIsOnTheWay(start: Image, img: Image, leg: Leg, done: seq<Path>, v: Version, name: Name)
    requires Halfway(start, TripTo(start, v, name), img, leg, done)
    ensures OnTheWay(start, img, v, name)
    ensures leg.rest == [] ==> TripTo(start, v, name) == Trip(done, true) && img == Opened(start, v, name)
  {
    assert TripTo(start, v, name).made[..|done|] == done;
  }

  // ------------------------------------------------------------ the disk

  class Disk {
    const os: Calls
    var image: Image
    /** Every image the disk has held: what a power cut may leave behind. */
    ghost var seen: set<Image>

    ghost predicate Valid()
      reads this
    {
      image in seen
    }

    constructor (image: Image, os: Calls)
      ensures Valid() && this.image == image && this.os == os && seen == {image}
    {
      this.image, this.os := image, os;
      seen := {image};
    }

    method Put(next: Image)
      modifies `image, `seen
      ensures Valid() && image == next && seen == old(seen) + {next}
    {
      image := next;
      seen := seen + {next};
    }

    /** Whether a directory is there. An error while looking reads as absent: a misread, if it is there. */
    method Exists(place: Place, v: Version) returns (found: bool, ghost misread: bool)
      modifies os`made
      ensures found ==> v in Dirs(image, place)
      ensures misread == (v in Dirs(image, place) && !found)
      ensures os.made == old(os.made) + 1 && (os.Quiet(old(os.made), os.made) ==> !misread)
    {
      var ok := os.Try();
      found := ok && v in Dirs(image, place);
      misread := !ok && v in Dirs(image, place);
    }

    /** Deletes a directory entry by entry. */
    method RemoveTree(place: Place, v: Version) returns (ok: bool)
      requires Valid()
      requires v in Dirs(image, place)
      modifies `image, `seen, os`made
      ensures old(os.made) <= os.made && (ok <==> os.Quiet(old(os.made), os.made))
      ensures DiffersAt(old(image), image, place, v)
      ensures forall x :: x in seen ==> x in old(seen) || DiffersAt(old(image), x, place, v)
      ensures Valid() && old(seen) <= seen
      ensures ok ==> v !in Dirs(image, place)
    {
      while Dirs(image, place)[v] != map[]
        invariant v in Dirs(image, place) && DiffersAt(old(image), image, place, v)
        invariant forall x :: x in seen ==> x in old(seen) || DiffersAt(old(image), x, place, v)
        invariant Valid() && old(seen) <= seen
        invariant old(os.made) <= os.made && os.Quiet(old(os.made), os.made)
        decreases Dirs(image, place)[v].Keys
      {
        ok := os.Try();
        if !ok {
          return;
        }
        var dirs := Dirs(image, place);
        var name :| name in dirs[v];
        Put(WithDirs(image, place, dirs[v := dirs[v] - {name}]));
      }
      ok := os.Try();
      if !ok {
        return;
      }
      Put(WithDirs(image, place, Dirs(image, place) - {v}));
    }

    /** Creates a staging directory unless it is there. */
    method CreateStaging(v: Version) returns (ok: bool)
      requires Valid()
      modifies `image, `seen, os`made
      ensures DiffersAt(old(image), image, Staging, v)
      ensures forall x :: x in seen ==> x in old(seen) || x == image
      ensures Valid() && old(seen) <= seen
      ensures ok ==> v in image.staging
      ensures ok ==> image.staging[v] == if v in old(image).staging then old(image).staging[v] else map[]
      ensures old(os.made) <= os.made && (ok <==> os.Quiet(old(os.made), os.made))
    {
      ok := os.Try();
      if ok && v !in image.staging {
        Put(image.(staging := image.staging[v := map[]]));
      }
    }

    /** Takes the way to the file that the name stands for, and makes the directories that are missing on it. */
    method MakeParents(v: Version, name: Name) returns (ok: bool)
      requires Valid() && v in image.staging
      modifies `image, `seen, os`made
      ensures Valid() && old(seen) <= seen
      ensures OnTheWay(old(image), image, v, name)
      ensures forall x :: x in seen ==> x in old(seen) || OnTheWay(old(image), x, v, name)
      ensures ok ==> TripTo(old(image), v, name).clear && image == Opened(old(image), v, name)
      ensures old(os.made) <= os.made
      ensures os.Quiet(old(os.made), os.made) ==> (ok <==> TripTo(old(image), v, name).clear)
    {
      hide Travel, Next, Halfway, OnTheWay, WithFolders, WithFolder;
      ghost var start, trip, done: seq<Path> := image, TripTo(image, v, name), [];
      var leg := Departure(image, v, name);
      HalfwayStarts(image, v, name);
      while leg.rest != []
        invariant Valid() && old(seen) <= seen && Halfway(start, trip, image, leg, done)
        invariant forall x :: x in seen ==> x in old(seen) || OnTheWay(start, x, v, name)
        invariant old(os.made) <= os.made && os.Quiet(old(os.made), os.made)
        decreases leg.limit, |leg.rest|
      {
        HalfwayIsOnTheWay(start, image, leg, done, v, name);
        var move := Next(image, leg);
        if move.Stop? {
          HalfwayStopped(start, trip, image, leg, done);
          return false;
        }
        ok := os.Try();
        if !ok {
          return;
        }
        if move.Go? {
          HalfwayGone(start, trip, image, leg, done, move.on);
        } else {
          HalfwayMade(start, trip, image, leg, done, move.on);
          Put(WithFolder(image, move.on.at));
          done := done + [move.on.at];
        }
        leg := move.on;
        HalfwayIsOnTheWay(start, image, leg, done, v, name);
      }
      HalfwayIsOnTheWay(start, image, leg, done, v, name);
      ok := true;
    }

    /**
     Creates or empties the file that the name leads to from the staging directory, with the
     directories it needs, and writes its bytes one after another.
     */
    method WriteFile(v: Version, name: Name, bytes: Bytes) returns (ok: bool)
      requires Valid() && v in image.staging
      modifies `image, `seen, os`made
      ensures Valid() && old(seen) <= seen
      ensures ok ==> Writable(old(image), v, name) && image == Filed(old(image), v, name, bytes)
      ensures old(os.made) <= os.made
      ensures os.Quiet(old(os.made), os.made) ==> (ok <==> Writable(old(image), v, name))
      ensures Underway(old(image), image, v, name, bytes)
      ensures forall x :: x in seen ==> x in old(seen) || Underway(old(image), x, v, name, bytes)
    {
      hide TripTo, WithFolders, LeadsTo, Destination, Locate, Content, Stored, OnTheWay, Beginning;
      ghost var start := image;
      ok := MakeParents(v, name);
      if !ok {
        return;
      }
      FoldersKeepLinks(start, TripTo(start, v, name).made);
      LeadsAlike(start, image, v, name);
      var at := Destination(image, v, name);
      var inFolder := IsFolder(image, Parent(LeadsTo(image, v, name)));
      if name == [] || !name[|name| - 1].Normal? || !inFolder || Content(image, at) == Some(Folder) {
        return false;
      }
      ok := WriteBytes(at, bytes, v, name, start);
    }

    method WriteBytes(at: Location, bytes: Bytes, ghost v: Version, ghost name: Name, ghost start: Image)
      returns (ok: bool)
      requires Valid() && Writable(start, v, name) && image == Opened(start, v, name)
      requires at == Destination(start, v, name)
      modifies `image, `seen, os`made
      ensures Valid() && old(seen) <= seen
      ensures ok ==> image == Filed(start, v, name, bytes)
      ensures old(os.made) <= os.made && (ok <==> os.Quiet(old(os.made), os.made))
      ensures image == old(image) || Beginning(start, image, v, name, bytes)
      ensures forall x :: x in seen ==> x in old(seen) || Beginning(start, x, v, name, bytes)
    {
      hide Writable, Opened, Destination, Stored;
      ok := os.Try();
      if !ok {
        return;
      }
      var before := image;
      assert bytes[..0] == [];
      Put(Stored(before, at, File([])));
      var k := 0;
      while k < |bytes|
        invariant 0 <= k <= |bytes| && image == Stored(before, at, File(bytes[..k]))
        invariant image == Filed(start, v, name, bytes[..k])
        invariant Valid() && old(seen) <= seen
        invariant forall x :: x in seen ==> x in old(seen) || Beginning(start, x, v, name, bytes)
        invariant old(os.made) <= os.made && os.Quiet(old(os.made), os.made)
      {
        ok := os.Try();
        if !ok {
          return;
        }
        Put(Stored(before, at, File(bytes[..k + 1])));
        k := k + 1;
      }
      assert bytes[..|bytes|] == bytes;
      ok := true;
    }

    /** Moves a staged directory into place. Renaming onto a directory that is not empty fails. */
    method RenameStaged(v: Version) returns (ok: bool)
      requires Valid()
      requires v in image.staging
      modifies `image, `seen, os`made
      ensures !ok ==> image == old(image) && seen == old(seen)
      ensures ok ==> image == old(image).(staging := old(image).staging - {v},
                                          releases := old(image).releases[v := old(image).staging[v]])
      ensures ok ==> seen == old(seen) + {image}
      ensures Valid() && old(os.made) <= os.made
      ensures os.Quiet(old(os.made), os.made) ==>
                (ok <==> (v in old(image).releases ==> old(image).releases[v] == map[]))
    {
      ok := os.Try();
      if v in image.releases && image.releases[v] != map[] {
        ok := false;
      }
      if ok {
        Put(image.(staging := image.staging - {v}, releases := image.releases[v := image.staging[v]]));
      }
    }

    /** Replaces a symlink by way of a temporary name. A leftover one that dangles makes this fail. */
    method ReplaceSymlink(slot: Slot, v: Version) returns (ok: bool)
      requires Valid()
      modifies `image, `seen, os`made
      ensures ok ==> image == Renamed(WithTmp(old(image), slot, To(v)), slot)
      ensures !ok ==> DiffersInTmp(old(image), image, slot)
      ensures forall x :: x in seen ==> x in old(seen) || x == image || DiffersInTmp(old(image), x, slot)
      ensures Valid() && old(seen) <= seen && old(os.made) <= os.made
      ensures os.Quiet(old(os.made), os.made) ==> (ok <==> TmpFree(old(image), slot))
    {
      ok := os.Try();
      var found := ok && Leads(image, TmpOf(image, slot));
      if found {
        ok := os.Try();
        if !ok {
          return;
        }
        Put(WithTmp(image, slot, NoLink));
      }
      if TmpOf(image, slot) != NoLink {
        return false;
      }
      ok := os.Try();
      if !ok {
        return;
      }
      Put(WithTmp(image, slot, To(v)));
      ok := os.Try();
      if !ok {
        return;
      }
      Put(Renamed(image, slot));
    }

    /** The version behind `current`, if it names one. */
    method InstalledVersion() returns (res: Result<Option<Version>, UpdateError>)
      modifies os`made
      ensures res.Ok? ==> res.value == VersionOf(image.current)
      ensures res.Err? ==> res.error == Io
      ensures old(os.made) <= os.made && (res.Ok? <==> os.Quiet(old(os.made), os.made))
    {
      var ok := os.Try();
      res := if ok then Ok(VersionOf(image.current)) else Err(Io);
    }
  }

  function VersionOf(t: Target): Option<Version> {
    if t.To? then Some(t.version) else None
  }

  function InstalledOrNone(img: Image): Version {
    if img.current.To? then img.current.version else UNINSTALLED
  }
}
