/** Artifact names that leave the staging directory (crates/trace-updater/src/apply.rs, write_artifact). */
module ArtifactNames {
  import opened Collections
  import opened InstallRoots
  import opened Manifests
  import opened Paths
  import opened ReleaseStaging
  import opened Trips

  /** A name that leads from the staging directory of one release into another release. */
  function AcrossName(live: Version): Name {
    [ParentDir] + ([ParentDir] + ([Normal("releases")] + ([Normal(live)] + [Normal("trace-edge")])))
  }

  lemma NoLinkAcross(img: Image, live: Version)
    ensures PlacePath(img, Releases) !in Links(img) && DirPath(img, Releases, live) !in Links(img)
    ensures DirPath(img, Releases, live) + ["trace-edge"] !in Links(img)
  {
    var releases, dir := PlacePath(img, Releases), DirPath(img, Releases, live);
    assert releases <= releases && releases <= dir && releases <= dir + ["trace-edge"];
    forall l | l in Links(img)
      ensures !(releases <= l)
    {
      NoLinkInTrees(img, Releases, l);
    }
  }

  lemma AcrossWalk(img: Image, v: Version, live: Version)
    ensures LeadsTo(img, v, AcrossName(live)) == DirPath(img, Releases, live) + ["trace-edge"]
  {
    var links, at, last := Links(img), DirPath(img, Staging, v), [Normal("trace-edge")];
    NoLinkAcross(img, live);
    assert Parent(at) == PlacePath(img, Staging) && Parent(Parent(at)) == img.root;
    WalkUp(links, at, AcrossName(live)[1..], MAX_LINKS);
    WalkUp(links, Parent(at), [Normal("releases")] + ([Normal(live)] + last), MAX_LINKS);
    WalkDown(links, img.root, "releases", [Normal(live)] + last, MAX_LINKS);
    WalkDown(links, PlacePath(img, Releases), live, last, MAX_LINKS);
    assert last + [] == last;
    WalkDown(links, DirPath(img, Releases, live), "trace-edge", [], MAX_LINKS);
  }

  lemma AcrossIsClear(img: Image, v: Version, live: Version)
    requires v in img.staging && live in img.releases
    ensures TripTo(img, v, AcrossName(live)) == Trip([], true)
  {
    var at, last := DirPath(img, Staging, v), [Normal("trace-edge")];
    var releases, dir := PlacePath(img, Releases), DirPath(img, Releases, live);
    NoLinkAcross(img, live);
    InsideLocation(img, v, at);
    assert Parent(at) == PlacePath(img, Staging) && Parent(Parent(at)) == img.root;
    TravelUp(img, at, [ParentDir] + ([Normal("releases")] + ([Normal(live)] + last)), 5, MAX_LINKS);
    TravelUp(img, Parent(at), [Normal("releases")] + ([Normal(live)] + last), 4, MAX_LINKS);
    TravelDown(img, img.root, "releases", [Normal(live)] + last, 3, MAX_LINKS);
    ReleaseLocation(img, live);
    TravelDown(img, releases, live, last, 2, MAX_LINKS);
    assert last + [] == last;
    TravelDown(img, dir, "trace-edge", [], 1, MAX_LINKS);
  }

  lemma ReleaseLocation(img: Image, live: Version)
    ensures Locate(img, DirPath(img, Releases, live)) == VersionDir(Releases, live)
    ensures Locate(img, DirPath(img, Releases, live) + ["trace-edge"]) == InDir(Releases, live, ["trace-edge"])
  {
    var releases, dir, file := PlacePath(img, Releases), DirPath(img, Releases, live),
      DirPath(img, Releases, live) + ["trace-edge"];
    var n := |img.root|;
    assert releases <= dir && releases <= file && dir[n + 1] == file[n + 1] == live && file[n + 2..] == ["trace-edge"];
    assert dir[n] == file[n] == "releases" && PlacePath(img, Staging)[n] == "staging";
  }

  lemma AcrossDestination(img: Image, v: Version, live: Version)
    ensures !StaysInside(img, v, AcrossName(live)) && !Guarded(AcrossName(live))
    ensures Destination(img, v, AcrossName(live)) == InDir(Releases, live, ["trace-edge"])
  {
    AcrossWalk(img, v, live);
    ReleaseLocation(img, live);
    InsideLocation(img, v, LeadsTo(img, v, AcrossName(live)));
    assert AcrossName(live)[0] in AcrossName(live);
  }

  lemma AcrossIsWritable(img: Image, v: Version, live: Version)
    requires v in img.staging && live in img.releases && HasFile(img.releases[live], ["trace-edge"])
    ensures Writable(img, v, AcrossName(live)) && Opened(img, v, AcrossName(live)) == img
  {
    AcrossIsClear(img, v, live);
    AcrossDestination(img, v, live);
    AcrossWalk(img, v, live);
    ReleaseLocation(img, live);
    assert Parent(LeadsTo(img, v, AcrossName(live))) == DirPath(img, Releases, live);
    assert AcrossName(live)[4] == Normal("trace-edge");
  }

  /**
   The limit of the guarantee: nothing checks artifact names, and this one has its verified bytes written
   over a file of the release that is live, byte by byte, before `current` has moved.
   */
  lemma NameReachesLiveRelease(plan: Plan, start: Image, live: Version, n: nat) returns (x: Image)
    requires start.current == To(live) && plan.version != live
    requires live in start.releases && HasFile(start.releases[live], ["trace-edge"])
    requires Arrives(plan, 0) && plan.artifacts[0].name == AcrossName(live) && n <= |plan.fetch(0).value|
    ensures Partway(plan, Prepared(plan, start), 0, x) && !Contained(plan, start)
    ensures x.current == To(live)
    ensures x.releases == start.releases[live := start.releases[live][["trace-edge"] := File(plan.fetch(0).value[..n])]]
  {
    var img, bytes, name := Prepared(plan, start), plan.fetch(0).value, AcrossName(live);
    AcrossIsWritable(img, plan.version, live);
    AcrossDestination(img, plan.version, live);
    assert Reaches(plan, img, 0) && !KeepsInside(plan, img, 0);
    x := Filed(img, plan.version, name, bytes[..n]);
    assert Beginning(img, x, plan.version, name, bytes);
  }

  /** A name that comes back to the staging directory by way of a leftover temporary link. */
  function RoundTripName(link: string, v: Version): Name {
    [ParentDir] + ([ParentDir] + ([Normal(link)] + BackName(v)))
  }

  function BackName(v: Version): Name {
    [ParentDir] + ([Normal("staging")] + ([Normal(v)] + [Normal("f")]))
  }

  lemma BackWalk(links: map<Path, Name>, at: Path, v: Version, limit: nat)
    requires at != []
    requires var p := Parent(at) + ["staging"]; p !in links && p + [v] !in links && p + [v] + ["f"] !in links
    ensures Walk(links, at, BackName(v), limit) == Some(Parent(at) + ["staging"] + [v] + ["f"])
  {
    var last := [Normal("f")];
    WalkUp(links, at, [Normal("staging")] + ([Normal(v)] + last), limit);
    WalkDown(links, Parent(at), "staging", [Normal(v)] + last, limit);
    WalkDown(links, Parent(at) + ["staging"], v, last, limit);
    assert last + [] == last;
    WalkDown(links, Parent(at) + ["staging"] + [v], "f", [], limit);
  }

  lemma NoLinkBelow(img: Image, place: Place, v: Version)
    ensures forall l :: l in Links(img) ==> !(l <= DirPath(img, place, v)) && !(PlacePath(img, place) <= l)
  {
    forall l | l in Links(img)
      ensures !(l <= DirPath(img, place, v)) && !(PlacePath(img, place) <= l)
    {
      NoLinkInTrees(img, place, l);
    }
  }

  lemma RoundTripWalk(img: Image, v: Version, w: Version, link: string)
    requires img.root + [link] in Links(img) && Links(img)[img.root + [link]] == Absolute(DirPath(img, Releases, w))
    ensures LeadsTo(img, v, RoundTripName(link, v)) == PlacePath(img, Releases) + ["staging"] + [v] + ["f"]
  {
    var links, at, releases := Links(img), DirPath(img, Staging, v), PlacePath(img, Releases);
    assert Parent(at) == PlacePath(img, Staging) && Parent(Parent(at)) == img.root;
    WalkUp(links, at, [ParentDir] + ([Normal(link)] + BackName(v)), MAX_LINKS);
    WalkUp(links, Parent(at), [Normal(link)] + BackName(v), MAX_LINKS);
    WalkLink(links, img.root, link, BackName(v), MAX_LINKS);
    NoLinkBelow(img, Releases, w);
    AbsoluteLeads(links, img.root, DirPath(img, Releases, w), BackName(v), MAX_LINKS - 1);
    assert Parent(DirPath(img, Releases, w)) == releases;
    assert releases <= releases + ["staging"] <= releases + ["staging"] + [v] <= releases + ["staging"] + [v] + ["f"];
    BackWalk(links, DirPath(img, Releases, w), v, MAX_LINKS - 1);
  }

  /** Without links the same name comes back to where it started. */
  lemma RoundTripWithoutLinks(img: Image, v: Version, link: string)
    ensures Walk(map[], DirPath(img, Staging, v), RoundTripName(link, v), MAX_LINKS) ==
            Some(DirPath(img, Staging, v) + ["f"])
  {
    var at, none: map<Path, Name> := DirPath(img, Staging, v), map[];
    assert Parent(at) == PlacePath(img, Staging) && Parent(Parent(at)) == img.root;
    WalkUp(none, at, [ParentDir] + ([Normal(link)] + BackName(v)), MAX_LINKS);
    WalkUp(none, Parent(at), [Normal(link)] + BackName(v), MAX_LINKS);
    WalkDown(none, img.root, link, BackName(v), MAX_LINKS);
    assert Parent(img.root + [link]) == img.root;
    BackWalk(none, img.root + [link], v, MAX_LINKS);
  }

  /**
   Links count: through a temporary link to a release that some process left behind, such a name leads to
   a file among the releases.
   */
  lemma LeftoverLinkLeadsAway(img: Image, v: Version, w: Version, link: string)
    requires img.root + [link] in Links(img) && Links(img)[img.root + [link]] == Absolute(DirPath(img, Releases, w))
    ensures !StaysInside(img, v, RoundTripName(link, v))
    ensures Destination(img, v, RoundTripName(link, v)) == InDir(Releases, "staging", [v, "f"])
  {
    RoundTripWalk(img, v, w, link);
    var p, n := PlacePath(img, Releases) + ["staging"] + [v] + ["f"], |img.root|;
    assert PlacePath(img, Releases) <= p && p[n + 1] == "staging" && p[n + 2..] == [v, "f"];
    assert p[n] == "releases" && PlacePath(img, Staging)[n] == "staging" == DirPath(img, Staging, v)[n];
  }

  /** A name may leave and yet do no harm: no file can be written where this one leads. */
  lemma ParentIsRefused(plan: Plan, start: Image)
    requires forall a :: a in plan.artifacts ==> a.name == [ParentDir]
    ensures !StaysInside(start, plan.version, [ParentDir]) && Contained(plan, start)
  {
    WalkUp(Links(start), DirPath(start, Staging, plan.version), [], MAX_LINKS);
    assert [ParentDir] + [] == [ParentDir];
    forall k: nat | Reaches(plan, Prepared(plan, start), k)
      ensures KeepsInside(plan, Prepared(plan, start), k)
    {
      assert plan.artifacts[k] in plan.artifacts;
      ParentMakesNothing(After(plan, Prepared(plan, start), k), plan.version);
    }
  }

  lemma ParentMakesNothing(img: Image, v: Version)
    ensures MakesInside(img, v, [ParentDir]) && !Writable(img, v, [ParentDir])
  {
    var at := DirPath(img, Staging, v);
    assert [ParentDir] + [] == [ParentDir];
    if IsFolder(img, at) {
      TravelUp(img, at, [], 1, MAX_LINKS);
    }
  }

  /** A plain file name can be written unless a directory is in the place. */
  lemma PlainNameGoes(img: Image, v: Version, file: string, bytes: Bytes)
    requires v in img.staging && ([file] in img.staging[v] ==> img.staging[v][[file]].File?)
    ensures Writable(img, v, [Normal(file)])
    ensures Filed(img, v, [Normal(file)], bytes) ==
            img.(staging := img.staging[v := img.staging[v][[file] := File(bytes)]])
  {
    var name, at := [Normal(file)], DirPath(img, Staging, v);
    GuardedStaysInside(img, v, name);
    assert name[1..] == [] && Normals(name) == [file];
    InsideLocation(img, v, at);
    InsideLocation(img, v, at + [file]);
    forall l | l in Links(img)
      ensures l != at + [file]
    {
      NoLinkInTrees(img, Staging, l);
      assert PlacePath(img, Staging) <= at + [file];
    }
    assert [Normal(file)] + [] == name;
    TravelDown(img, at, file, [], 1, MAX_LINKS);
    assert LeadsTo(img, v, name) == at + [file] && Parent(at + [file]) == at;
    assert (at + [file])[|img.root| + 2..] == [file];
  }
}
