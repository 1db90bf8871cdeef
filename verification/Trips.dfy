/** What the way to a file makes, and what that leaves alone. */
module Trips {
  import opened Collections
  import opened InstallRoots
  import opened Manifests
  import opened Paths

  lemma {:induction false} FoldersFromFront(img: Image, p: Path, made: seq<Path>)
    ensures WithFolders(WithFolder(img, p), made) == WithFolders(img, [p] + made)
  {
    var all := [p] + made;
    if made == [] {
      assert all == [] + [p];
      OneMoreFolder(img, [], p);
    } else {
      var n := |made| - 1;
      FoldersFromFront(img, p, made[..n]);
      assert all[..|all| - 1] == [p] + made[..n] && all[|all| - 1] == made[n];
    }
  }

  lemma FoldersUpTo(img: Image, made: seq<Path>, i: nat)
    requires i < |made|
    ensures WithFolders(img, made[..i + 1]) == WithFolder(WithFolders(img, made[..i]), made[i])
  {
    assert made[..i + 1] == made[..i] + [made[i]];
    OneMoreFolder(img, made[..i], made[i]);
  }

  /** Nothing is where a directory can be made, and the directory above is there. */
  predicate CanMake(img: Image, p: Path) {
    var at := Locate(img, p);
    Content(img, at).None? && (at.InDir? ==> at.version in Dirs(img, at.place))
  }

  lemma InFolder(img: Image, at: Path, n: string)
    requires IsFolder(img, at)
    ensures var l := Locate(img, at + [n]); l.InDir? ==> l.version in Dirs(img, l.place)
  {
    var p, k, l := at + [n], |img.root| + 1, Locate(img, at + [n]);
    if l.InDir? {
      assert PlacePath(img, l.place) <= at && |at| > k && at[k] == p[k] == l.version;
      assert at[|img.root|] == p[|img.root|];
      assert Locate(img, at).place == l.place && Locate(img, at).version == l.version;
    }
  }

  lemma MakeCanMake(img: Image, leg: Leg)
    requires leg.rest != [] && Next(img, leg).Make?
    ensures CanMake(img, Next(img, leg).on.at)
  {
    InFolder(img, leg.at, leg.rest[0].name);
  }

  /** Each directory on the way was missing when it was made. */
  lemma {:induction false} EachIsMade(img: Image, leg: Leg, i: nat)
    requires i < |Travel(img, leg).made|
    ensures CanMake(WithFolders(img, Travel(img, leg).made[..i]), Travel(img, leg).made[i])
    decreases leg.limit, |leg.rest|
  {
    match Next(img, leg)
    case Go(on) =>
      TravelGone(img, leg, on);
      EachIsMade(img, on, i);
    case Make(on) =>
      TravelMade(img, leg, on);
      var made, onward := Travel(img, leg).made, Travel(WithFolder(img, on.at), on).made;
      if i == 0 {
        MakeCanMake(img, leg);
        assert made[..0] == [];
      } else {
        EachIsMade(WithFolder(img, on.at), on, i - 1);
        assert made[..i] == [on.at] + onward[..i - 1];
        FoldersFromFront(img, on.at, onward[..i - 1]);
      }
  }

  lemma FolderAppears(img: Image, p: Path)
    requires CanMake(img, p)
    ensures Content(WithFolder(img, p), Locate(img, p)) == Some(Folder)
  {
    ContentAfter(img, Locate(img, p), Folder);
  }

  lemma FolderInside(img: Image, v: Version, p: Path)
    requires v in img.staging && DirPath(img, Staging, v) <= p && CanMake(img, p)
    ensures DirPath(img, Staging, v) < p
    ensures var path := p[|img.root| + 2..];
      path !in img.staging[v] && WithFolder(img, p) == img.(staging := img.staging[v := img.staging[v][path := Folder]])
  {
    InsideLocation(img, v, p);
  }

  lemma OneFolderInside(base: Image, img: Image, v: Version, p: Path)
    requires DiffersAt(base, img, Staging, v) && v in img.staging
    requires DirPath(img, Staging, v) <= p && CanMake(img, p)
    ensures DiffersAt(base, WithFolder(img, p), Staging, v) && v in WithFolder(img, p).staging
  {
    FolderInside(img, v, p);
  }

  /** Directories made inside leave everything else alone. */
  lemma {:induction false} FoldersInside(img: Image, v: Version, leg: Leg, i: nat)
    requires v in img.staging && i <= |Travel(img, leg).made|
    requires forall p :: p in Travel(img, leg).made ==> DirPath(img, Staging, v) <= p
    ensures DiffersAt(img, WithFolders(img, Travel(img, leg).made[..i]), Staging, v)
    ensures v in WithFolders(img, Travel(img, leg).made[..i]).staging
  {
    if i > 0 {
      var made := Travel(img, leg).made;
      var before := WithFolders(img, made[..i - 1]);
      FoldersInside(img, v, leg, i - 1);
      FoldersUpTo(img, made, i - 1);
      EachIsMade(img, leg, i - 1);
      assert made[i - 1] in made;
      FoldersKeepLinks(img, made[..i - 1]);
      OneFolderInside(img, before, v, made[i - 1]);
    }
  }

  lemma OneFolderOutside(base: Image, img: Image, v: Version, p: Path)
    requires LinksKept(base, img) && CanMake(img, p) && !(DirPath(base, Staging, v) <= p)
    ensures !DiffersAt(base, img, Staging, v) || !DiffersAt(base, WithFolder(img, p), Staging, v)
  {
    FolderAppears(img, p);
    InsideLocation(base, v, p);
    if DiffersAt(base, img, Staging, v) && DiffersAt(base, WithFolder(img, p), Staging, v) {
      SameContentOutside(base, img, Locate(img, p), v);
      SameContentOutside(base, WithFolder(img, p), Locate(img, p), v);
    }
  }

  /** A directory made outside is a difference, right then or before. */
  lemma FolderOutside(base: Image, img: Image, v: Version, leg: Leg, i: nat)
    requires i < |Travel(img, leg).made| && LinksKept(base, img)
    requires !(DirPath(img, Staging, v) <= Travel(img, leg).made[i])
    ensures !DiffersAt(base, WithFolders(img, Travel(img, leg).made[..i]), Staging, v)
            || !DiffersAt(base, WithFolders(img, Travel(img, leg).made[..i + 1]), Staging, v)
  {
    var made := Travel(img, leg).made;
    FoldersKeepLinks(img, made[..i]);
    FoldersUpTo(img, made, i);
    EachIsMade(img, leg, i);
    OneFolderOutside(base, WithFolders(img, made[..i]), v, made[i]);
  }

  /** A file can be put where a name leads that can be written. */
  lemma WritableHasPlace(img: Image, v: Version, name: Name)
    requires Writable(img, v, name)
    ensures var at := Destination(img, v, name); at.InDir? ==> at.version in Dirs(Opened(img, v, name), at.place)
  {
    var p := LeadsTo(img, v, name);
    FoldersKeepLinks(img, TripTo(img, v, name).made);
    if p != [] {
      assert Parent(p) + [p[|p| - 1]] == p;
      InFolder(Opened(img, v, name), Parent(p), p[|p| - 1]);
    }
  }

  /** The file is put into the staging directory, which has it in addition. */
  lemma FiledInside(img: Image, v: Version, name: Name, bytes: Bytes)
    requires v in img.staging && Writable(img, v, name) && StaysInside(img, v, name) && MakesInside(img, v, name)
    ensures var open, after := Opened(img, v, name), Filed(img, v, name, bytes);
      && v in open.staging && DiffersAt(img, open, Staging, v)
      && after == open.(staging := open.staging[v := open.staging[v][Inner(img, v, name) := File(bytes)]])
      && DiffersAt(img, after, Staging, v)
  {
    var trip := TripTo(img, v, name);
    FoldersInside(img, v, Departure(img, v, name), |trip.made|);
    assert trip.made[..|trip.made|] == trip.made;
    InsideLocation(img, v, LeadsTo(img, v, name));
  }

  /** A guarded name makes directories inside only, whatever is there and whatever the links are. */
  lemma {:induction false} GuardedMakesInside(img: Image, v: Version, leg: Leg)
    requires Guarded(leg.rest) && DirPath(img, Staging, v) <= leg.at
    ensures forall p :: p in Travel(img, leg).made ==> DirPath(img, Staging, v) <= p
    decreases |leg.rest|
  {
    if leg.rest != [] && !Next(img, leg).Stop? {
      GuardedGoesOn(img, v, leg);
      var on := Next(img, leg).on;
      if Next(img, leg).Go? {
        TravelGone(img, leg, on);
        GuardedMakesInside(img, v, on);
      } else {
        TravelMade(img, leg, on);
        StoredKeepsLinks(img, Locate(img, on.at), Folder);
        GuardedMakesInside(WithFolder(img, on.at), v, on);
      }
    }
  }

  lemma GuardedGoesOn(img: Image, v: Version, leg: Leg)
    requires Guarded(leg.rest) && DirPath(img, Staging, v) <= leg.at && leg.rest != [] && !Next(img, leg).Stop?
    ensures var on := Next(img, leg).on; Guarded(on.rest) && DirPath(img, Staging, v) <= on.at && |on.rest| < |leg.rest|
  {
    assert leg.rest[0] in leg.rest && forall c :: c in leg.rest[1..] ==> c in leg.rest;
    if leg.rest[0].Normal? {
      var p := leg.at + [leg.rest[0].name];
      assert PlacePath(img, Staging) <= DirPath(img, Staging, v) <= p;
      if p in Links(img) {
        NoLinkInTrees(img, Staging, p);
      }
    }
  }

  lemma TravelUp(img: Image, at: Path, rest: Name, own: nat, limit: nat)
    requires IsFolder(img, at)
    ensures Travel(img, Leg(at, [ParentDir] + rest, own, limit)) ==
            Travel(img, Leg(Parent(at), rest, Least(own, |rest|), limit))
  {
    assert ([ParentDir] + rest)[1..] == rest;
    TravelGone(img, Leg(at, [ParentDir] + rest, own, limit), Leg(Parent(at), rest, Least(own, |rest|), limit));
  }

  lemma TravelDown(img: Image, at: Path, n: string, rest: Name, own: nat, limit: nat)
    requires IsFolder(img, at) && at + [n] !in Links(img)
    requires Content(img, Locate(img, at + [n])).Some? || rest == []
    ensures Travel(img, Leg(at, [Normal(n)] + rest, own, limit)) ==
            Travel(img, Leg(at + [n], rest, Least(own, |rest|), limit))
  {
    assert ([Normal(n)] + rest)[1..] == rest;
    TravelGone(img, Leg(at, [Normal(n)] + rest, own, limit), Leg(at + [n], rest, Least(own, |rest|), limit));
  }
}
