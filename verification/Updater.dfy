/**
 Applying an update (crates/trace-updater/src/apply.rs): activation, the health gate and a whole attempt,
 with everything the disk passes through on the way.
 */
module Updater {
  import opened Collections
  import opened InstallRoots
  import opened Manifests
  import opened Paths
  import opened ReleaseStaging

  // ------------------------------------------------------------ activation

  /** The two images agree on both links and on every file but those of the directories of `v`. */
  ghost predicate Outside(a: Image, b: Image, v: Version) {
    && LinksKept(a, b)
    && a.staging - {v} == b.staging - {v}
    && a.releases - {v} == b.releases - {v}
    && a.elsewhere == b.elsewhere
  }

  /**
   The links at any moment of an attempt to install `v`: as they were, or with `previous` on the
   outgoing release already, or with `current` on `v`, whose directory is there.
   */
  ghost predicate LinkSafe(start: Image, img: Image, v: Version) {
    && img.root == start.root && img.links == start.links && img.process == start.process
    && (img.previous == start.previous || (start.current.To? && img.previous == start.current))
    && (img.current == start.current
        || (img.current == To(v) && v in img.releases && (start.current.To? ==> img.previous == start.current)))
  }

  /** Only the links have been touched, and safely. */
  ghost predicate Repointed(start: Image, img: Image, v: Version) {
    && LinkSafe(start, img, v)
    && img.staging == start.staging && img.releases == start.releases && img.elsewhere == start.elsewhere
  }

  /** The release directory holds just what the manifest lists, and what was left over if that was misread. */
  ghost predicate Complete(plan: Plan, start: Image, img: Image) {
    && plan.version in img.releases
    && Serves(plan.sha, Entries(start, plan.version, plan.artifacts), Leftover(start, plan.version, plan.misread),
              img.releases[plan.version])
  }

  /**
   What an attempt to install a release may leave behind at any moment when every name it gets to stays
   inside: no file outside the directories of the release has been touched, and `current` names it only
   once it is complete.
   */
  ghost predicate Safe(plan: Plan, start: Image, img: Image) {
    && LinkSafe(start, img, plan.version)
    && img.staging - {plan.version} == start.staging - {plan.version}
    && img.releases - {plan.version} == start.releases - {plan.version}
    && img.elsewhere == start.elsewhere
    && (img.current == start.current || Complete(plan, start, img))
  }

  /** The links are safe whatever the names are, and everything is when they stay inside. */
  ghost predicate Sheltered(plan: Plan, start: Image, img: Image) {
    LinkSafe(start, img, plan.version) && (Contained(plan, start) ==> Safe(plan, start, img))
  }

  lemma StagedIsSheltered(plan: Plan, start: Image, img: Image)
    requires Staged(plan, start, img)
    ensures Sheltered(plan, start, img)
  {
  }

  lemma PromotedIsSheltered(plan: Plan, start: Image, mid: Image, img: Image)
    requires Staged(plan, start, mid) && Outside(mid, img, plan.version)
    ensures Sheltered(plan, start, img)
  {
  }

  lemma RepointedIsSheltered(plan: Plan, start: Image, mid: Image, last: Image, img: Image)
    requires Staged(plan, start, mid) && Outside(mid, last, plan.version) && Repointed(last, img, plan.version)
    requires Contained(plan, start) ==> Complete(plan, start, last)
    ensures Sheltered(plan, start, img)
  {
  }

  lemma TmpIsSheltered(plan: Plan, start: Image, img: Image, next: Image)
    requires Sheltered(plan, start, img) && DiffersInTmp(img, next, Current)
    ensures Sheltered(plan, start, next)
  {
  }

  lemma RestoredIsSheltered(plan: Plan, start: Image, img: Image, installed: Version)
    requires Sheltered(plan, start, img) && start.current == To(installed)
    ensures Sheltered(plan, start, Renamed(WithTmp(img, Current, To(installed)), Current))
  {
  }

  /** The staged directory in its place among the releases, instead of any older copy. */
  function Promoted(img: Image, v: Version): Image
    requires v in img.staging
  {
    img.(staging := img.staging - {v}, releases := img.releases[v := img.staging[v]])
  }

  lemma PromotedAlike(a: Image, b: Image, v: Version)
    requires v in a.staging && DiffersAt(a, b, Releases, v)
    ensures Promoted(a, v) == Promoted(b, v)
  {
    var dir := a.staging[v];
    assert a.releases[v := dir] - {v} == a.releases - {v} && b.releases[v := dir] - {v} == b.releases - {v};
    AgreeBut(a.releases[v := dir], b.releases[v := dir], v);
  }

  /** Moves the staged directory to its place among the releases, deleting an older copy first. */
  method Promote(disk: Disk, v: Version) returns (ok: bool)
    requires disk.Valid() && v in disk.image.staging
    modifies disk, disk.os
    ensures disk.Valid() && old(disk.seen) <= disk.seen
    ensures Outside(old(disk.image), disk.image, v)
    ensures forall x :: x in disk.seen ==> x in old(disk.seen) || Outside(old(disk.image), x, v)
    ensures ok ==> v in disk.image.releases && disk.image.releases[v] == old(disk.image).staging[v]
    ensures old(disk.os.made) <= disk.os.made
    ensures disk.os.Quiet(old(disk.os.made), disk.os.made) ==> ok && disk.image == Promoted(old(disk.image), v)
  {
    var found, _ := disk.Exists(Releases, v);
    if found {
      var removed := disk.RemoveTree(Releases, v);
      if !removed {
        return false;
      }
    }
    ghost var mid := disk.image;
    ok := disk.RenameStaged(v);
    if ok {
      PromotedAlike(old(disk.image), mid, v);
    }
  }

  /** The temporary names are free for the links that activation prepares: `previous` if there is a release to keep. */
  predicate TmpsFree(img: Image) {
    if !img.current.To? then TmpFree(img, Current)
    else TmpFree(img, Previous) && TmpFree(Renamed(WithTmp(img, Previous, img.current), Previous), Current)
  }

  /** Keeps the outgoing release behind `previous`, then points `current` at the new one. */
  method Repoint(disk: Disk, v: Version, installed: Version) returns (res: Result<Option<Version>, UpdateError>)
    requires disk.Valid() && v in disk.image.releases
    requires disk.image.current.To? ==> disk.image.current.version == installed
    modifies disk, disk.os
    ensures disk.Valid() && old(disk.seen) <= disk.seen
    ensures forall x :: x in disk.seen ==> x in old(disk.seen) || Repointed(old(disk.image), x, v)
    ensures Repointed(old(disk.image), disk.image, v)
    ensures res.Ok? ==> disk.image.current == To(v) && res.value == VersionOf(old(disk.image).current)
    ensures res.Ok? && res.value.Some? ==> disk.image.previous == old(disk.image).current
    ensures res.Err? ==> res.error == Io && disk.image.current == old(disk.image).current
    ensures old(disk.os.made) <= disk.os.made
    ensures disk.os.Quiet(old(disk.os.made), disk.os.made) ==> (res.Ok? <==> TmpsFree(old(disk.image)))
    ensures res.Ok? ==> disk.image.currentTmp == NoLink
  {
    var before := disk.InstalledVersion();
    if before.Err? {
      return Err(before.error);
    }
    if before.value.Some? {
      var kept := disk.ReplaceSymlink(Previous, installed);
      if !kept {
        return Err(Io);
      }
    }
    var pointed := disk.ReplaceSymlink(Current, v);
    if !pointed {
      return Err(Io);
    }
    res := Ok(if before.value.Some? then Some(installed) else None);
  }

  /** Moves the staged release into place and points `current` at it; tells what it replaced. */
  method Activate(disk: Disk, v: Version, installed: Version, ghost plan: Plan, ghost start: Image)
    returns (res: Result<Option<Version>, UpdateError>)
    requires disk.Valid() && v == plan.version && InProgress(plan, start, disk.image, |plan.artifacts|)
    requires Staged(plan, start, disk.image)
    requires disk.image.current.To? ==> disk.image.current.version == installed
    modifies disk, disk.os
    ensures disk.Valid() && old(disk.seen) <= disk.seen
    ensures forall x :: x in disk.seen ==> x in old(disk.seen) || Sheltered(plan, start, x)
    ensures Sheltered(plan, start, disk.image)
    ensures res.Ok? ==> disk.image.current == To(v) && res.value == VersionOf(start.current)
    ensures res.Ok? && res.value.Some? ==> disk.image.previous == start.current
    ensures res.Ok? && Contained(plan, start) ==> Complete(plan, start, disk.image)
    ensures res.Err? ==> res.error == Io && disk.image.current == start.current
    ensures old(disk.os.made) <= disk.os.made
    ensures disk.os.Quiet(old(disk.os.made), disk.os.made) ==>
              (res.Ok? <==> TmpsFree(Promoted(old(disk.image), v)))
    ensures res.Ok? ==> disk.image.currentTmp == NoLink
  {
    ghost var mid := disk.image;
    var moved := Promote(disk, v);
    ghost var last := disk.image;
    forall x | Outside(mid, x, v)
      ensures Sheltered(plan, start, x)
    {
      PromotedIsSheltered(plan, start, mid, x);
    }
    if !moved {
      return Err(Io);
    }
    assert plan.artifacts[..|plan.artifacts|] == plan.artifacts;
    res := Repoint(disk, v, installed);
    forall x | Repointed(last, x, v)
      ensures Sheltered(plan, start, x)
    {
      RepointedIsSheltered(plan, start, mid, last, x);
    }
  }

  // ------------------------------------------------------------ a whole attempt

  datatype UpdateOutcome =
    | Installed(version: Version, replaced: Option<Version>)
    | AlreadyLive(version: Version)
    | HeldBack
    | RolledBack(failed: Version, restored: Version)

  /** What is to be staged for a manifest. */
  function PlanFor(sha: Digester, m: Manifest, fetch: nat -> Option<Bytes>, misread: bool): Plan {
    Plan(sha, m.version, m.artifacts, fetch, misread)
  }

  /** What an attempt with manifest `m` may have made of `start`, wherever it was cut off. */
  ghost predicate Attempt(semver: Semver, sha: Digester, m: Manifest, cohort: string, fetch: nat -> Option<Bytes>,
                          misread: bool, start: Image, img: Image) {
    img == start
    || (Checked(semver, m).Pass? && Decide(semver, m, InstalledOrNone(start), cohort) == Ok(Decision.Install(m.version))
        && Sheltered(PlanFor(sha, m, fetch, misread), start, img))
  }

  /** The first thing, other than an I/O error, that keeps a release from being installed. */
  function Obstacle(semver: Semver, sha: Digester, m: Manifest, cohort: string, fetch: nat -> Option<Bytes>,
                    installed: Version)
    : Option<UpdateError>
  {
    var decision := Decide(semver, m, installed, cohort);
    if Checked(semver, m).Fail? then Some(Checked(semver, m).error)
    else if decision.Err? then Some(decision.error)
    else if decision.value.Install? then Refusal(sha, m.artifacts, fetch, 0)
    else None
  }

  /** What the answer of an attempt to install a release says about the disk. */
  ghost predicate InstallEnding(plan: Plan, healthy: bool, start: Image, img: Image,
                                res: Result<UpdateOutcome, UpdateError>) {
    var refusal := Refusal(plan.sha, plan.artifacts, plan.fetch, 0);
    match res
    case Ok(Installed(w, replaced)) =>
      && w == plan.version && healthy && refusal == None && img.current == To(w)
      && replaced == VersionOf(start.current)
      && (replaced.Some? ==> img.previous == start.current)
      && (Contained(plan, start) ==> Complete(plan, start, img))
    case Ok(RolledBack(w, restored)) =>
      && w == plan.version && !healthy && refusal == None
      && start.current == To(restored) && img.current == start.current
    case Ok(_) => false
    case Err(RollbackImpossible(w)) =>
      && w == plan.version && !healthy && refusal == None && !start.current.To? && img.current == To(w)
      && (Contained(plan, start) ==> Complete(plan, start, img))
    case Err(Io) => true
    case Err(e) =>
      refusal == Some(e) && img.current == start.current && img.previous == start.previous
  }

  /** What the answer of an update says about the disk. */
  ghost predicate Ending(semver: Semver, sha: Digester, m: Manifest, cohort: string, fetch: nat -> Option<Bytes>,
                         misread: bool, healthy: bool, start: Image, img: Image,
                         res: Result<UpdateOutcome, UpdateError>) {
    var obstacle := Obstacle(semver, sha, m, cohort, fetch, InstalledOrNone(start));
    match res
    case Ok(AlreadyLive(v)) =>
      && obstacle == None && img == start && m.version == v && v == InstalledOrNone(start)
      && (m.cohorts == [] || cohort in m.cohorts)
    case Ok(HeldBack) =>
      obstacle == None && img == start && m.cohorts != [] && cohort !in m.cohorts
    case Err(Io) => true
    case Ok(_) =>
      && obstacle == None && m.version != InstalledOrNone(start)
      && InstallEnding(PlanFor(sha, m, fetch, misread), healthy, start, img, res)
    case Err(RollbackImpossible(_)) =>
      obstacle == None && InstallEnding(PlanFor(sha, m, fetch, misread), healthy, start, img, res)
    case Err(e) =>
      obstacle == Some(e) && img.current == start.current && img.previous == start.previous
  }

  /**
   What makes an attempt answer an I/O error although no call fails: an artifact that cannot be written, or
   a temporary name that is taken by a link to nowhere.
   */
  ghost predicate Obstructed(plan: Plan, start: Image) {
    var prepared := Prepared(plan, start);
    || GetsStuck(plan, prepared)
    || (&& Refusal(plan.sha, plan.artifacts, plan.fetch, 0) == None
        && !TmpsFree(PromotedStage(plan, start)))
  }

  /** The release staged and promoted. */
  function PromotedStage(plan: Plan, start: Image): Image {
    var img := After(plan, Prepared(plan, start), |plan.artifacts|);
    if plan.version in img.staging then Promoted(img, plan.version) else img
  }

  /** Stages, activates and probes release `v`, going back to `installed` when it is not healthy. */
  method Install(disk: Disk, sha: Digester, arts: seq<Artifact>, fetch: nat -> Option<Bytes>, v: Version,
                 installed: Version, healthy: bool)
    returns (res: Result<UpdateOutcome, UpdateError>, ghost plan: Plan)
    requires disk.Valid() && v != installed
    requires disk.image.current.To? ==> disk.image.current.version == installed
    modifies disk, disk.os
    ensures plan == Plan(sha, v, arts, fetch, plan.misread)
    ensures disk.Valid() && old(disk.seen) <= disk.seen
    ensures Sheltered(plan, old(disk.image), disk.image)
    ensures forall x :: x in disk.seen ==> x in old(disk.seen) || Sheltered(plan, old(disk.image), x)
    ensures InstallEnding(plan, healthy, old(disk.image), disk.image, res)
    ensures old(disk.os.made) <= disk.os.made
    ensures disk.os.Quiet(old(disk.os.made), disk.os.made) ==>
              !plan.misread && (res == Err(Io) <==> Obstructed(plan, old(disk.image)))
  {
    ghost var start := disk.image;
    var staged;
    staged, plan := Stage(disk, sha, arts, fetch, v);
    forall x | Moment(plan, start, x)
      ensures Staged(plan, start, x) && Sheltered(plan, start, x)
    {
      MomentIsStaged(plan, start, x);
      StagedIsSheltered(plan, start, x);
    }
    if staged.Fail? {
      return Err(staged.error), plan;
    }
    var previous := Activate(disk, v, installed, plan, start);
    if previous.Err? {
      return Err(previous.error), plan;
    }
    if healthy {
      return Ok(Installed(v, previous.value)), plan;
    }
    if previous.value.None? {
      return Err(RollbackImpossible(v)), plan;
    }
    ghost var live := disk.image;
    var restored := disk.ReplaceSymlink(Current, previous.value.value);
    RestoredIsSheltered(plan, start, live, installed);
    forall x | DiffersInTmp(live, x, Current)
      ensures Sheltered(plan, start, x)
    {
      TmpIsSheltered(plan, start, live, x);
    }
    res := if restored then Ok(RolledBack(v, previous.value.value)) else Err(Io);
  }

  /** The release is to be installed, and something is in the way. */
  ghost predicate FailsAnyway(semver: Semver, sha: Digester, m: Manifest, cohort: string,
                              fetch: nat -> Option<Bytes>, start: Image) {
    && Checked(semver, m).Pass?
    && Decide(semver, m, InstalledOrNone(start), cohort) == Ok(Decision.Install(m.version))
    && Obstructed(PlanFor(sha, m, fetch, false), start)
  }

  /** The release is to be installed, and nothing is in the way: not the manifest, not the source, not the disk. */
  ghost predicate Due(semver: Semver, sha: Digester, m: Manifest, cohort: string, fetch: nat -> Option<Bytes>,
                      start: Image) {
    && Decide(semver, m, InstalledOrNone(start), cohort) == Ok(Decision.Install(m.version))
    && Obstacle(semver, sha, m, cohort, fetch, InstalledOrNone(start)) == None
    && !Obstructed(PlanFor(sha, m, fetch, false), start)
  }

  /**
   What an attempt owes then, when no call fails and so its answer is no I/O error: a healthy release goes
   live, and an unhealthy one is taken back if there is one to go back to.
   */
  lemma DueIsDone(semver: Semver, sha: Digester, m: Manifest, cohort: string, fetch: nat -> Option<Bytes>,
                  healthy: bool, start: Image, img: Image, res: Result<UpdateOutcome, UpdateError>)
    requires Due(semver, sha, m, cohort, fetch, start)
    requires Ending(semver, sha, m, cohort, fetch, false, healthy, start, img, res)
    requires res == Err(Io) <==> FailsAnyway(semver, sha, m, cohort, fetch, start)
    ensures healthy ==> res == Ok(Installed(m.version, VersionOf(start.current))) && img.current == To(m.version)
    ensures !healthy && start.current.To? ==>
              res == Ok(RolledBack(m.version, start.current.version)) && img.current == start.current
    ensures !healthy && !start.current.To? ==>
              res == Err(RollbackImpossible(m.version)) && img.current == To(m.version)
  {
    hide Obstructed, Contained, Complete;
  }

  /**
   One attempt: checks, decision, staging, swap, health probe and roll back. The manifest is what the
   verified envelope holds; `fetch` yields the bytes the source has for each artifact, if it has any.
   */
  method Update(disk: Disk, semver: Semver, sha: Digester, m: Manifest, cohort: string, fetch: nat -> Option<Bytes>,
                healthy: bool)
    returns (res: Result<UpdateOutcome, UpdateError>, ghost misread: bool)
    requires disk.Valid()
    modifies disk, disk.os
    ensures disk.Valid() && old(disk.seen) <= disk.seen
    ensures Attempt(semver, sha, m, cohort, fetch, misread, old(disk.image), disk.image)
    ensures forall x :: x in disk.seen ==>
              x in old(disk.seen) || Attempt(semver, sha, m, cohort, fetch, misread, old(disk.image), x)
    ensures Ending(semver, sha, m, cohort, fetch, misread, healthy, old(disk.image), disk.image, res)
    ensures old(disk.os.made) <= disk.os.made
    ensures disk.os.Quiet(old(disk.os.made), disk.os.made) ==>
              !misread && (res == Err(Io) <==> FailsAnyway(semver, sha, m, cohort, fetch, old(disk.image)))
  {
    misread := false;
    var checked := Checked(semver, m);
    if checked.Fail? {
      return Err(checked.error), misread;
    }
    var now := disk.InstalledVersion();
    if now.Err? {
      return Err(now.error), misread;
    }
    var installed := if now.value.Some? then now.value.value else UNINSTALLED;
    var decision := Decide(semver, m, installed, cohort);
    if decision.Err? {
      return Err(decision.error), misread;
    }
    if decision.value.UpToDate? {
      return Ok(AlreadyLive(installed)), misread;
    }
    if decision.value.NotInCohort? {
      return Ok(HeldBack), misread;
    }
    ghost var plan;
    res, plan := Install(disk, sha, m.artifacts, fetch, decision.value.version, installed, healthy);
    misread := plan.misread;
  }
}
