/** File names as the operating system resolves them: component by component, through symlinks. */
module Paths {
  import opened Collections

  /** A place in the file system, by the components that lead to it from `/`, or from a directory. */
  type Path = seq<string>

  datatype Component = RootDir | CurDir | ParentDir | Normal(name: string)

  /** A name as it is written, cut into components. */
  type Name = seq<Component>

  /** How many symlinks Linux follows in one name. */
  const MAX_LINKS: nat := 40

  function Parent(at: Path): Path {
    if at == [] then [] else at[..|at| - 1]
  }

  /**
   Where a name leads from directory `at`, through symlinks with the names they hold, if it does not take
   more than `limit` of them.
   */
  function Walk(links: map<Path, Name>, at: Path, name: Name, limit: nat): Option<Path>
    decreases limit, |name|
  {
    if name == [] then Some(at)
    else
      match name[0]
      case RootDir => Walk(links, [], name[1..], limit)
      case CurDir => Walk(links, at, name[1..], limit)
      case ParentDir => Walk(links, Parent(at), name[1..], limit)
      case Normal(n) =>
        var p := at + [n];
        if p !in links then Walk(links, p, name[1..], limit)
        else if limit == 0 then None
        else Walk(links, at, links[p] + name[1..], limit - 1)
  }

  lemma WalkDown(links: map<Path, Name>, at: Path, n: string, rest: Name, limit: nat)
    requires at + [n] !in links
    ensures Walk(links, at, [Normal(n)] + rest, limit) == Walk(links, at + [n], rest, limit)
  {
    assert ([Normal(n)] + rest)[1..] == rest;
  }

  lemma WalkUp(links: map<Path, Name>, at: Path, rest: Name, limit: nat)
    ensures Walk(links, at, [ParentDir] + rest, limit) == Walk(links, Parent(at), rest, limit)
  {
    assert ([ParentDir] + rest)[1..] == rest;
  }

  lemma WalkLink(links: map<Path, Name>, at: Path, n: string, rest: Name, limit: nat)
    requires at + [n] in links && limit > 0
    ensures Walk(links, at, [Normal(n)] + rest, limit) == Walk(links, at, links[at + [n]] + rest, limit - 1)
  {
    assert ([Normal(n)] + rest)[1..] == rest;
  }

  /** The check that artifact paths are put through when they are read: relative, and without `..`. */
  predicate Guarded(name: Name) {
    forall c :: c in name ==> c.CurDir? || c.Normal?
  }

  function Normals(name: Name): Path {
    if name == [] then [] else (if name[0].Normal? then [name[0].name] else []) + Normals(name[1..])
  }

  lemma PrefixOfLonger(at: Path, n: string, l: Path)
    ensures at + [n] <= l ==> at <= l
  {
  }

  /** A guarded name leads down from where it is joined, along its normal components. */
  lemma {:induction false} GuardedGoesDown(links: map<Path, Name>, at: Path, name: Name, limit: nat)
    requires Guarded(name) && forall l :: l in links ==> !(at <= l)
    ensures Walk(links, at, name, limit) == Some(at + Normals(name))
    decreases |name|
  {
    if name == [] {
      assert at + [] == at;
    } else {
      assert name[0] in name && forall c :: c in name[1..] ==> c in name;
      if name[0].CurDir? {
        GuardedGoesDown(links, at, name[1..], limit);
        assert [] + Normals(name[1..]) == Normals(name[1..]);
      } else {
        var n := name[0].name;
        assert forall l :: l in links ==> !(at + [n] <= l) by {
          forall l | l in links
            ensures !(at + [n] <= l)
          {
            PrefixOfLonger(at, n, l);
          }
        }
        GuardedGoesDown(links, at + [n], name[1..], limit);
        assert at + [n] + Normals(name[1..]) == at + ([n] + Normals(name[1..]));
      }
    }
  }

  /** The name of a place from the root. */
  function Absolute(p: Path): Name {
    [RootDir] + seq(|p|, i requires 0 <= i < |p| => Normal(p[i]))
  }

  lemma {:induction false} DownFrom(links: map<Path, Name>, p: Path, k: nat, rest: Name, limit: nat)
    requires k <= |p| && forall l :: l in links ==> !(l <= p)
    ensures Walk(links, p[..k], Absolute(p)[k + 1..] + rest, limit) == Walk(links, p, rest, limit)
    decreases |p| - k
  {
    var name := Absolute(p)[k + 1..] + rest;
    if k == |p| {
      assert p[..k] == p && name == rest;
    } else {
      assert name[0] == Normal(p[k]) && name[1..] == Absolute(p)[k + 2..] + rest;
      assert p[..k] + [p[k]] == p[..k + 1];
      assert p[..k + 1] <= p;
      DownFrom(links, p, k + 1, rest, limit);
    }
  }

  /** An absolute name leads to its place when no link is on the way. */
  lemma AbsoluteLeads(links: map<Path, Name>, at: Path, p: Path, rest: Name, limit: nat)
    requires forall l :: l in links ==> !(l <= p)
    ensures Walk(links, at, Absolute(p) + rest, limit) == Walk(links, p, rest, limit)
  {
    var name := Absolute(p) + rest;
    assert name[0] == RootDir && name[1..] == Absolute(p)[1..] + rest;
    assert p[..0] == [];
    DownFrom(links, p, 0, rest, limit);
  }
}
