/** Result types and the few facts about finite sets and sequences that the other modules share. */
module Collections {

  datatype Option<+T> = None | Some(value: T) {
    function GetOr(default: T): T {
      if Some? then value else default
    }
  }

  datatype Result<+T, +E> = Ok(value: T) | Err(error: E)

  datatype Outcome<+E> = Pass | Fail(error: E)

  /** Keeps the elements that satisfy `keep`, in order: Rust's `filter` followed by `collect`. */
  function Filter<T>(keep: T -> bool, s: seq<T>): seq<T> {
    if s == [] then [] else (if keep(s[0]) then [s[0]] else []) + Filter(keep, s[1..])
  }

  lemma {:induction false} FilterMember<T>(keep: T -> bool, s: seq<T>, x: T)
    ensures x in Filter(keep, s) <==> x in s && keep(x)
  {
    if s != [] {
      FilterMember(keep, s[1..], x);
      assert s == [s[0]] + s[1..];
    }
  }

  /** The first element kept is the first one that satisfies the predicate. */
  lemma {:induction false} FilterHead<T>(keep: T -> bool, s: seq<T>) returns (k: nat)
    requires Filter(keep, s) != []
    ensures k < |s| && keep(s[k]) && Filter(keep, s)[0] == s[k] && forall j :: 0 <= j < k ==> !keep(s[j])
  {
    if keep(s[0]) {
      k := 0;
    } else {
      var rest := FilterHead(keep, s[1..]);
      k := rest + 1;
    }
  }

  /** `t` is what `s` has at the places `kept`: they ascend, and are exactly those that satisfy the predicate. */
  ghost predicate KeptAt<T>(keep: T -> bool, s: seq<T>, t: seq<T>, kept: seq<nat>) {
    && |t| == |kept|
    && (forall i :: 0 <= i < |kept| ==> kept[i] < |s| && t[i] == s[kept[i]])
    && (forall i, j :: 0 <= i < j < |kept| ==> kept[i] < kept[j])
    && (forall k :: 0 <= k < |s| ==> (k in kept <==> keep(s[k])))
  }

  ghost predicate IsKeptOf<T>(keep: T -> bool, s: seq<T>, t: seq<T>) {
    exists kept :: KeptAt(keep, s, t, kept)
  }

  lemma {:induction false} FilterParts<T>(keep: T -> bool, a: seq<T>, b: seq<T>)
    ensures Filter(keep, a + b) == Filter(keep, a) + Filter(keep, b)
  {
    if a == [] {
      assert a + b == b && Filter(keep, a) + Filter(keep, b) == Filter(keep, b);
    } else {
      assert (a + b)[1..] == a[1..] + b;
      FilterParts(keep, a[1..], b);
      Assoc(if keep(a[0]) then [a[0]] else [], Filter(keep, a[1..]), Filter(keep, b));
    }
  }

  lemma FilterLast<T>(keep: T -> bool, s: seq<T>, x: T)
    ensures Filter(keep, s + [x]) == Filter(keep, s) + if keep(x) then [x] else []
  {
    FilterParts(keep, s, [x]);
  }

  lemma KeptOneMore<T>(keep: T -> bool, s: seq<T>, t: seq<T>, kept: seq<nat>, x: T)
    requires KeptAt(keep, s, t, kept)
    ensures !keep(x) ==> KeptAt(keep, s + [x], t, kept)
    ensures keep(x) ==> KeptAt(keep, s + [x], t + [x], kept + [|s|])
  {
    var n, more := |s|, kept + [|s|];
    assert n !in kept;
    forall k | 0 <= k < n
      ensures k in more <==> k in kept
    {
    }
    assert more[|kept|] == n && n in more;
  }

  /** Filtering keeps order and multiplicity. */
  lemma {:induction false} FilterKeeps<T>(keep: T -> bool, s: seq<T>) returns (kept: seq<nat>)
    ensures KeptAt(keep, s, Filter(keep, s), kept)
  {
    if s == [] {
      kept := [];
    } else {
      var n := |s| - 1;
      var earlier := FilterKeeps(keep, s[..n]);
      KeptOneMore(keep, s[..n], Filter(keep, s[..n]), earlier, s[n]);
      assert s == s[..n] + [s[n]];
      FilterLast(keep, s[..n], s[n]);
      assert Filter(keep, s[..n]) + [] == Filter(keep, s[..n]);
      kept := if keep(s[n]) then earlier + [n] else earlier;
    }
  }

  lemma {:induction false} FilterTwice<T>(one: T -> bool, two: T -> bool, both: T -> bool, s: seq<T>)
    requires forall x :: x in s ==> (both(x) <==> one(x) && two(x))
    ensures Filter(two, Filter(one, s)) == Filter(both, s)
  {
    if s != [] {
      assert s[0] in s && forall x :: x in s[1..] ==> x in s;
      FilterTwice(one, two, both, s[1..]);
      if one(s[0]) {
        assert ([s[0]] + Filter(one, s[1..]))[1..] == Filter(one, s[1..]);
      } else {
        assert [] + Filter(one, s[1..]) == Filter(one, s[1..]);
      }
    }
  }

  /** Takes steps 0 to k - 1. */
  function Iterate<T>(step: (T, nat) -> T, x: T, k: nat): T {
    if k == 0 then x else step(Iterate(step, x, k - 1), k - 1)
  }

  lemma {:induction false} IterateKeeps<T(!new)>(step: (T, nat) -> T, x: T, k: nat, inv: T -> bool)
    requires inv(x) && forall y, j: nat :: inv(y) ==> inv(step(y, j))
    ensures inv(Iterate(step, x, k))
  {
    if k > 0 {
      IterateKeeps(step, x, k - 1, inv);
    }
  }

  /** Applies `f` to every element: Rust's `map` followed by `collect`. */
  function Map<T, U>(f: T -> U, s: seq<T>): seq<U> {
    if s == [] then [] else [f(s[0])] + Map(f, s[1..])
  }

  lemma {:induction false} MapMember<T, U>(f: T -> U, s: seq<T>, y: U)
    ensures y in Map(f, s) <==> exists x :: x in s && f(x) == y
  {
    if s != [] {
      MapMember(f, s[1..], y);
      assert s == [s[0]] + s[1..];
      assert forall x :: x in s <==> x == s[0] || x in s[1..];
    }
  }

  lemma PrefixOfPrefix<T>(s: seq<T>, n: nat, i: nat)
    requires i <= n <= |s|
    ensures s[..n][..i] == s[..i]
  {
  }

  lemma DropLast<T>(s: seq<T>)
    requires s != []
    ensures s == s[..|s| - 1] + [s[|s| - 1]]
    ensures multiset(s) == multiset(s[..|s| - 1]) + multiset{s[|s| - 1]}
    ensures multiset(s[..|s| - 1]) == multiset(s) - multiset{s[|s| - 1]}
  {
    assert s == s[..|s| - 1] + [s[|s| - 1]];
  }

  /** The decimal digits of a number. */
  function Decimal(n: nat): (s: string)
    ensures s != "" && forall c :: c in s ==> '0' <= c <= '9'
  {
    var digit := [('0' as int + n % 10) as char];
    if n < 10 then digit else Decimal(n / 10) + digit
  }

  predicate AllDigits(s: string) {
    forall c :: c in s ==> '0' <= c <= '9'
  }

  /** The number that a run of digits stands for. */
  function DecimalValue(s: string): nat {
    if s == "" then 0
    else DecimalValue(s[..|s| - 1]) * 10 + if '0' <= s[|s| - 1] <= '9' then s[|s| - 1] as int - '0' as int else 0
  }

  lemma {:induction false} DecimalRoundTrip(n: nat)
    ensures DecimalValue(Decimal(n)) == n
  {
    var digit := [('0' as int + n % 10) as char];
    assert digit[..0] == "";
    if n >= 10 {
      DecimalRoundTrip(n / 10);
      assert (Decimal(n / 10) + digit)[..|Decimal(n / 10)|] == Decimal(n / 10);
    }
  }

  /** The decimal form has no zeros in front. */
  lemma {:induction false} DecimalHasNoZeros(n: nat)
    ensures |Decimal(n)| == 1 || Decimal(n)[0] != '0'
  {
    if n >= 10 {
      DecimalHasNoZeros(n / 10);
      assert |Decimal(n / 10)| == 1 ==> n / 10 < 10;
    }
  }

  /** The order of Rust strings: character by character, a prefix before its extensions. */
  predicate Less(a: string, b: string) {
    if b == "" then false
    else if a == "" then true
    else a[0] < b[0] || (a[0] == b[0] && Less(a[1..], b[1..]))
  }

  lemma {:induction false} LessIsStrictOrder(a: string, b: string, c: string)
    ensures !Less(a, a)
    ensures Less(a, b) || a == b || Less(b, a)
    ensures Less(a, b) ==> !Less(b, a)
    ensures Less(a, b) && Less(b, c) ==> Less(a, c)
  {
    if a != "" {
      LessIsStrictOrder(a[1..], if b == "" then "" else b[1..], if c == "" then "" else c[1..]);
      assert b != "" && a[0] == b[0] && a[1..] == b[1..] ==> a == [a[0]] + a[1..] == b;
    }
  }

  /** The two agree before place i, where `a` ends or has the smaller character. */
  predicate SmallerAt(a: string, b: string, i: nat) {
    i <= |a| && i < |b| && a[..i] == b[..i] && (i == |a| || a[i] < b[i])
  }

  ghost predicate ComesBefore(a: string, b: string) {
    exists i: nat :: SmallerAt(a, b, i)
  }

  lemma {:induction false} LessIffComesBefore(a: string, b: string)
    ensures Less(a, b) <==> ComesBefore(a, b)
  {
    if b == "" {
      assert !ComesBefore(a, b);
    } else if a == "" || a[0] != b[0] {
      assert a == "" || a[0] < b[0] ==> SmallerAt(a, b, 0);
    } else {
      LessIffComesBefore(a[1..], b[1..]);
      if i: nat :| SmallerAt(a[1..], b[1..], i) {
        assert a[..i + 1] == [a[0]] + a[1..][..i] && b[..i + 1] == [b[0]] + b[1..][..i];
        assert SmallerAt(a, b, i + 1);
      }
      if i: nat :| SmallerAt(a, b, i) {
        assert i > 0;
        assert a[1..][..i - 1] == a[..i][1..] && b[1..][..i - 1] == b[..i][1..];
        assert SmallerAt(a[1..], b[1..], i - 1);
      }
    }
  }

  lemma Assoc<T>(a: seq<T>, b: seq<T>, c: seq<T>)
    ensures a + b + c == a + (b + c)
  {
  }

  lemma AssocRight<T>(a: seq<T>, b: seq<T>, c: seq<T>, d: seq<T>)
    ensures a + (b + (c + d)) == a + b + c + d
  {
  }

  lemma AssocInner<T>(a: seq<T>, b: seq<T>, c: seq<T>, d: seq<T>)
    ensures a + (b + c + d) == a + b + c + d
  {
  }

  lemma AssocPairs<T>(a: seq<T>, b: seq<T>, c: seq<T>, d: seq<T>)
    ensures a + b + (c + d) == a + (b + c + d)
  {
  }

  lemma Glue<T>(c: T, a: seq<T>, b: seq<T>)
    ensures [c] + a + b == [c] + (a + b)
    ensures ([c] + a + b)[0] == c && ([c] + a + b)[1..] == a + b
  {
  }

  ghost predicate Distinct<T(!new)>(s: seq<T>) {
    forall i, j :: 0 <= i < j < |s| ==> s[i] != s[j]
  }

  /** A list of distinct members of a finite set is no longer than the set. */
  lemma {:induction false} DistinctFits<T(!new)>(s: seq<T>, bound: set<T>)
    requires Distinct(s) && forall x :: x in s ==> x in bound
    ensures |s| <= |bound|
  {
    if s != [] {
      var last := s[|s| - 1];
      DistinctFits(s[..|s| - 1], bound - {last});
    }
  }

  function Minimum(s: set<nat>): (m: nat)
    requires s != {}
    ensures m in s && forall x :: x in s ==> m <= x
  {
    HasMinimum(s);
    var m :| m in s && forall x :: x in s ==> m <= x;
    m
  }

  lemma {:induction false} DescendsToMinimum(s: set<nat>, some: nat)
    requires some in s
    ensures exists m :: m in s && forall x :: x in s ==> m <= x
    decreases some
  {
    if smaller :| smaller in s && smaller < some {
      DescendsToMinimum(s, smaller);
    }
  }

  lemma HasMinimum(s: set<nat>)
    requires s != {}
    ensures exists m :: m in s && forall x :: x in s ==> m <= x
  {
    var some :| some in s;
    DescendsToMinimum(s, some);
  }

  /** The members of a set in increasing order: how a BTreeMap or a BTreeSet is iterated. */
  function Ascending(s: set<nat>): seq<nat> {
    if s == {} then [] else [Minimum(s)] + Ascending(s - {Minimum(s)})
  }

  lemma {:induction false} AscendingMembers(s: set<nat>)
    ensures forall x :: x in Ascending(s) <==> x in s
    ensures forall i, j :: 0 <= i < j < |Ascending(s)| ==> Ascending(s)[i] < Ascending(s)[j]
  {
    if s != {} {
      var m, q := Minimum(s), Ascending(s - {Minimum(s)});
      AscendingMembers(s - {m});
      forall i, j | 0 <= i < j < |Ascending(s)|
        ensures Ascending(s)[i] < Ascending(s)[j]
      {
        assert q[j - 1] in q;
      }
    }
  }

  lemma {:induction false} AscendingOnce(s: set<nat>, x: nat)
    ensures multiset(Ascending(s))[x] == if x in s then 1 else 0
  {
    if s != {} {
      AscendingOnce(s - {Minimum(s)}, x);
    }
  }

  /** How many entries of `s` lie outside `done`, each occurrence counted. */
  function CountOutside<T(==)>(s: seq<T>, done: set<T>): (n: nat)
  {
    if s == [] then 0 else (if s[0] in done then 0 else 1) + CountOutside(s[1..], done)
  }

  lemma {:induction false} CountOutsideZero<T>(s: seq<T>, done: set<T>)
    ensures CountOutside(s, done) == 0 <==> forall x :: x in s ==> x in done
  {
    if s != [] {
      CountOutsideZero(s[1..], done);
      assert forall x :: x in s <==> x == s[0] || x in s[1..];
    }
  }

  lemma {:induction false} CountOutsideStep<T>(s: seq<T>, done: set<T>, x: T)
    requires x !in done
    ensures CountOutside(s, done) == CountOutside(s, done + {x}) + multiset(s)[x]
  {
    if s != [] {
      CountOutsideStep(s[1..], done, x);
      assert s == [s[0]] + s[1..];
    }
  }

  lemma AtLeastOnce(k: nat, d: nat)
    requires k > 0
    ensures k * d >= d
  {
  }

  /** What is left over by a division is unique. */
  lemma RestIs(n: nat, d: nat, q: nat, r: nat)
    requires d > 0 && n == q * d + r && r < d
    ensures n / d == q && n % d == r
  {
    var p, s := n / d, n % d;
    assert n == p * d + s;
    if q > p {
      assert (q - p) * d == q * d - p * d;
      AtLeastOnce(q - p, d);
    } else if q < p {
      assert (p - q) * d == p * d - q * d;
      AtLeastOnce(p - q, d);
    }
  }

  lemma OneOf<T>(s: set<T>) returns (x: T)
    requires s != {}
    ensures x in s
  {
    x :| x in s;
  }

  lemma {:induction false} SubsetSize<T>(small: set<T>, large: set<T>)
    requires small <= large
    ensures |small| <= |large|
    ensures |small| == |large| <==> small == large
  {
    if small != large {
      assert !(large <= small);
      var x :| x in large && x !in small;
      SubsetSize(small, large - {x});
    }
  }
}
