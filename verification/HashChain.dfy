/**
 The per-unit hash chain (crates/trace-core/src/hash.rs). The digest function is a parameter, so
 nothing here assumes that collisions do not exist: where a result would need that, the lemma
 hands back the colliding inputs instead.
 */
module HashChain {
  import opened Collections

  type Byte = n: int | 0 <= n < 256
  type Text = seq<Byte>

  /** The hex form of a SHA-256 digest: always 64 characters. */
  type Digest = d: Text | |d| == 64 witness Genesis()
  type Hash = Text -> Digest

  function Genesis(): (d: Text)
    ensures |d| == 64
  {
    seq(64, _ => 48)
  }

  datatype ChainLink = ChainLink(position: nat, prevHash: Text, rowHash: Text)

  /** The low `width` bytes of `n`, most significant first; a cast to u64 keeps the low eight. */
  function BigEndian(n: nat, width: nat): (bytes: Text)
    ensures |bytes| == width
  {
    if width == 0 then [] else BigEndian(n / 256, width - 1) + [n % 256]
  }

  /** The bytes that are hashed: previous hash, length of the payload, payload. */
  function Encode(prev: Text, payload: Text): Text {
    prev + BigEndian(|payload|, 8) + payload
  }

  function RowHash(hash: Hash, prev: Text, payload: Text): Digest {
    hash(Encode(prev, payload))
  }

  function Append(hash: Hash, tail: Option<ChainLink>, payload: Text): ChainLink {
    var position := if tail.Some? then tail.value.position + 1 else 0;
    var prev := if tail.Some? then tail.value.rowHash else Genesis();
    ChainLink(position, prev, RowHash(hash, prev, payload))
  }

  /** The chain obtained by appending the payloads one after another. */
  function Build(hash: Hash, payloads: seq<Text>): (links: seq<ChainLink>)
    ensures |links| == |payloads|
  {
    if payloads == [] then [] else
      var links := Build(hash, payloads[..|payloads| - 1]);
      links + [Append(hash, Last(links), payloads[|payloads| - 1])]
  }

  function Last(links: seq<ChainLink>): Option<ChainLink> {
    if links == [] then None else Some(links[|links| - 1])
  }

  /** The hash the next row of a chain of these payloads must point at. */
  function Tip(hash: Hash, payloads: seq<Text>): Digest {
    if payloads == [] then Genesis()
    else RowHash(hash, Tip(hash, payloads[..|payloads| - 1]), payloads[|payloads| - 1])
  }

  // ---------------------------------------------------------- the encoding

  /** With a previous hash of fixed length the encoding loses nothing. */
  lemma EncodeInjective(prev1: Text, payload1: Text, prev2: Text, payload2: Text)
    requires |prev1| == |prev2|
    requires Encode(prev1, payload1) == Encode(prev2, payload2)
    ensures prev1 == prev2 && payload1 == payload2
  {
    var n := |prev1|;
    assert Encode(prev1, payload1)[..n] == prev1 && Encode(prev2, payload2)[..n] == prev2;
    assert Encode(prev1, payload1)[n + 8..] == payload1 && Encode(prev2, payload2)[n + 8..] == payload2;
  }

  /** The number a list of bytes stands for, most significant first. */
  function Value(bytes: Text): nat {
    if bytes == [] then 0 else 256 * Value(bytes[..|bytes| - 1]) + bytes[|bytes| - 1]
  }

  function Power(base: nat, k: nat): nat {
    if k == 0 then 1 else base * Power(base, k - 1)
  }

  /** Division with remainder by 256 * m goes through division by 256. */
  lemma RestInTwoSteps(n: nat, m: nat)
    requires m > 0
    ensures 256 * m > 0 && n % (256 * m) == 256 * ((n / 256) % m) + n % 256
  {
    var q, r := (n / 256) / m, (n / 256) % m;
    assert n / 256 == q * m + r;
    var low := 256 * r + n % 256;
    assert n == q * (256 * m) + low;
    assert r <= m - 1 && low < 256 * m;
    RestIs(n, 256 * m, q, low);
  }

  lemma {:induction false} BigEndianValue(n: nat, width: nat)
    ensures Power(256, width) > 0 && Value(BigEndian(n, width)) == n % Power(256, width)
  {
    if width > 0 {
      var high := BigEndian(n / 256, width - 1);
      BigEndianValue(n / 256, width - 1);
      assert BigEndian(n, width)[..width - 1] == high;
      RestInTwoSteps(n, Power(256, width - 1));
    }
  }

  /** The hashed bytes: the previous hash, eight bytes with the length of the payload, the payload. */
  lemma EncodedParts(prev: Text, payload: Text)
    ensures var e, n := Encode(prev, payload), |prev|;
      && |e| == n + 8 + |payload|
      && e[..n] == prev && e[n + 8..] == payload
      && Value(e[n..n + 8]) == |payload| % 0x1_0000_0000_0000_0000
  {
    var e, n := Encode(prev, payload), |prev|;
    assert e[n..n + 8] == BigEndian(|payload|, 8);
    BigEndianValue(|payload|, 8);
    assert Power(256, 4) == 0x1_0000_0000;
    assert Power(256, 8) == 0x1_0000_0000_0000_0000;
  }

  /** Without that, the length prefix alone does not make it injective: these two inputs coincide. */
  lemma EncodeAmbiguous()
    ensures Encode([], BigEndian(0, 8)) == Encode(BigEndian(8, 8), [])
  {
  }

  // ------------------------------------------------------- built chains

  lemma {:induction false} BuiltAt(hash: Hash, payloads: seq<Text>, i: nat)
    requires i < |payloads|
    ensures Build(hash, payloads)[i] == ChainLink(i, Tip(hash, payloads[..i]), Tip(hash, payloads[..i + 1]))
  {
    var n := |payloads| - 1;
    var earlier := payloads[..n];
    if i < n {
      BuiltAt(hash, earlier, i);
      PrefixOfPrefix(payloads, n, i);
      PrefixOfPrefix(payloads, n, i + 1);
    } else {
      assert payloads[..i + 1] == payloads;
      LastOfBuilt(hash, earlier);
    }
  }

  lemma {:induction false} LastOfBuilt(hash: Hash, payloads: seq<Text>)
    ensures match Last(Build(hash, payloads))
      case None => payloads == []
      case Some(link) => link.position == |payloads| - 1 && link.rowHash == Tip(hash, payloads)
  {
    if payloads != [] {
      LastOfBuilt(hash, payloads[..|payloads| - 1]);
    }
  }

  /** Row i of a built chain is numbered i and follows the row before it, the first one 64 characters '0'. */
  lemma BuiltRow(hash: Hash, payloads: seq<Text>, i: nat)
    requires i < |payloads|
    ensures var links := Build(hash, payloads);
      && links[i].position == i
      && links[i].prevHash == (if i == 0 then seq(64, _ => '0' as int) else links[i - 1].rowHash)
      && links[i].rowHash == hash(Encode(links[i].prevHash, payloads[i]))
  {
    BuiltAt(hash, payloads, i);
    assert payloads[..i + 1][..i] == payloads[..i];
    if i > 0 {
      BuiltAt(hash, payloads, i - 1);
    }
  }

  datatype Evidence = Equal | Collision(a: Text, b: Text) | GenesisPreimage(input: Text)

  /** Either nothing is wrong, or here are inputs that break the digest function. */
  ghost predicate Convicts(hash: Hash, e: Evidence, equal: bool) {
    match e
    case Equal => equal
    case Collision(a, b) => a != b && hash(a) == hash(b)
    case GenesisPreimage(input) => hash(input) == Genesis()
  }

  /**
   The last hash of a chain determines every payload and their number, unless the digest
   function is broken and the lemma says where. At equal length no preimage of the genesis
   value is involved.
   */
  lemma {:induction false} TipDetermines(hash: Hash, p: seq<Text>, q: seq<Text>) returns (e: Evidence)
    requires Tip(hash, p) == Tip(hash, q)
    ensures Convicts(hash, e, p == q)
    ensures |p| == |q| ==> !e.GenesisPreimage?
  {
    if p == [] && q == [] {
      e := Equal;
    } else if p == [] {
      e := GenesisPreimage(Encode(Tip(hash, q[..|q| - 1]), q[|q| - 1]));
    } else if q == [] {
      e := GenesisPreimage(Encode(Tip(hash, p[..|p| - 1]), p[|p| - 1]));
    } else {
      var p0, q0 := p[..|p| - 1], q[..|q| - 1];
      var a, b := Encode(Tip(hash, p0), p[|p| - 1]), Encode(Tip(hash, q0), q[|q| - 1]);
      if a != b {
        e := Collision(a, b);
      } else {
        EncodeInjective(Tip(hash, p0), p[|p| - 1], Tip(hash, q0), q[|q| - 1]);
        e := TipDetermines(hash, p0, q0);
        if e.Equal? {
          assert p == p0 + [p[|p| - 1]] && q == q0 + [q[|q| - 1]];
        }
      }
    }
  }

  /** Along one chain all row hashes differ from each other and from the genesis value. */
  lemma RowHashesDistinct(hash: Hash, payloads: seq<Text>, i: nat, j: nat) returns (e: Evidence)
    requires i < j <= |payloads| && Tip(hash, payloads[..i]) == Tip(hash, payloads[..j])
    ensures Convicts(hash, e, false)
  {
    e := TipDetermines(hash, payloads[..i], payloads[..j]);
    assert |payloads[..i]| != |payloads[..j]|;
  }

  // ------------------------------------------------------- verification

  datatype ChainError =
    | LengthMismatch(links: nat, payloads: nat)
    | PrevMismatch(position: nat, expected: Text, found: Text)
    | RowMismatch(position: nat, expected: Text, found: Text)

  /** The links carry the hashes of the chain built from the payloads; positions are not compared. */
  ghost predicate Covers(hash: Hash, links: seq<ChainLink>, payloads: seq<Text>) {
    && |links| == |payloads|
    && forall i :: 0 <= i < |links| ==> HashesAt(hash, links, payloads, i)
  }

  ghost predicate HashesAt(hash: Hash, links: seq<ChainLink>, payloads: seq<Text>, i: nat)
    requires i < |links| && i < |payloads|
  {
    && links[i].prevHash == Build(hash, payloads)[i].prevHash
    && links[i].rowHash == Build(hash, payloads)[i].rowHash
  }

  ghost predicate GoodBefore(hash: Hash, links: seq<ChainLink>, payloads: seq<Text>, i: int) {
    0 <= i < |links| == |payloads| && Covers(hash, links[..i], payloads[..i])
  }

  ghost predicate BadPrev(hash: Hash, links: seq<ChainLink>, payloads: seq<Text>, i: int, e: ChainError) {
    && GoodBefore(hash, links, payloads, i)
    && links[i].prevHash != Tip(hash, payloads[..i])
    && e == PrevMismatch(links[i].position, Tip(hash, payloads[..i]), links[i].prevHash)
  }

  ghost predicate BadRow(hash: Hash, links: seq<ChainLink>, payloads: seq<Text>, i: int, e: ChainError) {
    && GoodBefore(hash, links, payloads, i)
    && links[i].prevHash == Tip(hash, payloads[..i])
    && links[i].rowHash != Tip(hash, payloads[..i + 1])
    && e == RowMismatch(links[i].position, Tip(hash, payloads[..i + 1]), links[i].rowHash)
  }

  /** `e` is what the first link that does not fit reports, with all earlier links in order. */
  ghost predicate FirstBreak(hash: Hash, links: seq<ChainLink>, payloads: seq<Text>, e: ChainError) {
    || (|links| != |payloads| && e == LengthMismatch(|links|, |payloads|))
    || (exists i :: BadPrev(hash, links, payloads, i, e))
    || (exists i :: BadRow(hash, links, payloads, i, e))
  }

  /** Whether one link fits does not depend on what comes after it. */
  lemma HashesAtPrefix(hash: Hash, links: seq<ChainLink>, payloads: seq<Text>, m: nat, k: nat)
    requires k < m <= |links| == |payloads|
    ensures HashesAt(hash, links[..m], payloads[..m], k) <==>
      links[k].prevHash == Tip(hash, payloads[..k]) && links[k].rowHash == Tip(hash, payloads[..k + 1])
  {
    BuiltAt(hash, payloads[..m], k);
    PrefixOfPrefix(payloads, m, k);
    PrefixOfPrefix(payloads, m, k + 1);
  }

  lemma CoversPrefix(hash: Hash, links: seq<ChainLink>, payloads: seq<Text>, i: nat)
    requires i < |links| == |payloads|
    ensures Covers(hash, links[..i + 1], payloads[..i + 1]) <==>
      && Covers(hash, links[..i], payloads[..i])
      && links[i].prevHash == Tip(hash, payloads[..i])
      && links[i].rowHash == Tip(hash, payloads[..i + 1])
  {
    var l, p, l0, p0 := links[..i + 1], payloads[..i + 1], links[..i], payloads[..i];
    forall k | 0 <= k < i
      ensures HashesAt(hash, l, p, k) <==> HashesAt(hash, l0, p0, k)
    {
      HashesAtPrefix(hash, links, payloads, i + 1, k);
      HashesAtPrefix(hash, links, payloads, i, k);
    }
    HashesAtPrefix(hash, links, payloads, i + 1, i);
    if Covers(hash, l, p) {
      assert HashesAt(hash, l, p, i);
      forall k | 0 <= k < i ensures HashesAt(hash, l0, p0, k) { assert HashesAt(hash, l, p, k); }
    }
    if Covers(hash, l0, p0) && HashesAt(hash, l, p, i) {
      forall k | 0 <= k < |l| ensures HashesAt(hash, l, p, k) {
        if k < i { assert HashesAt(hash, l0, p0, k); }
      }
    }
  }

  lemma {:induction false} CoversShorter(hash: Hash, links: seq<ChainLink>, payloads: seq<Text>, i: nat)
    requires |links| == |payloads| && i <= |links| && Covers(hash, links, payloads)
    ensures Covers(hash, links[..i], payloads[..i])
    decreases |links| - i
  {
    if i == |links| {
      assert links[..i] == links && payloads[..i] == payloads;
    } else {
      CoversShorter(hash, links, payloads, i + 1);
      CoversPrefix(hash, links, payloads, i);
    }
  }

  /** Accepts exactly the chains built from the payloads, and otherwise reports the first break. */
  method Verify(hash: Hash, links: seq<ChainLink>, payloads: seq<Text>) returns (res: Outcome<ChainError>)
    ensures res.Pass? <==> Covers(hash, links, payloads)
    ensures res.Fail? ==> FirstBreak(hash, links, payloads, res.error)
  {
    if |links| != |payloads| {
      return Fail(LengthMismatch(|links|, |payloads|));
    }
    var expectedPrev: Text := Genesis();
    var i := 0;
    while i < |links|
      invariant 0 <= i <= |links|
      invariant Covers(hash, links[..i], payloads[..i])
      invariant expectedPrev == Tip(hash, payloads[..i])
    {
      var link := links[i];
      CoversPrefix(hash, links, payloads, i);
      if Covers(hash, links, payloads) { CoversShorter(hash, links, payloads, i + 1); }
      assert payloads[..i + 1][..i] == payloads[..i];
      if link.prevHash != expectedPrev {
        assert BadPrev(hash, links, payloads, i, PrevMismatch(link.position, expectedPrev, link.prevHash));
        return Fail(PrevMismatch(link.position, expectedPrev, link.prevHash));
      }
      var recomputed := RowHash(hash, link.prevHash, payloads[i]);
      if recomputed != link.rowHash {
        assert BadRow(hash, links, payloads, i, RowMismatch(link.position, recomputed, link.rowHash));
        return Fail(RowMismatch(link.position, recomputed, link.rowHash));
      }
      expectedPrev := link.rowHash;
      i := i + 1;
    }
    assert links[..|links|] == links && payloads[..|payloads|] == payloads;
    res := Pass;
  }

  /**
   Tamper evidence: two accepted, non-empty chains of equal length with the same last row hash
   cover the same payloads, or the digest function collides on the inputs returned.
   */
  lemma TamperEvident(hash: Hash, links1: seq<ChainLink>, payloads1: seq<Text>,
                      links2: seq<ChainLink>, payloads2: seq<Text>) returns (e: Evidence)
    requires Covers(hash, links1, payloads1) && Covers(hash, links2, payloads2)
    requires |links1| == |links2| > 0
    requires links1[|links1| - 1].rowHash == links2[|links2| - 1].rowHash
    ensures Convicts(hash, e, payloads1 == payloads2) && !e.GenesisPreimage?
  {
    var n := |links1| - 1;
    assert HashesAt(hash, links1, payloads1, n) && HashesAt(hash, links2, payloads2, n);
    BuiltAt(hash, payloads1, n);
    BuiltAt(hash, payloads2, n);
    assert payloads1[..n + 1] == payloads1 && payloads2[..n + 1] == payloads2;
    e := TipDetermines(hash, payloads1, payloads2);
  }

  /** The verifier cannot see that the end of a chain was cut off: every prefix is accepted. */
  lemma TruncationIsAccepted(hash: Hash, links: seq<ChainLink>, payloads: seq<Text>, n: nat)
    requires Covers(hash, links, payloads) && n <= |links|
    ensures Covers(hash, links[..n], payloads[..n])
  {
    CoversShorter(hash, links, payloads, n);
  }
}
