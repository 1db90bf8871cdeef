/** JSON documents, as serde_json holds them, and when two of them mean the same (RFC 8259). */
module Json {
  import opened Collections

  datatype List<T> = Nil | Cons(head: T, tail: List<T>)

  /** A number is the text printed for it; an object keeps its members in insertion order. */
  datatype Value =
    | Null
    | Bool(truth: bool)
    | Number(digits: string)
    | Str(text: string)
    | Array(items: List<Value>)
    | Object(members: List<Member>)

  datatype Member = Member(key: string, value: Value)

  predicate NumberChar(c: char) {
    '0' <= c <= '9' || c == '-' || c == '+' || c == '.' || c == 'e' || c == 'E'
  }

  predicate HasKey(ms: List<Member>, key: string) {
    ms.Cons? && (ms.head.key == key || HasKey(ms.tail, key))
  }

  /** Numbers print as number characters and the keys of an object are distinct. */
  predicate WellFormed(v: Value) {
    match v
    case Number(digits) => digits != "" && forall c :: c in digits ==> NumberChar(c)
    case Array(items) => WellFormedItems(items)
    case Object(members) => WellFormedMembers(members)
    case _ => true
  }

  predicate WellFormedItems(vs: List<Value>) {
    vs.Cons? ==> WellFormed(vs.head) && WellFormedItems(vs.tail)
  }

  predicate WellFormedMembers(ms: List<Member>) {
    ms.Cons? ==> WellFormed(ms.head.value) && !HasKey(ms.tail, ms.head.key) && WellFormedMembers(ms.tail)
  }

  /** A value as serde_json can hold it. */
  type Document = v: Value | WellFormed(v) witness Null

  function Size(v: Value): nat {
    match v
    case Array(items) => 1 + ItemsSize(items)
    case Object(members) => 1 + MembersSize(members)
    case _ => 1
  }

  function ItemsSize(vs: List<Value>): nat {
    match vs case Nil => 0 case Cons(v, rest) => Size(v) + ItemsSize(rest)
  }

  function MembersSize(ms: List<Member>): nat {
    match ms case Nil => 0 case Cons(m, rest) => Size(m.value) + MembersSize(rest)
  }

  function Get(ms: List<Member>, key: string): (v: Option<Value>)
    ensures v.Some? <==> HasKey(ms, key)
    ensures v.Some? ==> Size(v.value) <= MembersSize(ms)
  {
    if ms.Nil? then None else if ms.head.key == key then Some(ms.head.value) else Get(ms.tail, key)
  }

  /** The same document: arrays item by item, objects key by key and in any order. */
  ghost predicate SameDocument(v: Value, w: Value)
    decreases Size(v), 1
  {
    match v
    case Array(items) => w.Array? && SameItems(items, w.items)
    case Object(members) => w.Object? && SameMembers(members, w.members)
    case _ => v == w
  }

  ghost predicate SameItems(vs: List<Value>, ws: List<Value>)
    decreases ItemsSize(vs), 2, vs
  {
    match vs
    case Nil => ws.Nil?
    case Cons(v, rest) => ws.Cons? && SameDocument(v, ws.head) && SameItems(rest, ws.tail)
  }

  ghost predicate SameMembers(ms: List<Member>, ns: List<Member>)
    decreases MembersSize(ms), 3
  {
    forall key :: SameAt(ms, ns, key)
  }

  ghost predicate SameAt(ms: List<Member>, ns: List<Member>, key: string)
    decreases MembersSize(ms), 2
  {
    match Get(ms, key)
    case None => !HasKey(ns, key)
    case Some(v) => HasKey(ns, key) && SameDocument(v, Get(ns, key).value)
  }

  function Insert(m: Member, ms: List<Member>): List<Member> {
    if ms.Nil? || Less(m.key, ms.head.key) then Cons(m, ms) else Cons(ms.head, Insert(m, ms.tail))
  }

  /** The members in key order. */
  function Sort(ms: List<Member>): List<Member> {
    match ms case Nil => Nil case Cons(m, rest) => Insert(m, Sort(rest))
  }

  /** The same document with the members of every object in key order. */
  function Normalise(v: Value): Value {
    match v
    case Array(items) => Array(NormaliseItems(items))
    case Object(members) => Object(NormaliseMembers(members))
    case _ => v
  }

  function NormaliseItems(vs: List<Value>): List<Value> {
    match vs case Nil => Nil case Cons(v, rest) => Cons(Normalise(v), NormaliseItems(rest))
  }

  function NormaliseMembers(ms: List<Member>): List<Member> {
    match ms
    case Nil => Nil
    case Cons(m, rest) => Insert(Member(m.key, Normalise(m.value)), NormaliseMembers(rest))
  }

  /** Strictly ascending keys. */
  predicate InKeyOrder(ms: List<Member>) {
    ms.Cons? && ms.tail.Cons? ==> Less(ms.head.key, ms.tail.head.key) && InKeyOrder(ms.tail)
  }

  lemma {:induction false} InsertGet(m: Member, ms: List<Member>, key: string)
    requires !HasKey(ms, m.key)
    ensures Get(Insert(m, ms), key) == if key == m.key then Some(m.value) else Get(ms, key)
  {
    if ms.Cons? && !Less(m.key, ms.head.key) {
      InsertGet(m, ms.tail, key);
    }
  }

  lemma {:induction false} InsertKeepsOrder(m: Member, ms: List<Member>)
    requires InKeyOrder(ms) && !HasKey(ms, m.key)
    ensures InKeyOrder(Insert(m, ms))
  {
    if ms.Cons? {
      LessIsStrictOrder(m.key, ms.head.key, "");
      if !Less(m.key, ms.head.key) {
        InsertKeepsOrder(m, ms.tail);
      }
    }
  }

  lemma {:induction false} NormaliseMembersGet(ms: List<Member>, key: string)
    requires WellFormedMembers(ms)
    ensures HasKey(NormaliseMembers(ms), key) <==> HasKey(ms, key)
    ensures HasKey(ms, key) ==> Get(NormaliseMembers(ms), key) == Some(Normalise(Get(ms, key).value))
  {
    if ms.Cons? {
      NormaliseMembersGet(ms.tail, ms.head.key);
      NormaliseMembersGet(ms.tail, key);
      InsertGet(Member(ms.head.key, Normalise(ms.head.value)), NormaliseMembers(ms.tail), key);
    }
  }

  lemma {:induction false} NormaliseMembersOrdered(ms: List<Member>)
    requires WellFormedMembers(ms)
    ensures InKeyOrder(NormaliseMembers(ms))
  {
    if ms.Cons? {
      NormaliseMembersOrdered(ms.tail);
      NormaliseMembersGet(ms.tail, ms.head.key);
      InsertKeepsOrder(Member(ms.head.key, Normalise(ms.head.value)), NormaliseMembers(ms.tail));
    }
  }

  lemma {:induction false} KeysAbove(ms: List<Member>, key: string)
    requires InKeyOrder(ms) && ms.Cons? && HasKey(ms.tail, key)
    ensures Less(ms.head.key, key)
  {
    if ms.tail.head.key != key {
      KeysAbove(ms.tail, key);
      LessIsStrictOrder(ms.head.key, ms.tail.head.key, key);
    }
  }

  ghost predicate SameGets(ms: List<Member>, ns: List<Member>) {
    forall key :: Get(ms, key) == Get(ns, key)
  }

  /** Member lists in key order are equal once they answer every lookup alike. */
  lemma {:induction false} OrderedListsAreMaps(ms: List<Member>, ns: List<Member>)
    requires InKeyOrder(ms) && InKeyOrder(ns) && SameGets(ms, ns)
    ensures ms == ns
  {
    if ms.Nil? || ns.Nil? {
      assert ms.Cons? ==> Get(ms, ms.head.key) == Get(ns, ms.head.key);
      assert ns.Cons? ==> Get(ms, ns.head.key) == Get(ns, ns.head.key);
    } else {
      SameHeads(ms, ns);
      forall key
        ensures Get(ms.tail, key) == Get(ns.tail, key)
      {
        assert Get(ms, key) == Get(ns, key);
        NotInTail(ms);
        NotInTail(ns);
      }
      OrderedListsAreMaps(ms.tail, ns.tail);
    }
  }

  lemma NotInTail(ms: List<Member>)
    requires InKeyOrder(ms) && ms.Cons?
    ensures !HasKey(ms.tail, ms.head.key)
  {
    if HasKey(ms.tail, ms.head.key) {
      KeysAbove(ms, ms.head.key);
      LessIsStrictOrder(ms.head.key, "", "");
    }
  }

  lemma SameHeads(ms: List<Member>, ns: List<Member>)
    requires InKeyOrder(ms) && InKeyOrder(ns) && SameGets(ms, ns) && ms.Cons? && ns.Cons?
    ensures ms.head == ns.head
  {
    var k, l := ms.head.key, ns.head.key;
    assert Get(ms, k) == Get(ns, k) && Get(ms, l) == Get(ns, l);
    if k != l {
      KeysAbove(ms, l);
      KeysAbove(ns, k);
      LessIsStrictOrder(k, l, k);
    }
  }

  /** Two documents are the same exactly when they agree once every object is in key order. */
  lemma {:induction false} NormaliseDecides(v: Value, w: Value)
    requires WellFormed(v) && WellFormed(w)
    ensures Normalise(v) == Normalise(w) <==> SameDocument(v, w)
    decreases Size(v), 1
  {
    if v.Array? && w.Array? {
      ItemsDecide(v.items, w.items);
    } else if v.Object? && w.Object? {
      MembersDecide(v.members, w.members);
    }
  }

  lemma {:induction false} ItemsDecide(vs: List<Value>, ws: List<Value>)
    requires WellFormedItems(vs) && WellFormedItems(ws)
    ensures NormaliseItems(vs) == NormaliseItems(ws) <==> SameItems(vs, ws)
    decreases ItemsSize(vs), 2, vs
  {
    if vs.Cons? && ws.Cons? {
      NormaliseDecides(vs.head, ws.head);
      ItemsDecide(vs.tail, ws.tail);
    }
  }

  lemma {:induction false} MembersDecide(ms: List<Member>, ns: List<Member>)
    requires WellFormedMembers(ms) && WellFormedMembers(ns)
    ensures NormaliseMembers(ms) == NormaliseMembers(ns) <==> SameMembers(ms, ns)
    decreases MembersSize(ms), 3
  {
    var ms', ns' := NormaliseMembers(ms), NormaliseMembers(ns);
    forall key
      ensures Get(ms', key) == Get(ns', key) <==> SameAt(ms, ns, key)
    {
      NormaliseMembersGet(ms, key);
      NormaliseMembersGet(ns, key);
      if HasKey(ms, key) && HasKey(ns, key) {
        GetIsWellFormed(ms, key);
        GetIsWellFormed(ns, key);
        NormaliseDecides(Get(ms, key).value, Get(ns, key).value);
      }
    }
    if key :| !SameAt(ms, ns, key) {
      assert Get(ms', key) != Get(ns', key);
    } else {
      NormaliseMembersOrdered(ms);
      NormaliseMembersOrdered(ns);
      OrderedListsAreMaps(ms', ns');
    }
  }

  lemma {:induction false} GetIsWellFormed(ms: List<Member>, key: string)
    requires WellFormedMembers(ms) && HasKey(ms, key)
    ensures WellFormed(Get(ms, key).value)
  {
    if ms.head.key != key {
      GetIsWellFormed(ms.tail, key);
    }
  }

  lemma {:induction false} InsertWellFormed(m: Member, ms: List<Member>, key: string)
    requires WellFormedMembers(ms) && WellFormed(m.value) && !HasKey(ms, m.key)
    ensures WellFormedMembers(Insert(m, ms))
    ensures HasKey(Insert(m, ms), key) <==> key == m.key || HasKey(ms, key)
  {
    if ms.Cons? && !Less(m.key, ms.head.key) {
      InsertWellFormed(m, ms.tail, key);
      InsertWellFormed(m, ms.tail, ms.head.key);
    }
  }

  lemma {:induction false} NormaliseWellFormed(v: Value)
    requires WellFormed(v)
    ensures WellFormed(Normalise(v))
    decreases v
  {
    match v
    case Array(items) => NormaliseItemsWellFormed(items);
    case Object(members) => NormaliseMembersWellFormed(members);
    case _ =>
  }

  lemma {:induction false} NormaliseItemsWellFormed(vs: List<Value>)
    requires WellFormedItems(vs)
    ensures WellFormedItems(NormaliseItems(vs))
    decreases vs
  {
    if vs.Cons? {
      NormaliseWellFormed(vs.head);
      NormaliseItemsWellFormed(vs.tail);
    }
  }

  lemma {:induction false} NormaliseMembersWellFormed(ms: List<Member>)
    requires WellFormedMembers(ms)
    ensures WellFormedMembers(NormaliseMembers(ms))
    decreases ms
  {
    if ms.Cons? {
      NormaliseWellFormed(ms.head.value);
      NormaliseMembersWellFormed(ms.tail);
      NormaliseMembersGet(ms.tail, ms.head.key);
      InsertWellFormed(Member(ms.head.key, Normalise(ms.head.value)), NormaliseMembers(ms.tail), ms.head.key);
    }
  }

  function NormaliseEach(ms: List<Member>): List<Member> {
    match ms case Nil => Nil case Cons(m, rest) => Cons(Member(m.key, Normalise(m.value)), NormaliseEach(rest))
  }

  lemma {:induction false} InsertThenNormalise(m: Member, ms: List<Member>)
    ensures NormaliseEach(Insert(m, ms)) == Insert(Member(m.key, Normalise(m.value)), NormaliseEach(ms))
    ensures MembersSize(Insert(m, ms)) == Size(m.value) + MembersSize(ms)
  {
    if ms.Cons? {
      InsertThenNormalise(m, ms.tail);
    }
  }

  /** Sorting an object's members before they are written comes to normalising the whole object. */
  lemma {:induction false} SortThenNormalise(ms: List<Member>)
    ensures NormaliseEach(Sort(ms)) == NormaliseMembers(ms)
    ensures MembersSize(Sort(ms)) == MembersSize(ms)
  {
    if ms.Cons? {
      SortThenNormalise(ms.tail);
      InsertThenNormalise(ms.head, Sort(ms.tail));
    }
  }

  // ------------------------------------------------------------ what the canonical form is

  /** Each key comes before all keys behind it. */
  ghost predicate KeysAscend(ms: List<Member>) {
    ms.Cons? ==> (forall key :: HasKey(ms.tail, key) ==> ComesBefore(ms.head.key, key)) && KeysAscend(ms.tail)
  }

  /** In every object of the document the keys ascend. */
  ghost predicate Ascends(v: Value) {
    match v
    case Array(items) => AscendItems(items)
    case Object(members) => KeysAscend(members) && AscendValues(members)
    case _ => true
  }

  ghost predicate AscendItems(vs: List<Value>) {
    vs.Cons? ==> Ascends(vs.head) && AscendItems(vs.tail)
  }

  ghost predicate AscendValues(ms: List<Member>) {
    ms.Cons? ==> Ascends(ms.head.value) && AscendValues(ms.tail)
  }

  lemma {:induction false} OrderAscends(ms: List<Member>)
    requires InKeyOrder(ms)
    ensures KeysAscend(ms)
  {
    if ms.Cons? {
      OrderAscends(ms.tail);
      forall key | HasKey(ms.tail, key)
        ensures ComesBefore(ms.head.key, key)
      {
        KeysAbove(ms, key);
        LessIffComesBefore(ms.head.key, key);
      }
    }
  }

  lemma {:induction false} InsertAscends(m: Member, ms: List<Member>)
    requires Ascends(m.value) && AscendValues(ms)
    ensures AscendValues(Insert(m, ms))
  {
    if ms.Cons? && !Less(m.key, ms.head.key) {
      InsertAscends(m, ms.tail);
    }
  }

  lemma {:induction false} NormaliseAscends(v: Value)
    requires WellFormed(v)
    ensures Ascends(Normalise(v))
    decreases v
  {
    match v
    case Array(items) => NormaliseItemsAscend(items);
    case Object(members) =>
      NormaliseValuesAscend(members);
      NormaliseMembersOrdered(members);
      OrderAscends(NormaliseMembers(members));
    case _ =>
  }

  lemma {:induction false} NormaliseItemsAscend(vs: List<Value>)
    requires WellFormedItems(vs)
    ensures AscendItems(NormaliseItems(vs))
    decreases vs
  {
    if vs.Cons? {
      NormaliseAscends(vs.head);
      NormaliseItemsAscend(vs.tail);
    }
  }

  lemma {:induction false} NormaliseValuesAscend(ms: List<Member>)
    requires WellFormedMembers(ms)
    ensures AscendValues(NormaliseMembers(ms))
    decreases ms
  {
    if ms.Cons? {
      NormaliseAscends(ms.head.value);
      NormaliseValuesAscend(ms.tail);
      InsertAscends(Member(ms.head.key, Normalise(ms.head.value)), NormaliseMembers(ms.tail));
    }
  }

  lemma {:induction false} NormaliseIsSame(v: Value)
    requires WellFormed(v)
    ensures SameDocument(v, Normalise(v))
    decreases Size(v), 1
  {
    match v
    case Array(items) => NormaliseItemsSame(items);
    case Object(members) =>
      forall key
        ensures SameAt(members, NormaliseMembers(members), key)
      {
        NormaliseMembersGet(members, key);
        if HasKey(members, key) {
          GetIsWellFormed(members, key);
          NormaliseIsSame(Get(members, key).value);
        }
      }
    case _ =>
  }

  lemma {:induction false} NormaliseItemsSame(vs: List<Value>)
    requires WellFormedItems(vs)
    ensures SameItems(vs, NormaliseItems(vs))
    decreases ItemsSize(vs), 2, vs
  {
    if vs.Cons? {
      NormaliseIsSame(vs.head);
      NormaliseItemsSame(vs.tail);
    }
  }

  /** Keys that ascend are in order, so a document has one form in which all of them do. */
  lemma {:induction false} AscendingKeysAreOrdered(ms: List<Member>)
    requires KeysAscend(ms)
    ensures InKeyOrder(ms)
  {
    if ms.Cons? && ms.tail.Cons? {
      AscendingKeysAreOrdered(ms.tail);
      assert HasKey(ms.tail, ms.tail.head.key);
      LessIffComesBefore(ms.head.key, ms.tail.head.key);
    }
  }

  lemma {:induction false} GetAscends(ms: List<Member>, key: string)
    requires AscendValues(ms) && HasKey(ms, key)
    ensures Ascends(Get(ms, key).value)
  {
    if ms.head.key != key {
      GetAscends(ms.tail, key);
    }
  }

  lemma {:induction false} AscendingIsNormal(v: Value)
    requires WellFormed(v) && Ascends(v)
    ensures Normalise(v) == v
    decreases Size(v), 1
  {
    match v
    case Array(items) => AscendingItemsAreNormal(items);
    case Object(members) =>
      AscendingKeysAreOrdered(members);
      NormaliseMembersOrdered(members);
      forall key
        ensures Get(NormaliseMembers(members), key) == Get(members, key)
      {
        NormaliseMembersGet(members, key);
        if HasKey(members, key) {
          GetIsWellFormed(members, key);
          GetAscends(members, key);
          AscendingIsNormal(Get(members, key).value);
        }
      }
      OrderedListsAreMaps(NormaliseMembers(members), members);
    case _ =>
  }

  lemma {:induction false} AscendingItemsAreNormal(vs: List<Value>)
    requires WellFormedItems(vs) && AscendItems(vs)
    ensures NormaliseItems(vs) == vs
    decreases ItemsSize(vs), 2, vs
  {
    if vs.Cons? {
      AscendingIsNormal(vs.head);
      AscendingItemsAreNormal(vs.tail);
    }
  }

  /** The canonical form is the one form of a document in which the keys of every object ascend. */
  lemma AscendingFormIsUnique(v: Value, w: Value)
    requires WellFormed(v) && WellFormed(w)
    ensures SameDocument(v, w) && Ascends(w) <==> w == Normalise(v)
  {
    NormaliseIsSame(v);
    NormaliseAscends(v);
    if SameDocument(v, w) && Ascends(w) {
      NormaliseDecides(v, w);
      AscendingIsNormal(w);
    }
  }
}
