/** Canonical JSON, the text that is signed (crates/trace-sign/src/lib.rs), and a reader that undoes it. */
module CanonicalJson {
  import opened Collections
  import opened Json

  function HexDigit(n: nat): char
    requires n < 16
  {
    "0123456789abcdef"[n]
  }

  /** How serde_json writes one character of a string (section 7 of RFC 8259). */
  function EscapeChar(c: char): string {
    if c == '\"' then "\\\""
    else if c == '\\' then "\\\\"
    else if c == '\U{8}' then "\\b"
    else if c == '\t' then "\\t"
    else if c == '\n' then "\\n"
    else if c == '\U{C}' then "\\f"
    else if c == '\r' then "\\r"
    else if c < ' ' then "\\u00" + [HexDigit(c as int / 16), HexDigit(c as int % 16)]
    else [c]
  }

  function Escaped(text: string): string {
    if text == "" then "" else EscapeChar(text[0]) + Escaped(text[1..])
  }

  function Quoted(text: string): string {
    "\"" + Escaped(text) + "\""
  }

  /** A value in compact form, members in the order they are held. */
  function Text(v: Value): string {
    match v
    case Null => "null"
    case Bool(truth) => if truth then "true" else "false"
    case Number(digits) => digits
    case Str(text) => Quoted(text)
    case Array(items) => "[" + ItemsText(items)
    case Object(members) => "{" + MembersText(members)
  }

  /** The items of an array with the bracket that closes it. */
  function ItemsText(vs: List<Value>): string
    decreases vs, 0
  {
    match vs case Nil => "]" case Cons(v, rest) => Text(v) + MoreItems(rest)
  }

  /** What follows an item. */
  function MoreItems(vs: List<Value>): string
    decreases vs, 1
  {
    if vs.Nil? then "]" else "," + ItemsText(vs)
  }

  function MemberText(m: Member): string {
    Quoted(m.key) + (":" + Text(m.value))
  }

  function MembersText(ms: List<Member>): string
    decreases ms, 0
  {
    match ms case Nil => "}" case Cons(m, rest) => MemberText(m) + MoreMembers(rest)
  }

  function MoreMembers(ms: List<Member>): string
    decreases ms, 1
  {
    if ms.Nil? then "}" else "," + MembersText(ms)
  }

  /** The canonical text of a document. */
  function Canonical(v: Value): string {
    Text(Normalise(v))
  }

  datatype Read<+T> = Lost | Got(value: T, rest: string)

  function HexValue(c: char): nat {
    if '0' <= c <= '9' then c as int - '0' as int else if 'a' <= c <= 'f' then c as int - 'a' as int + 10 else 16
  }

  /** Reads one possibly escaped character. */
  function ReadChar(s: string): (r: Read<char>)
    ensures r.Got? ==> |r.rest| < |s|
  {
    if s == "" then Lost
    else if s[0] != '\\' then Got(s[0], s[1..])
    else if |s| < 2 then Lost
    else if s[1] == '\"' then Got('\"', s[2..])
    else if s[1] == '\\' then Got('\\', s[2..])
    else if s[1] == 'b' then Got('\U{8}', s[2..])
    else if s[1] == 't' then Got('\t', s[2..])
    else if s[1] == 'n' then Got('\n', s[2..])
    else if s[1] == 'f' then Got('\U{C}', s[2..])
    else if s[1] == 'r' then Got('\r', s[2..])
    else if |s| >= 6 && s[..4] == "\\u00" && HexValue(s[4]) < 2 && HexValue(s[5]) < 16 then
      Got((HexValue(s[4]) * 16 + HexValue(s[5])) as char, s[6..])
    else Lost
  }

  /** Reads the characters of a string up to the closing quote. */
  function ReadChars(s: string): (r: Read<string>)
    ensures r.Got? ==> |r.rest| < |s|
    decreases |s|
  {
    if s == "" then Lost
    else if s[0] == '\"' then Got("", s[1..])
    else
      var one := ReadChar(s);
      if one.Lost? then Lost
      else
        var more := ReadChars(one.rest);
        if more.Lost? then Lost else Got([one.value] + more.value, more.rest)
  }

  function ReadQuoted(s: string): (r: Read<string>)
    ensures r.Got? ==> |r.rest| < |s|
  {
    if s == "" || s[0] != '\"' then Lost else ReadChars(s[1..])
  }

  function ReadDigits(s: string): (r: Read<string>)
    ensures r.Got? && |r.rest| <= |s|
    ensures s != "" && NumberChar(s[0]) ==> |r.rest| < |s|
  {
    if s == "" || !NumberChar(s[0]) then Got("", s)
    else
      var more := ReadDigits(s[1..]);
      Got([s[0]] + more.value, more.rest)
  }

  function ReadWord(s: string, word: string, v: Value): (r: Read<Value>)
    requires word != ""
    ensures r.Got? ==> |r.rest| < |s|
  {
    if word <= s then Got(v, s[|word|..]) else Lost
  }

  function ReadValue(s: string): (r: Read<Value>)
    ensures r.Got? ==> |r.rest| < |s|
    decreases |s|, 0
  {
    if s == "" then Lost
    else if s[0] == '\"' then
      var text := ReadQuoted(s);
      if text.Lost? then Lost else Got(Str(text.value), text.rest)
    else if s[0] == '[' then
      var items := if "]" <= s[1..] then Got(Nil, s[2..]) else ReadItems(s[1..]);
      if items.Lost? then Lost else Got(Array(items.value), items.rest)
    else if s[0] == '{' then
      var members := if "}" <= s[1..] then Got(Nil, s[2..]) else ReadMembers(s[1..]);
      if members.Lost? then Lost else Got(Object(members.value), members.rest)
    else if s[0] == 'n' then ReadWord(s, "null", Null)
    else if s[0] == 't' then ReadWord(s, "true", Bool(true))
    else if s[0] == 'f' then ReadWord(s, "false", Bool(false))
    else if NumberChar(s[0]) then
      var digits := ReadDigits(s);
      Got(Number(digits.value), digits.rest)
    else Lost
  }

  /** Reads at least one item and the closing bracket. */
  function ReadItems(s: string): (r: Read<List<Value>>)
    ensures r.Got? ==> |r.rest| < |s|
    decreases |s|, 1
  {
    var v := ReadValue(s);
    if v.Lost? || v.rest == "" then Lost
    else if v.rest[0] == ']' then Got(Cons(v.value, Nil), v.rest[1..])
    else if v.rest[0] != ',' then Lost
    else
      var more := ReadItems(v.rest[1..]);
      if more.Lost? then Lost else Got(Cons(v.value, more.value), more.rest)
  }

  function ReadMember(s: string): (r: Read<Member>)
    ensures r.Got? ==> |r.rest| < |s|
    decreases |s|, 1
  {
    var key := ReadQuoted(s);
    if key.Lost? || key.rest == "" || key.rest[0] != ':' then Lost
    else
      var v := ReadValue(key.rest[1..]);
      if v.Lost? then Lost else Got(Member(key.value, v.value), v.rest)
  }

  /** Reads at least one member and the closing brace. */
  function ReadMembers(s: string): (r: Read<List<Member>>)
    ensures r.Got? ==> |r.rest| < |s|
    decreases |s|, 2
  {
    var m := ReadMember(s);
    if m.Lost? || m.rest == "" then Lost
    else if m.rest[0] == '}' then Got(Cons(m.value, Nil), m.rest[1..])
    else if m.rest[0] != ',' then Lost
    else
      var more := ReadMembers(m.rest[1..]);
      if more.Lost? then Lost else Got(Cons(m.value, more.value), more.rest)
  }

  /** What follows cannot be taken for more digits. */
  predicate Delimited(rest: string) {
    rest != "" ==> !NumberChar(rest[0])
  }

  lemma HexRoundTrip(n: nat)
    requires n < 16
    ensures HexValue(HexDigit(n)) == n
  {
  }

  /** The characters that have an escape of two characters of their own. */
  predicate HasShortEscape(c: char) {
    c == '\"' || c == '\\' || c == '\U{8}' || c == '\t' || c == '\n' || c == '\U{C}' || c == '\r'
  }

  lemma ControlRoundTrip(c: char, rest: string)
    requires c < ' ' && !HasShortEscape(c)
    ensures ReadChar(EscapeChar(c) + rest) == Got(c, rest)
  {
    var high, low, s := HexDigit(c as int / 16), HexDigit(c as int % 16), EscapeChar(c) + rest;
    HexRoundTrip(c as int / 16);
    HexRoundTrip(c as int % 16);
    assert EscapeChar(c) == ['\\', 'u', '0', '0', high, low];
    assert s[0] == '\\' && s[1] == 'u' && s[4] == high && s[5] == low;
    assert s[..4] == "\\u00" && s[6..] == rest;
  }

  lemma ShortRoundTrip(c: char, rest: string)
    requires HasShortEscape(c)
    ensures ReadChar(EscapeChar(c) + rest) == Got(c, rest)
    ensures EscapeChar(c) != "" && EscapeChar(c)[0] == '\\'
  {
    var s := EscapeChar(c) + rest;
    assert |EscapeChar(c)| == 2 && s[0] == '\\' && s[1] == EscapeChar(c)[1];
    assert s[2..] == rest;
  }

  lemma CharRoundTrip(c: char, rest: string)
    ensures ReadChar(EscapeChar(c) + rest) == Got(c, rest)
    ensures EscapeChar(c) != "" && EscapeChar(c)[0] != '\"'
  {
    if HasShortEscape(c) {
      ShortRoundTrip(c, rest);
    } else if c < ' ' {
      ControlRoundTrip(c, rest);
    } else {
      assert ([c] + rest)[1..] == rest;
    }
  }

  lemma {:induction false} CharsRoundTrip(text: string, rest: string)
    ensures ReadChars(Escaped(text) + "\"" + rest) == Got(text, rest)
  {
    var s := Escaped(text) + "\"" + rest;
    if text == "" {
      assert s == "\"" + rest;
    } else {
      var more := Escaped(text[1..]) + "\"" + rest;
      assert s == EscapeChar(text[0]) + more;
      CharRoundTrip(text[0], more);
      CharsRoundTrip(text[1..], rest);
      assert text == [text[0]] + text[1..];
    }
  }

  lemma QuotedRoundTrip(text: string, rest: string)
    ensures ReadQuoted(Quoted(text) + rest) == Got(text, rest)
    ensures (Quoted(text) + rest)[0] == '\"'
  {
    assert (Quoted(text) + rest)[1..] == Escaped(text) + "\"" + rest;
    CharsRoundTrip(text, rest);
  }

  lemma {:induction false} DigitsRoundTrip(digits: string, rest: string)
    requires Delimited(rest) && forall c :: c in digits ==> NumberChar(c)
    ensures ReadDigits(digits + rest) == Got(digits, rest)
  {
    if digits == "" {
      assert digits + rest == rest;
    } else {
      assert digits == [digits[0]] + digits[1..];
      assert (digits + rest)[1..] == digits[1..] + rest;
      DigitsRoundTrip(digits[1..], rest);
    }
  }

  /** A value never starts with a closing bracket, so an array that is not empty is not taken for an empty one. */
  lemma FirstChar(v: Value)
    requires WellFormed(v)
    ensures Text(v) != "" && Text(v)[0] != ']'
  {
    if v.Number? {
      assert v.digits[0] in v.digits;
    }
  }

  lemma ArrayRoundTrip(items: List<Value>, rest: string)
    requires WellFormedItems(items)
    requires items.Cons? ==> ReadItems(ItemsText(items) + rest) == Got(items, rest)
    ensures ReadValue(Text(Array(items)) + rest) == Got(Array(items), rest)
  {
    var body := ItemsText(items);
    Glue('[', body, rest);
    if items.Cons? {
      FirstChar(items.head);
      assert (body + rest)[0] == Text(items.head)[0];
    } else {
      assert ("[" + body + rest)[2..] == rest;
    }
  }

  lemma ObjectRoundTrip(members: List<Member>, rest: string)
    requires members.Cons? ==> ReadMembers(MembersText(members) + rest) == Got(members, rest)
    ensures ReadValue(Text(Object(members)) + rest) == Got(Object(members), rest)
  {
    var body := MembersText(members);
    Glue('{', body, rest);
    if members.Cons? {
      assert (body + rest)[0] == Quoted(members.head.key)[0] == '\"';
    } else {
      assert ("{" + body + rest)[2..] == rest;
    }
  }

  /** Reading the text of a value gives the value back and stops right behind it. */
  lemma {:induction false} ValueRoundTrip(v: Value, rest: string)
    requires WellFormed(v) && (v.Number? ==> Delimited(rest))
    ensures ReadValue(Text(v) + rest) == Got(v, rest)
    decreases v
  {
    match v
    case Null =>
      assert ("null" + rest)[4..] == rest;
    case Bool(truth) =>
      assert (Text(v) + rest)[|Text(v)|..] == rest;
    case Number(digits) =>
      assert digits[0] in digits;
      DigitsRoundTrip(digits, rest);
    case Str(text) =>
      QuotedRoundTrip(text, rest);
    case Array(items) =>
      if items.Cons? {
        ItemsRoundTrip(items, rest);
      }
      ArrayRoundTrip(items, rest);
    case Object(members) =>
      if members.Cons? {
        MembersRoundTrip(members, rest);
      }
      ObjectRoundTrip(members, rest);
  }

  lemma {:induction false} ItemsRoundTrip(vs: List<Value>, rest: string)
    requires WellFormedItems(vs) && vs.Cons?
    ensures ReadItems(ItemsText(vs) + rest) == Got(vs, rest)
    decreases vs
  {
    var after := MoreItems(vs.tail) + rest;
    Assoc(Text(vs.head), MoreItems(vs.tail), rest);
    ValueRoundTrip(vs.head, after);
    if vs.tail.Cons? {
      Glue(',', ItemsText(vs.tail), rest);
      ItemsRoundTrip(vs.tail, rest);
    } else {
      Glue(']', "", rest);
    }
  }

  lemma {:induction false} MemberRoundTrip(m: Member, rest: string)
    requires WellFormed(m.value) && Delimited(rest)
    ensures ReadMember(MemberText(m) + rest) == Got(m, rest)
    decreases m, 0
  {
    var after := Text(m.value) + rest;
    Assoc(Quoted(m.key), ":" + Text(m.value), rest);
    Glue(':', Text(m.value), rest);
    QuotedRoundTrip(m.key, [':'] + after);
    ValueRoundTrip(m.value, rest);
  }

  lemma {:induction false} MembersRoundTrip(ms: List<Member>, rest: string)
    requires WellFormedMembers(ms) && ms.Cons?
    ensures ReadMembers(MembersText(ms) + rest) == Got(ms, rest)
    decreases ms
  {
    var after := MoreMembers(ms.tail) + rest;
    Assoc(MemberText(ms.head), MoreMembers(ms.tail), rest);
    MemberRoundTrip(ms.head, after);
    if ms.tail.Cons? {
      Glue(',', MembersText(ms.tail), rest);
      MembersRoundTrip(ms.tail, rest);
    } else {
      Glue('}', "", rest);
    }
  }

  /** Canonical text is uniquely decodable, whatever follows it: the reader finds the document, keys in order. */
  lemma CanonicalRoundTrip(v: Value, rest: string)
    requires WellFormed(v) && (v.Number? ==> Delimited(rest))
    ensures ReadValue(Canonical(v) + rest) == Got(Normalise(v), rest)
  {
    NormaliseWellFormed(v);
    ValueRoundTrip(Normalise(v), rest);
  }

  /** Two documents are signed as the same text exactly when they are the same document. */
  lemma CanonicalDecides(v: Value, w: Value)
    requires WellFormed(v) && WellFormed(w)
    ensures Canonical(v) == Canonical(w) <==> SameDocument(v, w)
  {
    CanonicalRoundTrip(v, "");
    CanonicalRoundTrip(w, "");
    assert Canonical(v) + "" == Canonical(v) && Canonical(w) + "" == Canonical(w);
    NormaliseDecides(v, w);
  }

  class Buffer {
    var text: string

    constructor ()
      ensures text == ""
    {
      text := "";
    }

    method Push(more: string)
      modifies this
      ensures text == old(text) + more
    {
      text := text + more;
    }
  }

  /** Appends the canonical text of a value, sorting the keys of each object on the way. */
  method WriteCanonical(v: Value, out: Buffer)
    modifies out
    ensures out.text == old(out.text) + Canonical(v)
    decreases Size(v), 1
  {
    match v
    case Object(members) => WriteObject(members, out);
    case Array(items) => WriteArray(items, out);
    case other =>
      out.Push(Text(other));
  }

  method WriteArray(items: List<Value>, out: Buffer)
    modifies out
    ensures out.text == old(out.text) + Canonical(Array(items))
    decreases ItemsSize(items) + 1, 0
  {
    ghost var goal := old(out.text) + Canonical(Array(items));
    Assoc(old(out.text), "[", ItemsText(NormaliseItems(items)));
    out.Push("[");
    var left, i := items, 0;
    while left.Cons?
      invariant ItemsSize(left) <= ItemsSize(items)
      invariant i == 0 ==> out.text + ItemsText(NormaliseItems(left)) == goal
      invariant i > 0 ==> out.text + MoreItems(NormaliseItems(left)) == goal
      decreases left
    {
      ghost var todo, after := ItemsText(NormaliseItems(left)), MoreItems(NormaliseItems(left.tail));
      if i > 0 {
        Assoc(out.text, ",", todo);
        out.Push(",");
      }
      Assoc(out.text, Canonical(left.head), after);
      WriteCanonical(left.head, out);
      left, i := left.tail, i + 1;
    }
    out.Push("]");
  }

  method WriteMember(m: Member, out: Buffer)
    modifies out
    ensures out.text == old(out.text) + MemberText(Member(m.key, Normalise(m.value)))
    decreases Size(m.value), 2
  {
    Assoc(old(out.text), Quoted(m.key), ":");
    Assoc(old(out.text), Quoted(m.key) + ":", Canonical(m.value));
    Assoc(Quoted(m.key), ":", Canonical(m.value));
    out.Push(Quoted(m.key));
    out.Push(":");
    WriteCanonical(m.value, out);
  }

  method WriteObject(members: List<Member>, out: Buffer)
    modifies out
    ensures out.text == old(out.text) + Canonical(Object(members))
    decreases MembersSize(members) + 1, 0
  {
    ghost var goal := old(out.text) + Canonical(Object(members));
    SortThenNormalise(members);
    Assoc(old(out.text), "{", MembersText(NormaliseMembers(members)));
    out.Push("{");
    var left, i := Sort(members), 0;
    while left.Cons?
      invariant MembersSize(left) <= MembersSize(members)
      invariant i == 0 ==> out.text + MembersText(NormaliseEach(left)) == goal
      invariant i > 0 ==> out.text + MoreMembers(NormaliseEach(left)) == goal
      decreases left
    {
      ghost var todo, after := MembersText(NormaliseEach(left)), MoreMembers(NormaliseEach(left.tail));
      ghost var m := Member(left.head.key, Normalise(left.head.value));
      if i > 0 {
        Assoc(out.text, ",", todo);
        out.Push(",");
      }
      Assoc(out.text, MemberText(m), after);
      WriteMember(left.head, out);
      left, i := left.tail, i + 1;
    }
    out.Push("}");
  }

  /** The escapes of serde_json: seven by a letter or themselves, other control characters by two hex digits. */
  lemma EscapesOf(c: char)
    ensures EscapeChar('\"') == "\\\"" && EscapeChar('\\') == "\\\\"
    ensures EscapeChar(8 as char) == "\\b" && EscapeChar(12 as char) == "\\f"
    ensures EscapeChar('\t') == "\\t" && EscapeChar('\n') == "\\n" && EscapeChar('\r') == "\\r"
    ensures c < ' ' && c !in {8 as char, 12 as char, '\t', '\n', '\r'} ==>
              EscapeChar(c) == "\\u00" + [if c < 16 as char then '0' else '1', "0123456789abcdef"[c as int % 16]]
    ensures c >= ' ' && c != '\"' && c != '\\' ==> EscapeChar(c) == [c]
  {
  }

  /** Text without quotes, backslashes and control characters is written as it is. */
  lemma {:induction false} PlainTextIsKept(text: string)
    requires forall i :: 0 <= i < |text| ==> text[i] >= ' ' && text[i] != '\"' && text[i] != '\\'
    ensures Escaped(text) == text
  {
    if text != "" {
      PlainTextIsKept(text[1..]);
      assert text == [text[0]] + text[1..];
    }
  }

  /** Words and punctuation are compact: no white space between tokens, and none at the ends. */
  lemma Words(text: string)
    ensures Text(Null) == "null" && Text(Bool(true)) == "true" && Text(Bool(false)) == "false"
    ensures Text(Array(Nil)) == "[]" && Text(Object(Nil)) == "{}"
    ensures Text(Str(text)) == "\"" + Escaped(text) + "\""
  {
  }

  lemma ItemPunctuation(v: Value, w: Value)
    ensures Text(Array(Cons(v, Cons(w, Nil)))) == "[" + Text(v) + "," + Text(w) + "]"
  {
    hide Escaped, Quoted, EscapeChar;
    var a, b := Text(v), Text(w);
    assert ItemsText(Cons(w, Nil)) == b + "]";
    assert ItemsText(Cons(v, Cons(w, Nil))) == a + ("," + (b + "]"));
    AssocRight("[", a, ",", b + "]");
    Assoc("[" + a + ",", b, "]");
  }

  lemma MemberPunctuation(m: Member, n: Member)
    ensures Text(Object(Cons(m, Cons(n, Nil)))) == "{" + MemberText(m) + "," + MemberText(n) + "}"
    ensures MemberText(m) == Text(Str(m.key)) + ":" + Text(m.value)
  {
    hide Escaped, Quoted, EscapeChar;
    var a, b := MemberText(m), MemberText(n);
    assert MembersText(Cons(n, Nil)) == b + "}";
    assert MembersText(Cons(m, Cons(n, Nil))) == a + ("," + (b + "}"));
    AssocRight("{", a, ",", b + "}");
    Assoc("{" + a + ",", b, "}");
    Assoc(Text(Str(m.key)), ":", Text(m.value));
  }

  /** The text that is signed for a document: that of the one form of it in which all keys ascend. */
  method TextToSign(v: Value) returns (text: string)
    ensures text == Canonical(v)
    ensures WellFormed(v) ==> exists d :: SameDocument(v, d) && Ascends(d) && text == Text(d)
  {
    var out := new Buffer();
    WriteCanonical(v, out);
    text := out.text;
    if WellFormed(v) {
      NormaliseIsSame(v);
      NormaliseAscends(v);
    }
  }
}
