/**
 The line format of the spool, one JSON object per line (apps/trace-station/src/spool.rs), and why
 damaged lines cannot be mistaken for records: what is left of a cut line and whatever is written
 behind it never read as one value.
 */
module SpoolJson {
  import opened Collections
  import opened Json
  import opened CanonicalJson
  import opened Spool

  function Fields(r: Record): List<Member> {
    Cons(Member("id", Str(r.id)),
         Cons(Member("topic", Str(r.topic)), Cons(Member("payload", r.payload), LastFields(r))))
  }

  function LastFields(r: Record): List<Member> {
    Cons(Member("recorded_at", Str(r.recordedAt)), Cons(Member("attempts", Number(Decimal(r.attempts))), Nil))
  }

  function Line(r: Record): string {
    Text(Object(Fields(r)))
  }

  /** The record that an object holds, by its field names in any order; attempts default to none. */
  function FromFields(ms: List<Member>): Option<Record> {
    var id, topic, payload, at, attempts :=
      Get(ms, "id"), Get(ms, "topic"), Get(ms, "payload"), Get(ms, "recorded_at"), Get(ms, "attempts");
    if id.Some? && id.value.Str? && topic.Some? && topic.value.Str? && payload.Some? && WellFormed(payload.value)
       && at.Some? && at.value.Str? && (attempts.Some? ==> attempts.value.Number?)
    then Some(Record(id.value.text, topic.value.text, payload.value, at.value.text,
                     if attempts.Some? then DecimalValue(attempts.value.digits) else 0))
    else None
  }

  /** Reads a line that is one JSON object and nothing else. */
  function FromLine(line: string): Option<Record> {
    var r := ReadValue(line);
    if r.Got? && r.rest == "" && r.value.Object? then FromFields(r.value.members) else None
  }

  function JsonLines(): Codec {
    Codec(Line, FromLine)
  }

  // ------------------------------------------------------------ whole lines

  lemma DecimalIsNumber(n: nat)
    ensures WellFormed(Number(Decimal(n)))
  {
  }

  lemma OneMoreField(key: string, v: Value, ms: List<Member>)
    requires WellFormed(v) && WellFormedMembers(ms) && !HasKey(ms, key)
    ensures WellFormedMembers(Cons(Member(key, v), ms))
    ensures forall other :: HasKey(Cons(Member(key, v), ms), other) <==> other == key || HasKey(ms, other)
  {
  }

  lemma FieldsWellFormed(r: Record)
    ensures WellFormedMembers(Fields(r))
  {
    DecimalIsNumber(r.attempts);
    assert |"id"| == 2 && |"topic"| == 5 && |"payload"| == 7 && |"attempts"| == 8 && |"recorded_at"| == 11;
    var one := Cons(Member("attempts", Number(Decimal(r.attempts))), Nil);
    OneMoreField("attempts", Number(Decimal(r.attempts)), Nil);
    OneMoreField("recorded_at", Str(r.recordedAt), one);
    var three := Cons(Member("payload", r.payload), LastFields(r));
    OneMoreField("payload", r.payload, LastFields(r));
    OneMoreField("topic", Str(r.topic), three);
    OneMoreField("id", Str(r.id), Cons(Member("topic", Str(r.topic)), three));
  }

  function Labelled(name: string, text: string): string {
    "\"" + name + "\":" + text
  }

  lemma FieldText(key: string, v: Value)
    requires forall i :: 0 <= i < |key| ==> key[i] == '_' || 'a' <= key[i] <= 'z'
    ensures MemberText(Member(key, v)) == Labelled(key, Text(v))
  {
    hide Text;
    PlainTextIsKept(key);
    assert "\":" == "\"" + ":";
    assert "\"" + key + "\"" + (":" + Text(v)) == "\"" + key + ("\"" + ":") + Text(v);
  }

  lemma MembersAre(m: Member, rest: List<Member>)
    ensures rest.Nil? ==> MembersText(Cons(m, rest)) == MemberText(m) + "}"
    ensures rest.Cons? ==> MembersText(Cons(m, rest)) == MemberText(m) + ("," + MembersText(rest))
    ensures Text(Object(Cons(m, rest))) == "{" + MembersText(Cons(m, rest))
  {
  }

  /** The line of a record: its fields in their order, without white space. */
  lemma LineLayout(r: Record)
    ensures Line(r) == "{" + (Labelled("id", Text(Str(r.id))) + ("," + (Labelled("topic", Text(Str(r.topic)))
      + ("," + (Labelled("payload", Text(r.payload)) + ("," + (Labelled("recorded_at", Text(Str(r.recordedAt)))
      + ("," + (Labelled("attempts", Text(Number(Decimal(r.attempts)))) + "}")))))))))
  {
    hide Text, MembersText, MemberText, Decimal, Labelled;
    var attempts := Number(Decimal(r.attempts));
    var four := LastFields(r);
    var three := Cons(Member("payload", r.payload), four);
    var two := Cons(Member("topic", Str(r.topic)), three);
    FieldText("id", Str(r.id));
    FieldText("topic", Str(r.topic));
    FieldText("payload", r.payload);
    FieldText("recorded_at", Str(r.recordedAt));
    FieldText("attempts", attempts);
    MembersAre(Member("id", Str(r.id)), two);
    MembersAre(Member("topic", Str(r.topic)), three);
    MembersAre(Member("payload", r.payload), four);
    MembersAre(Member("recorded_at", Str(r.recordedAt)), Cons(Member("attempts", attempts), Nil));
    MembersAre(Member("attempts", attempts), Nil);
  }

  lemma FieldsAreFound(r: Record)
    ensures Get(Fields(r), "id") == Some(Str(r.id)) && Get(Fields(r), "topic") == Some(Str(r.topic))
    ensures Get(Fields(r), "payload") == Some(r.payload) && Get(Fields(r), "recorded_at") == Some(Str(r.recordedAt))
    ensures Get(Fields(r), "attempts") == Some(Number(Decimal(r.attempts)))
  {
    var three := Cons(Member("payload", r.payload), LastFields(r));
    var four := Cons(Member("topic", Str(r.topic)), three);
    assert Get(three, "payload") == Some(r.payload);
    assert Get(three, "recorded_at") == Get(LastFields(r), "recorded_at") == Some(Str(r.recordedAt));
    assert Get(three, "attempts") == Get(LastFields(r), "attempts") == Some(Number(Decimal(r.attempts)));
    assert Get(four, "topic") == Some(Str(r.topic)) && Get(four, "payload") == Some(r.payload);
    assert Get(four, "recorded_at") == Get(three, "recorded_at") && Get(four, "attempts") == Get(three, "attempts");
  }

  lemma LineReads(r: Record, rest: string)
    ensures ReadValue(Line(r) + rest) == Got(Object(Fields(r)), rest)
  {
    FieldsWellFormed(r);
    ValueRoundTrip(Object(Fields(r)), rest);
  }

  lemma LineRoundTrip(r: Record)
    ensures FromLine(Line(r)) == Some(r)
  {
    LineReads(r, "");
    assert Line(r) + "" == Line(r);
    FieldsAreFound(r);
    DecimalRoundTrip(r.attempts);
  }

  /** The fields of a line are read by their names, in any order and among others; attempts may be missing. */
  lemma ReadsByName(r: Record, ms: List<Member>)
    requires WellFormedMembers(ms)
    requires Get(ms, "id") == Some(Str(r.id)) && Get(ms, "topic") == Some(Str(r.topic))
    requires Get(ms, "payload") == Some(r.payload) && Get(ms, "recorded_at") == Some(Str(r.recordedAt))
    ensures Get(ms, "attempts") == Some(Number(Decimal(r.attempts))) ==> FromLine(Text(Object(ms))) == Some(r)
    ensures Get(ms, "attempts").None? ==> FromLine(Text(Object(ms))) == Some(r.(attempts := 0))
  {
    ValueRoundTrip(Object(ms), "");
    assert Text(Object(ms)) + "" == Text(Object(ms));
    DecimalRoundTrip(r.attempts);
  }

  /** No character below the space. */
  predicate Printable(s: string) {
    forall c :: c in s ==> c >= ' '
  }

  lemma EscapePrintable(c: char)
    ensures Printable(EscapeChar(c))
  {
  }

  lemma {:induction false} EscapedPrintable(text: string)
    ensures Printable(Escaped(text))
  {
    if text != "" {
      EscapePrintable(text[0]);
      EscapedPrintable(text[1..]);
    }
  }

  lemma QuotedPrintable(text: string)
    ensures Printable(Quoted(text))
  {
    EscapedPrintable(text);
  }

  lemma {:induction false} TextPrintable(v: Value)
    requires WellFormed(v)
    ensures Printable(Text(v))
    decreases v
  {
    match v
    case Str(text) => QuotedPrintable(text);
    case Array(items) => ItemsPrintable(items);
    case Object(members) => MembersPrintable(members);
    case _ =>
  }

  lemma {:induction false} ItemsPrintable(vs: List<Value>)
    requires WellFormedItems(vs)
    ensures Printable(ItemsText(vs))
    decreases vs
  {
    if vs.Cons? {
      TextPrintable(vs.head);
      ItemsPrintable(vs.tail);
    }
  }

  lemma {:induction false} MembersPrintable(ms: List<Member>)
    requires WellFormedMembers(ms)
    ensures Printable(MembersText(ms))
    decreases ms
  {
    if ms.Cons? {
      QuotedPrintable(ms.head.key);
      TextPrintable(ms.head.value);
      MembersPrintable(ms.tail);
    }
  }

  lemma LineStarts(r: Record)
    ensures |Line(r)| > 3 && Line(r)[0] == '{' && Line(r)[1] == '\"' && Line(r)[2] == 'i'
  {
    assert EscapeChar('i') == "i" && Escaped("id") == "i" + Escaped("d");
    var key, more := Quoted("id"), MemberText(Member("id", Str(r.id)));
    assert key[0] == '\"' && key[1] == 'i' && more[..|key|] == key && |key| > 2;
    assert MembersText(Fields(r))[..|more|] == more;
  }

  lemma LineIsOneLine(r: Record)
    ensures '\n' !in Line(r) && '\r' !in Line(r) && !IsBlank(Line(r))
  {
    FieldsWellFormed(r);
    TextPrintable(Object(Fields(r)));
    LineStarts(r);
    assert Line(r)[0] in Line(r);
  }

  // ------------------------------------------------------------ lines cut short

  /** Text made of beginnings of lines, as torn writes leave it at the end of the file. */
  ghost predicate Junk(s: string) {
    exists count: nat :: Pieces(JsonLines(), s, count)
  }

  /** The first of the pieces, and the rest. */
  lemma {:induction false} FrontPiece(s: string, count: nat) returns (r: Record, k: nat, rest: string)
    requires Pieces(JsonLines(), s, count) && count > 0
    ensures 0 < k <= |Line(r)| && s == Line(r)[..k] + rest && Pieces(JsonLines(), rest, count - 1)
    decreases count
  {
    var before, last, n: nat :|
      Pieces(JsonLines(), before, count - 1) && Cut(JsonLines(), last, n) && s == before + Line(last)[..n];
    if count == 1 {
      r, k, rest := last, n, "";
      assert s == Line(last)[..n] + "";
    } else {
      var mid;
      r, k, mid := FrontPiece(before, count - 1);
      rest := mid + Line(last)[..n];
      Assoc(Line(r)[..k], mid, Line(last)[..n]);
      assert Pieces(JsonLines(), mid, count - 1 - 1) && Pieces(JsonLines(), rest, count - 1);
    }
  }

  lemma JunkStarts(s: string)
    requires Junk(s) && s != ""
    ensures s[0] == '{'
  {
    var count: nat :| Pieces(JsonLines(), s, count);
    var r, k, rest := FrontPiece(s, count);
    LineStarts(r);
    assert s[0] == Line(r)[..k][0];
  }

  /** What follows cannot go on after a value, a key or a string: nothing, a brace, or a letter. */
  predicate DeadEnd(rest: string) {
    rest == "" || rest[0] == '{' || rest[0] == 'i'
  }

  predicate Stuck<T>(r: Read<T>) {
    r.Got? ==> DeadEnd(r.rest)
  }

  /** A proper prefix of two texts in a row ends in the first, or goes through it and ends in the second. */
  lemma SplitPrefix(p: string, a: string, b: string)
    requires p < a + b
    ensures p < a || (a <= p && p == a + p[|a|..] && p[|a|..] < b)
  {
    if |p| < |a| {
      assert p == (a + b)[..|p|] == a[..|p|];
    } else {
      assert p[..|a|] == (a + b)[..|p|][..|a|] == a;
      assert p[|a|..] == (a + b)[..|p|][|a|..] == b[..|p| - |a|];
    }
  }

  /** A string that was cut off and goes on into the next lines ends in front of a letter or a brace. */
  lemma {:induction false} CharsIntoJunk(s: string)
    requires Junk(s)
    ensures Stuck(ReadChars(s))
    decreases |s|
  {
    if s != "" {
      var count: nat :| Pieces(JsonLines(), s, count);
      var r, k, rest := FrontPiece(s, count);
      LineStarts(r);
      assert s[0] == Line(r)[..k][0] == '{';
      if k == 1 {
        assert s[1..] == rest;
        CharsIntoJunk(rest);
      } else {
        assert s[1] == Line(r)[..k][1] == '\"';
        if k == 2 {
          assert s[1..][1..] == rest;
          if rest != "" {
            JunkStarts(rest);
          }
        } else {
          assert s[1..][1..][0] == s[2] == Line(r)[..k][2] == 'i';
        }
      }
    }
  }

  /** An escape cut short is not completed by the brace of the next line. */
  lemma CutEscape(c: char, p: string, s: string)
    requires p < EscapeChar(c) && p != "" && (s != "" ==> s[0] == '{')
    ensures ReadChar(p + s).Lost? && p[0] == '\\'
  {
    var e := EscapeChar(c);
    assert p[0] == e[0] == '\\';
    if s != "" {
      assert (p + s)[|p|] == '{';
    }
    if |p| > 1 {
      assert p[1] == e[1] == 'u' && (p + s)[1] == 'u';
      if |p| > 2 { assert (p + s)[2] == p[2]; }
    } 
  }

  lemma {:induction false} CutChars(text: string, p: string, s: string)
    requires p < Escaped(text) + "\"" && Junk(s)
    ensures Stuck(ReadChars(p + s))
  {
    if p == "" {
      assert p + s == s;
      CharsIntoJunk(s);
    } else {
      assert text == "" ==> Escaped(text) + "\"" == "\"";
      var e, more := EscapeChar(text[0]), Escaped(text[1..]) + "\"";
      Assoc(e, Escaped(text[1..]), "\"");
      SplitPrefix(p, e, more);
      if p < e {
        if s != "" {
          JunkStarts(s);
        }
        CutEscape(text[0], p, s);
        assert (p + s)[0] == '\\';
      } else {
        var tail := p[|e|..];
        Assoc(e, tail, s);
        CharRoundTrip(text[0], tail + s);
        assert (p + s)[0] == e[0];
        CutChars(text[1..], tail, s);
      }
    }
  }

  lemma CutTail(c: char, body: string, p: string, s: string)
    requires p < [c] + body && p != ""
    ensures p[1..] < body && (p + s)[1..] == p[1..] + s && (p + s)[0] == p[0] == c
  {
    assert p == ([c] + body)[..|p|] && p[1..] == body[..|p| - 1];
  }

  lemma CutQuoted(text: string, p: string, s: string)
    requires p < Quoted(text) && Junk(s)
    ensures Stuck(ReadQuoted(p + s))
  {
    if p == "" {
      assert p + s == s;
      if s != "" {
        JunkStarts(s);
      }
    } else {
      var body := Escaped(text) + "\"";
      Assoc("\"", Escaped(text), "\"");
      CutTail('\"', body, p, s);
      CutChars(text, p[1..], s);
    }
  }

  lemma {:induction false} CutDigits(digits: string, p: string, s: string)
    requires p < digits && p != "" && (forall c :: c in digits ==> NumberChar(c)) && Junk(s)
    ensures ReadDigits(p + s) == Got(p, s)
  {
    if s != "" {
      JunkStarts(s);
    }
    forall c | c in p
      ensures NumberChar(c)
    {
      assert c in digits;
    }
    DigitsRoundTrip(p, s);
  }

  lemma CutWord(word: string, p: string, s: string, v: Value)
    requires p < word && p != "" && (forall c :: c in word ==> c != '{') && Junk(s)
    ensures ReadWord(p + s, word, v).Lost?
  {
    if s != "" {
      JunkStarts(s);
      assert (p + s)[|p|] == '{' && word[|p|] in word;
    }
  }

  /** A value that was to start where the cut is. */
  lemma {:induction false} ValueIntoJunk(s: string)
    requires Junk(s)
    ensures Stuck(ReadValue(s)) && Stuck(ReadQuoted(s))
    decreases |s|, 0, Null
  {
    if s != "" {
      var count: nat :| Pieces(JsonLines(), s, count);
      var r, k, rest := FrontPiece(s, count);
      JunkStarts(s);
      FieldsWellFormed(r);
      if k == |Line(r)| {
        assert Line(r)[..k] == Line(r);
        LineReads(r, rest);
        if rest != "" {
          JunkStarts(rest);
        }
      } else {
        CutValue(Object(Fields(r)), Line(r)[..k], rest);
      }
    }
  }

  /** A value that was cut off is not completed by the next lines, and an object least of all. */
  lemma {:induction false} CutValue(v: Value, p: string, s: string)
    requires WellFormed(v) && p < Text(v) && p != "" && Junk(s)
    ensures Stuck(ReadValue(p + s))
    ensures v.Object? ==> ReadValue(p + s).Lost?
    decreases |s|, 1, v
  {
    assert (p + s)[0] == p[0] == Text(v)[0];
    match v
    case Null => CutWord("null", p, s, Null);
    case Bool(truth) => CutWord(Text(v), p, s, v);
    case Number(digits) =>
      assert digits[0] in digits;
      CutDigits(digits, p, s);
      if s != "" {
        JunkStarts(s);
      }
    case Str(text) => CutQuoted(text, p, s);
    case Array(items) =>
      CutTail('[', ItemsText(items), p, s);
      CutItems(items, p[1..], s);
      CutArray(items, p, s);
    case Object(members) =>
      CutTail('{', MembersText(members), p, s);
      CutMembers(members, p[1..], s);
      CutObject(members, p, s);
  }

  lemma CutIsNotClosed(items: List<Value>, p: string, s: string)
    requires WellFormedItems(items) && p < ItemsText(items) && Junk(s)
    ensures !("]" <= p + s)
  {
    if p == "" {
      assert p + s == s;
      if s != "" {
        JunkStarts(s);
      }
    } else {
      FirstChar(items.head);
      assert (p + s)[0] == p[0] == ItemsText(items)[0] == Text(items.head)[0];
    }
  }

  lemma CutIsNotEnded(members: List<Member>, p: string, s: string)
    requires p < MembersText(members) && Junk(s)
    ensures !("}" <= p + s)
  {
    if p == "" {
      assert p + s == s;
      if s != "" {
        JunkStarts(s);
      }
    } else {
      assert (p + s)[0] == p[0] == MembersText(members)[0] == MemberText(members.head)[0] == '\"';
    }
  }

  lemma CutArray(items: List<Value>, p: string, s: string)
    requires WellFormedItems(items) && p != "" && p < Text(Array(items)) && Junk(s)
    requires ReadItems(p[1..] + s).Lost?
    ensures ReadValue(p + s).Lost?
  {
    CutTail('[', ItemsText(items), p, s);
    CutIsNotClosed(items, p[1..], s);
  }

  lemma CutObject(members: List<Member>, p: string, s: string)
    requires p != "" && p < Text(Object(members)) && Junk(s)
    requires ReadMembers(p[1..] + s).Lost?
    ensures ReadValue(p + s).Lost?
  {
    CutTail('{', MembersText(members), p, s);
    CutIsNotEnded(members, p[1..], s);
  }

  lemma StuckItems(t: string)
    requires Stuck(ReadValue(t))
    ensures ReadItems(t).Lost?
  {
  }

  lemma LostAfterItem(t: string)
    requires ReadValue(t).Got? && ReadValue(t).rest != "" && ReadValue(t).rest[0] == ','
    requires ReadItems(ReadValue(t).rest[1..]).Lost?
    ensures ReadItems(t).Lost?
  {
  }

  lemma {:induction false} CutItems(vs: List<Value>, p: string, s: string)
    requires WellFormedItems(vs) && p < ItemsText(vs) && Junk(s)
    ensures ReadItems(p + s).Lost?
    decreases |s|, 1, vs
  {
    if p == "" {
      assert p + s == s;
      ValueIntoJunk(s);
      StuckItems(s);
    } else {
      SplitPrefix(p, Text(vs.head), MoreItems(vs.tail));
      if p < Text(vs.head) {
        CutValue(vs.head, p, s);
        StuckItems(p + s);
      } else {
        var after := p[|Text(vs.head)|..];
        Assoc(Text(vs.head), after, s);
        ItemThen(vs, after, s);
        if after == "" {
          StuckItems(p + s);
        } else {
          CutTail(',', ItemsText(vs.tail), after, s);
          CutItems(vs.tail, after[1..], s);
          LostAfterItem(p + s);
        }
      }
    }
  }

  lemma ItemThen(vs: List<Value>, after: string, s: string)
    requires WellFormedItems(vs) && vs.Cons? && after < MoreItems(vs.tail) && Junk(s)
    ensures ReadValue(Text(vs.head) + (after + s)) == Got(vs.head, after + s)
    ensures after == "" ==> DeadEnd(after + s)
  {
    if after == "" {
      assert after + s == s;
      if s != "" {
        JunkStarts(s);
      }
    } else {
      assert (after + s)[0] == after[0] == MoreItems(vs.tail)[0];
    }
    ValueRoundTrip(vs.head, after + s);
  }

  lemma {:induction false} CutMember(m: Member, p: string, s: string)
    requires WellFormed(m.value) && p < MemberText(m) && Junk(s)
    ensures Stuck(ReadMember(p + s))
    decreases |s|, 1, m, 0
  {
    var key, value := Quoted(m.key), ":" + Text(m.value);
    SplitPrefix(p, key, value);
    if p < key {
      CutQuoted(m.key, p, s);
    } else {
      var after := p[|key|..];
      Assoc(key, after, s);
      QuotedRoundTrip(m.key, after + s);
      if after == "" {
        assert after + s == s;
        if s != "" {
          JunkStarts(s);
        }
      } else {
        var rest := after[1..];
        assert after[0] == ':' && rest < Text(m.value) && (after + s)[1..] == rest + s;
        if rest == "" {
          assert rest + s == s;
          ValueIntoJunk(s);
        } else {
          CutValue(m.value, rest, s);
        }
      }
    }
  }

  lemma StuckMembers(t: string)
    requires Stuck(ReadMember(t))
    ensures ReadMembers(t).Lost?
  {
  }

  lemma LostAfterMember(t: string)
    requires ReadMember(t).Got? && ReadMember(t).rest != "" && ReadMember(t).rest[0] == ','
    requires ReadMembers(ReadMember(t).rest[1..]).Lost?
    ensures ReadMembers(t).Lost?
  {
  }

  lemma MemberIntoJunk(s: string)
    requires Junk(s)
    ensures ReadMember(s).Lost?
  {
    if s != "" {
      JunkStarts(s);
    }
  }

  lemma {:induction false} CutMembers(ms: List<Member>, p: string, s: string)
    requires WellFormedMembers(ms) && p < MembersText(ms) && Junk(s)
    ensures ReadMembers(p + s).Lost?
    decreases |s|, 1, ms
  {
    if ms.Nil? {
      assert p + s == s;
      MemberIntoJunk(s);
      StuckMembers(s);
    } else {
      SplitPrefix(p, MemberText(ms.head), MoreMembers(ms.tail));
      if p < MemberText(ms.head) {
        CutMember(ms.head, p, s);
        StuckMembers(p + s);
      } else {
        var after := p[|MemberText(ms.head)|..];
        Assoc(MemberText(ms.head), after, s);
        MemberThen(ms, after, s);
        if after == "" {
          StuckMembers(p + s);
        } else {
          CutTail(',', MembersText(ms.tail), after, s);
          CutMembers(ms.tail, after[1..], s);
          LostAfterMember(p + s);
        }
      }
    }
  }

  lemma MemberThen(ms: List<Member>, after: string, s: string)
    requires WellFormedMembers(ms) && ms.Cons? && after < MoreMembers(ms.tail) && Junk(s)
    ensures ReadMember(MemberText(ms.head) + (after + s)) == Got(ms.head, after + s)
    ensures after == "" ==> DeadEnd(after + s)
  {
    if after == "" {
      assert after + s == s;
      if s != "" {
        JunkStarts(s);
      }
    } else {
      assert (after + s)[0] == after[0] == MoreMembers(ms.tail)[0];
    }
    MemberRoundTrip(ms.head, after + s);
  }

  // ------------------------------------------------------------ the format is sound

  lemma CutLineIsJunk(r: Record, k: nat)
    requires 0 < k < |Line(r)|
    ensures FromLine(Line(r)[..k]) == None
  {
    FieldsWellFormed(r);
    assert Pieces(JsonLines(), "", 0);
    assert Line(r)[..k] + "" == Line(r)[..k];
    CutValue(Object(Fields(r)), Line(r)[..k], "");
  }

  lemma GluedLinesAreJunk(text: string, count: nat)
    requires Pieces(JsonLines(), text, count) && count >= 2
    ensures FromLine(text) == None
  {
    var r, k, rest := FrontPiece(text, count);
    var s, n, more := FrontPiece(rest, count - 1);
    if k == |Line(r)| {
      assert Line(r)[..k] == Line(r);
      LineReads(r, rest);
      assert rest != "";
    } else {
      FieldsWellFormed(r);
      CutValue(Object(Fields(r)), Line(r)[..k], rest);
    }
  }

  /** Everything the spool relies on holds for its lines of JSON. */
  lemma JsonLinesAreSound()
    ensures Sound(JsonLines())
  {
    var codec := JsonLines();
    forall r
      ensures codec.decode(codec.encode(r)) == Some(r)
      ensures '\n' !in codec.encode(r) && '\r' !in codec.encode(r) && !IsBlank(codec.encode(r))
    {
      LineRoundTrip(r);
      LineIsOneLine(r);
    }
    forall r, k: nat | Cut(codec, r, k) && k < |codec.encode(r)|
      ensures codec.decode(codec.encode(r)[..k]) == None
    {
      CutLineIsJunk(r, k);
    }
    forall text, count: nat | Pieces(codec, text, count) && count >= 2
      ensures codec.decode(text) == None
    {
      GluedLinesAreJunk(text, count);
    }
  }
}
