/** What escaping keeps of a value (crates/trace-mark/src/zpl.rs, escape_field). */
module ZplEscape {
  import opened Collections
  import opened Zpl

  /** Values are escaped character by character. */
  lemma {:induction false} EscapedParts(a: string, b: string)
    ensures Escaped(a + b) == Escaped(a) + Escaped(b)
  {
    if a == "" {
      assert a + b == b;
    } else {
      assert (a + b)[1..] == a[1..] + b;
      EscapedParts(a[1..], b);
      Assoc(EscapeOne(a[0]), Escaped(a[1..]), Escaped(b));
    }
  }

  /** What is sent for each character. */
  lemma EscapesOf(c: char)
    ensures Escaped("^") == "_5E" && Escaped("~") == "_7E" && Escaped("\\") == "_5C"
    ensures Escaped("\n") == " " && Escaped("\r") == " "
    ensures c !in ['^', '~', '\\', '\n', '\r'] ==> Escaped([c]) == [c]
  {
    assert [c][1..] == "" && "^"[1..] == "" && "~"[1..] == "" && "\\"[1..] == "";
    assert "\n"[1..] == "" && "\r"[1..] == "";
  }

  /** The code that a character is replaced with, undone. */
  function Decode(s: string): char {
    if "_5E" <= s then '^' else if "_7E" <= s then '~' else if "_5C" <= s then '\\' else '_'
  }

  /** Reads the three codes back and leaves everything else alone. */
  function Unescape(s: string): string {
    if s == "" then ""
    else if Decode(s) != '_' then [Decode(s)] + Unescape(s[3..])
    else [s[0]] + Unescape(s[1..])
  }

  /** No line break, and no text that already looks like one of the codes. */
  predicate Recoverable(s: string) {
    s == "" || (s[0] != '\n' && s[0] != '\r' && Decode(s) == '_' && Recoverable(s[1..]))
  }

  /** Two characters that no code starts with are in the escaped text where they are in the value. */
  lemma StartKept(a: char, b: char, s: string)
    requires a in "57" && b in "EC"
    ensures [a, b] <= Escaped(s) <==> [a, b] <= s
  {
    if s != "" && s[0] == a {
      assert Escaped(s) == [a] + Escaped(s[1..]);
      assert s[1..] != "" ==> Escaped(s[1..])[0] == EscapeOne(s[1])[0];
      assert |s| > 1 && s[1] == b ==> EscapeOne(s[1]) == [b];
    } else if s != "" {
      assert Escaped(s)[0] == EscapeOne(s[0])[0] != a;
    }
  }

  lemma DecodeKept(s: string)
    requires s != "" && s[0] == '_'
    ensures Decode(Escaped(s)) == Decode(s)
  {
    var r := s[1..];
    assert Escaped(s) == "_" + Escaped(r);
    assert s == "_" + r;
    StartKept('5', 'E', r);
    StartKept('7', 'E', r);
    StartKept('5', 'C', r);
    CodeStart('5', 'E', r);
    CodeStart('7', 'E', r);
    CodeStart('5', 'C', r);
    CodeStart('5', 'E', Escaped(r));
    CodeStart('7', 'E', Escaped(r));
    CodeStart('5', 'C', Escaped(r));
  }

  lemma CodeStart(a: char, b: char, r: string)
    ensures ['_', a, b] <= "_" + r <==> [a, b] <= r
  {
    if [a, b] <= r {
      assert ("_" + r)[..3] == ['_', a, b];
    }
    if ['_', a, b] <= "_" + r {
      assert ("_" + r)[1] == a && ("_" + r)[2] == b;
    }
  }

  lemma ConsIs(c: char, tail: string, s: string)
    requires s != ""
    ensures [c] + tail == s <==> c == s[0] && tail == s[1..]
  {
    assert s == [s[0]] + s[1..];
    assert ([c] + tail)[0] == c && ([c] + tail)[1..] == tail;
  }

  lemma CodeReadsBack(c: char, rest: string)
    requires c == '^' || c == '~' || c == '\\'
    ensures Unescape(EscapeOne(c) + rest) == [c] + Unescape(rest)
  {
    var e := EscapeOne(c) + rest;
    assert e[..3] == EscapeOne(c) && e[3..] == rest;
    assert "_5E" <= e <==> e[..3] == "_5E";
    assert "_7E" <= e <==> e[..3] == "_7E";
    assert "_5C" <= e <==> e[..3] == "_5C";
  }

  lemma OtherReadsBack(c: char, rest: string)
    requires Decode([c] + rest) == '_'
    ensures Unescape([c] + rest) == [c] + Unescape(rest)
  {
    assert ([c] + rest)[1..] == rest;
  }

  lemma UnescapeStep(s: string)
    requires s != ""
    ensures Unescape(Escaped(s)) ==
            [if s[0] == '\n' || s[0] == '\r' then ' ' else s[0]] + Unescape(Escaped(s[1..]))
            || (s[0] == '_' && Decode(s) != '_' && Unescape(Escaped(s)) != "" && Unescape(Escaped(s))[0] == Decode(s))
  {
    var rest := Escaped(s[1..]);
    if s[0] == '_' {
      DecodeKept(s);
      if Decode(s) == '_' {
        OtherReadsBack('_', rest);
      }
    } else if s[0] == '^' || s[0] == '~' || s[0] == '\\' {
      CodeReadsBack(s[0], rest);
    } else {
      var c := EscapeOne(s[0])[0];
      assert ([c] + rest)[0] == c != '_';
      OtherReadsBack(c, rest);
    }
  }

  /**
   Escaped data can be told apart from what it stands for exactly when the value had no line break and
   held none of the three codes itself: otherwise two values print alike.
   */
  lemma {:induction false} EscapeRecovers(s: string)
    ensures Unescape(Escaped(s)) == s <==> Recoverable(s)
  {
    if s != "" {
      EscapeRecovers(s[1..]);
      UnescapeStep(s);
      ConsIs(if s[0] == '\n' || s[0] == '\r' then ' ' else s[0], Unescape(Escaped(s[1..])), s);
      if s[0] == '_' {
        DecodeKept(s);
      }
    }
  }

  /** The characters that may not reach the printer as they are. */
  predicate IsSpecial(c: char) {
    c == '^' || c == '~' || c == '\\' || c == '\n' || c == '\r'
  }

  /** The values that escaping leaves alone. */
  lemma {:induction false} EscapeFixes(s: string)
    ensures Escaped(s) == s <==> forall c :: c in s ==> !IsSpecial(c)
  {
    if s != "" {
      EscapeFixes(s[1..]);
      EscapeGrows(s[1..]);
      assert s == [s[0]] + s[1..];
      if !IsSpecial(s[0]) {
        ConsIs(s[0], Escaped(s[1..]), s);
      } else if s[0] == '\n' || s[0] == '\r' {
        assert Escaped(s)[0] == ' ';
      }
    }
  }

  lemma {:induction false} EscapeGrows(s: string)
    ensures |Escaped(s)| >= |s|
  {
    if s != "" {
      EscapeGrows(s[1..]);
    }
  }

  /** A caret and the text of its code print alike. */
  lemma CaretAndCodePrintAlike()
    ensures Escaped("^") == Escaped("_5E")
  {
    assert "_5E"[1..] == "5E" && "5E"[1..] == "E" && "E"[1..] == "" && "^"[1..] == "";
    assert Escaped("E") == "E" && Escaped("5E") == "5E";
  }
}
