/** The date patterns of label bindings (crates/trace-mark/src/binding.rs, format_datetime). */
module DateFormat {
  import opened Collections

  /** A UTC instant in calendar fields. */
  datatype Stamp = Stamp(year: int, month: nat, day: nat, hour: nat, minute: nat, second: nat)

  type Positive = n: nat | 0 < n witness 1

  /** A token is one letter repeated; `text` is what it stands for. */
  datatype Token = Token(letter: char, count: Positive, text: string)

  function Padded(n: nat, width: nat): (s: string)
    ensures s != "" && forall c :: c in s ==> '0' <= c <= '9'
    decreases width
  {
    if width <= |Decimal(n)| then Decimal(n) else PadOne(Padded(n, width - 1), width)
  }

  function PadOne(s: string, width: nat): (r: string)
    requires s != "" && forall c :: c in s ==> '0' <= c <= '9'
    ensures r != "" && forall c :: c in r ==> '0' <= c <= '9'
  {
    if |s| < width then "0" + s else s
  }

  /** Four digits, with a sign outside the years 0 to 9999. */
  function Year(y: int): string {
    if 0 <= y <= 9999 then Padded(y, 4)
    else if y < 0 then "-" + Padded(-y, 4)
    else "+" + Padded(y, 4)
  }

  /** The tokens in the order in which they are replaced. */
  function Tokens(now: Stamp): seq<Token> {
    [Token('y', 4, Year(now.year)),
     Token('M', 2, Padded(now.month, 2)),
     Token('d', 2, Padded(now.day, 2)),
     Token('H', 2, Padded(now.hour, 2)),
     Token('m', 2, Padded(now.minute, 2)),
     Token('s', 2, Padded(now.second, 2)),
     Token('y', 2, Padded(now.year % 100, 2))]
  }

  predicate StartsWith(s: string, letter: char, count: nat) {
    count == 0 || (s != "" && s[0] == letter && StartsWith(s[1..], letter, count - 1))
  }

  lemma {:induction false} StartsWithFits(s: string, letter: char, count: nat)
    requires StartsWith(s, letter, count)
    ensures count <= |s|
  {
    if count > 0 {
      StartsWithFits(s[1..], letter, count - 1);
    }
  }

  /** Every occurrence of one token replaced, left to right: Rust's `str::replace`. */
  function Replace(t: Token, s: string): string
    decreases |s|
  {
    if s == "" then ""
    else if StartsWith(s, t.letter, t.count) then
      StartsWithFits(s, t.letter, t.count);
      t.text + Replace(t, s[t.count..])
    else [s[0]] + Replace(t, s[1..])
  }

  /** The first token of the list that the text starts with. */
  function Match(ts: seq<Token>, s: string): (t: Option<Token>)
    ensures t.Some? ==> t.value in ts && StartsWith(s, t.value.letter, t.value.count)
    ensures t.Some? ==> t.value.count <= |s|
  {
    if ts == [] then None
    else
      var before := Match(ts[..|ts| - 1], s);
      var last := ts[|ts| - 1];
      if before.Some? then before
      else if StartsWith(s, last.letter, last.count) then
        StartsWithFits(s, last.letter, last.count);
        Some(last)
      else None
  }

  ghost predicate Sound(ts: seq<Token>) {
    forall t :: t in ts ==> t.text != ""
  }

  ghost predicate Inert(ts: seq<Token>, letter: char) {
    forall t :: t in ts ==> letter !in t.text
  }

  /** One pass over the pattern, replacing at each position the token that starts there. */
  function Scan(ts: seq<Token>, s: string): string
    decreases |s|
  {
    if s == "" then ""
    else
      var t := Match(ts, s);
      if t.Some? then t.value.text + Scan(ts, s[t.value.count..]) else [s[0]] + Scan(ts, s[1..])
  }

  lemma {:induction false} ReplaceSkips(t: Token, a: string, s: string)
    requires t.letter !in a
    ensures Replace(t, a + s) == a + Replace(t, s)
  {
    if a == "" {
      assert a + s == s;
    } else {
      assert a[0] in a;
      assert (a + s)[1..] == a[1..] + s;
      ReplaceSkips(t, a[1..], s);
      assert [a[0]] + (a[1..] + Replace(t, s)) == a + Replace(t, s);
    }
  }

  /** Inside a run of one letter a scan that finds nothing at its start finds nothing further on. */
  lemma {:induction false} NoMatchInRun(ts: seq<Token>, s: string)
    requires |s| > 1 && s[0] == s[1] && Match(ts, s).None?
    ensures Match(ts, s[1..]).None?
  {
    if ts != [] {
      var last := ts[|ts| - 1];
      DropLast(ts);
      NoMatchInRun(ts[..|ts| - 1], s);
      if StartsWith(s[1..], last.letter, last.count) {
        RunGrows(s, last.letter, last.count);
      }
    }
  }

  lemma {:induction false} RunGrows(s: string, letter: char, count: nat)
    requires s != "" && s[0] == letter && StartsWith(s[1..], letter, count)
    ensures StartsWith(s, letter, count)
  {
    if count > 0 {
      RunGrows(s[1..], letter, count - 1);
    }
  }

  function Run(letter: char, count: nat): string {
    if count == 0 then "" else [letter] + Run(letter, count - 1)
  }

  lemma {:induction false} ScanKeepsRun(ts: seq<Token>, s: string, letter: char, count: nat)
    requires StartsWith(s, letter, count) && count > 0 && Match(ts, s).None?
    ensures count <= |s| && Scan(ts, s) == Run(letter, count) + Scan(ts, s[count..])
  {
    StartsWithFits(s, letter, count);
    if count > 1 {
      NoMatchInRun(ts, s);
      ScanKeepsRun(ts, s[1..], letter, count - 1);
      assert s[1..][count - 1..] == s[count..];
      assert [letter] + (Run(letter, count - 1) + Scan(ts, s[count..])) == Run(letter, count) + Scan(ts, s[count..]);
    } else {
      assert Run(letter, 1) == [letter];
    }
  }

  lemma {:induction false} RunStarts(letter: char, count: nat, s: string)
    ensures StartsWith(Run(letter, count) + s, letter, count)
    ensures |Run(letter, count)| == count
  {
    if count > 0 {
      RunStarts(letter, count - 1, s);
      assert (Run(letter, count) + s)[1..] == Run(letter, count - 1) + s;
    }
  }

  /** A run of a letter that no replacement contains was in the pattern already. */
  lemma {:induction false} RunWasThere(ts: seq<Token>, s: string, letter: char, count: nat)
    requires Sound(ts) && Inert(ts, letter) && StartsWith(Scan(ts, s), letter, count)
    ensures StartsWith(s, letter, count)
  {
    if count > 0 {
      if Match(ts, s).None? {
        assert Scan(ts, s)[1..] == Scan(ts, s[1..]);
        RunWasThere(ts, s[1..], letter, count - 1);
      }
    }
  }

  /** Replacing one more token afterwards comes to scanning once with that token last in the list. */
  lemma {:induction false} ReplaceAfterScan(ts: seq<Token>, t: Token, s: string)
    requires Sound(ts) && Inert(ts, t.letter) && t.text != ""
    ensures Replace(t, Scan(ts, s)) == Scan(ts + [t], s)
    decreases |s|
  {
    assert (ts + [t])[..|ts|] == ts;
    if s != "" {
      var m := Match(ts, s);
      if m.Some? {
        ReplaceSkips(t, m.value.text, Scan(ts, s[m.value.count..]));
        ReplaceAfterScan(ts, t, s[m.value.count..]);
      } else if StartsWith(s, t.letter, t.count) {
        ScanKeepsRun(ts, s, t.letter, t.count);
        RunStarts(t.letter, t.count, Scan(ts, s[t.count..]));
        assert (Run(t.letter, t.count) + Scan(ts, s[t.count..]))[t.count..] == Scan(ts, s[t.count..]);
        ReplaceAfterScan(ts, t, s[t.count..]);
      } else {
        if StartsWith(Scan(ts, s), t.letter, t.count) {
          RunWasThere(ts, s, t.letter, t.count);
        }
        assert Scan(ts, s)[1..] == Scan(ts, s[1..]);
        ReplaceAfterScan(ts, t, s[1..]);
      }
    }
  }

  /** Digits and signs: what every replacement is made of. */
  predicate Numeric(s: string) {
    forall c :: c in s ==> '0' <= c <= '9' || c == '-' || c == '+'
  }

  lemma YearIsNumeric(y: int)
    ensures Year(y) != "" && Numeric(Year(y))
  {
  }

  lemma TokensAreNumeric(now: Stamp, t: Token)
    requires t in Tokens(now)
    ensures t.text != "" && Numeric(t.text)
    ensures t.letter in "yMdHms"
  {
    YearIsNumeric(now.year);
  }

  lemma PrefixIsSound(now: Stamp, i: nat)
    requires i < |Tokens(now)|
    ensures Sound(Tokens(now)[..i])
    ensures Inert(Tokens(now)[..i], Tokens(now)[i].letter)
  {
    forall t | t in Tokens(now)
      ensures t.text != ""
      ensures Tokens(now)[i].letter !in t.text
    {
      TokensAreNumeric(now, t);
      TokensAreNumeric(now, Tokens(now)[i]);
    }
  }

  lemma FormatStep(now: Stamp, i: nat, pattern: string)
    requires i < |Tokens(now)|
    ensures Replace(Tokens(now)[i], Scan(Tokens(now)[..i], pattern)) == Scan(Tokens(now)[..i + 1], pattern)
  {
    var ts, t := Tokens(now), Tokens(now)[i];
    PrefixIsSound(now, i);
    TokensAreNumeric(now, t);
    assert ts[..i] + [t] == ts[..i + 1];
    ReplaceAfterScan(ts[..i], t, pattern);
  }

  // ------------------------------------------------------------ what is printed

  /** What a calendar and a clock show; a leap second is number 60. */
  predicate OnCalendar(now: Stamp) {
    && 1 <= now.month <= 12 && 1 <= now.day <= 31
    && now.hour < 24 && now.minute < 60 && now.second <= 60
  }

  function Digit(n: nat): char
    requires n < 10
  {
    ['0', '1', '2', '3', '4', '5', '6', '7', '8', '9'][n]
  }

  function TwoDigits(n: nat): string
    requires n < 100
  {
    [Digit(n / 10), Digit(n % 10)]
  }

  /**
   The pattern read once from the left: at each place the longest of the seven words that starts there is
   printed as its field, and anything else as it is. `year` is how the year is written in full.
   */
  function Printed(now: Stamp, year: string, p: string): string
    requires OnCalendar(now)
  {
    if p == "" then ""
    else if "yyyy" <= p then year + Printed(now, year, p[4..])
    else if "yy" <= p then TwoDigits(now.year % 100) + Printed(now, year, p[2..])
    else if "MM" <= p then TwoDigits(now.month) + Printed(now, year, p[2..])
    else if "dd" <= p then TwoDigits(now.day) + Printed(now, year, p[2..])
    else if "HH" <= p then TwoDigits(now.hour) + Printed(now, year, p[2..])
    else if "mm" <= p then TwoDigits(now.minute) + Printed(now, year, p[2..])
    else if "ss" <= p then TwoDigits(now.second) + Printed(now, year, p[2..])
    else [p[0]] + Printed(now, year, p[1..])
  }

  /** How a year is written: four digits at least, and a sign outside the years 0 to 9999. */
  predicate ReadsAsYear(text: string, y: int) {
    if 0 <= y <= 9999 then |text| == 4 && AllDigits(text) && DecimalValue(text) == y
    else
      && |text| >= 5 && text[0] == (if y < 0 then '-' else '+')
      && AllDigits(text[1..]) && DecimalValue(text[1..]) == (if y < 0 then -y else y)
      && (|text| == 5 || text[1] != '0')
  }

  lemma {:induction false} ZeroInFront(s: string)
    ensures DecimalValue("0" + s) == DecimalValue(s)
  {
    if s == "" {
      assert "0"[..0] == "";
    } else {
      assert ("0" + s)[..|s|] == "0" + s[..|s| - 1];
      ZeroInFront(s[..|s| - 1]);
    }
  }

  /** Padding adds zeros in front until the width is reached, and none beyond it. */
  lemma {:induction false} PaddedReads(n: nat, width: nat)
    ensures AllDigits(Padded(n, width)) && DecimalValue(Padded(n, width)) == n
    ensures |Padded(n, width)| == if width <= |Decimal(n)| then |Decimal(n)| else width
    ensures |Padded(n, width)| > width ==> Padded(n, width) == Decimal(n)
    decreases width
  {
    if width <= |Decimal(n)| {
      DecimalRoundTrip(n);
    } else {
      PaddedReads(n, width - 1);
      ZeroInFront(Padded(n, width - 1));
    }
  }

  lemma PaddedToTwo(n: nat)
    requires n < 100
    ensures Padded(n, 2) == TwoDigits(n)
  {
    assert |Decimal(n)| == if n < 10 then 1 else 2;
    assert n < 10 ==> Padded(n, 1) == Decimal(n);
  }

  lemma YearReads(y: int)
    ensures ReadsAsYear(Year(y), y)
  {
    var n := if y < 0 then -y else y;
    PaddedReads(n, 4);
    if 0 <= y <= 9999 {
      FourDigitsAtMost(n);
    } else {
      DecimalHasNoZeros(n);
      assert Year(y)[1..] == Padded(n, 4);
    }
  }

  lemma FourDigitsAtMost(n: nat)
    requires n <= 9999
    ensures |Decimal(n)| <= 4
  {
    assert n / 1000 < 10;
    assert |Decimal(n / 100)| <= 2;
    assert |Decimal(n / 10)| <= 3;
  }

  /** Token i is the first of the list that the text starts with. */
  ghost predicate FirstToMatch(ts: seq<Token>, s: string, i: int) {
    && 0 <= i < |ts| && StartsWith(s, ts[i].letter, ts[i].count)
    && forall j :: 0 <= j < i ==> !StartsWith(s, ts[j].letter, ts[j].count)
  }

  lemma {:induction false} MatchIsFirst(ts: seq<Token>, s: string)
    ensures match Match(ts, s)
      case Some(t) => exists i :: FirstToMatch(ts, s, i) && ts[i] == t
      case None => forall i :: 0 <= i < |ts| ==> !StartsWith(s, ts[i].letter, ts[i].count)
  {
    if ts != [] {
      var n := |ts| - 1;
      MatchIsFirst(ts[..n], s);
      if i :| FirstToMatch(ts[..n], s, i) && Match(ts[..n], s) == Some(ts[..n][i]) {
        assert FirstToMatch(ts, s, i);
      } else if StartsWith(s, ts[n].letter, ts[n].count) {
        assert FirstToMatch(ts, s, n);
      }
    }
  }

  lemma WordsStart(s: string)
    ensures StartsWith(s, 'y', 4) <==> "yyyy" <= s
    ensures StartsWith(s, 'y', 2) <==> "yy" <= s
    ensures StartsWith(s, 'M', 2) <==> "MM" <= s
    ensures StartsWith(s, 'd', 2) <==> "dd" <= s
    ensures StartsWith(s, 'H', 2) <==> "HH" <= s
    ensures StartsWith(s, 'm', 2) <==> "mm" <= s
    ensures StartsWith(s, 's', 2) <==> "ss" <= s
  {
    TwoStart(s, 'y');
    TwoStart(s, 'M');
    TwoStart(s, 'd');
    TwoStart(s, 'H');
    TwoStart(s, 'm');
    TwoStart(s, 's');
    if |s| >= 4 {
      TwoStart(s[2..], 'y');
      assert s[1..][1..] == s[2..];
    }
    if StartsWith(s, 'y', 4) {
      StartsWithFits(s, 'y', 4);
    }
  }

  lemma TwoStart(s: string, c: char)
    ensures StartsWith(s, c, 2) <==> [c, c] <= s
  {
    assert StartsWith(s, c, 2) <==> s != "" && s[0] == c && StartsWith(s[1..], c, 1);
    assert s != "" ==> (StartsWith(s[1..], c, 1) <==> |s| > 1 && s[1] == c);
  }

  /** Which word of the list a text starts with. */
  function Word(s: string): nat {
    if "yyyy" <= s then 0
    else if "yy" <= s then 6
    else if "MM" <= s then 1
    else if "dd" <= s then 2
    else if "HH" <= s then 3
    else if "mm" <= s then 4
    else if "ss" <= s then 5
    else 7
  }

  lemma StartsAtLetter(s: string, letter: char, count: nat)
    requires StartsWith(s, letter, count) && count > 0
    ensures s != "" && s[0] == letter
  {
  }

  lemma MatchIsWord(now: Stamp, s: string)
    ensures Match(Tokens(now), s) == if Word(s) < 7 then Some(Tokens(now)[Word(s)]) else None
  {
    hide Padded, Year, StartsWith, Match;
    var ts := Tokens(now);
    MatchIsFirst(ts, s);
    WordsStart(s);
    assert Word(s) == 7 ==> forall i :: 0 <= i < 7 ==> !StartsWith(s, ts[i].letter, ts[i].count);
    forall i | 0 <= i < 7 && StartsWith(s, ts[i].letter, ts[i].count)
      ensures s != "" && s[0] == ts[i].letter
    {
      StartsAtLetter(s, ts[i].letter, ts[i].count);
    }
    assert Word(s) < 7 ==> FirstToMatch(ts, s, Word(s));
    assert forall i, j :: FirstToMatch(ts, s, i) && FirstToMatch(ts, s, j) ==> i == j;
  }

  /** The scan prints the pattern word by word. */
  lemma {:induction false} ScanPrints(now: Stamp, s: string)
    requires OnCalendar(now)
    ensures Scan(Tokens(now), s) == Printed(now, Year(now.year), s)
  {
    hide Padded, Year, Match, TwoDigits;
    if s != "" {
      MatchIsWord(now, s);
      PaddedToTwo(now.month);
      PaddedToTwo(now.day);
      PaddedToTwo(now.hour);
      PaddedToTwo(now.minute);
      PaddedToTwo(now.second);
      PaddedToTwo(now.year % 100);
      ScanPrints(now, s[if Word(s) == 0 then 4 else if Word(s) < 7 then 2 else 1..]);
    }
  }

  /** Replaces the tokens one after another over the whole text; the result is that of a single scan. */
  method FormatDatetime(now: Stamp, pattern: string) returns (out: string)
    ensures out == Scan(Tokens(now), pattern)
    ensures OnCalendar(now) ==> exists year :: ReadsAsYear(year, now.year) && out == Printed(now, year, pattern)
  {
    YearReads(now.year);
    if OnCalendar(now) {
      ScanPrints(now, pattern);
    }
    out := pattern;
    var ts := Tokens(now);
    ScanNothing(pattern);
    assert ts[..0] == [];
    for i := 0 to |ts|
      invariant out == Scan(ts[..i], pattern)
    {
      FormatStep(now, i, pattern);
      out := Replace(ts[i], out);
    }
    assert ts[..|ts|] == ts;
  }

  lemma {:induction false} ScanNothing(s: string)
    ensures Scan([], s) == s
  {
    if s != "" {
      ScanNothing(s[1..]);
      assert s == [s[0]] + s[1..];
    }
  }

  /** The scan takes the longest token at each position: a four digit year is not eaten by the two digit one. */
  lemma LongestFirst(now: Stamp, s: string, t: Token)
    requires t in Tokens(now) && StartsWith(s, t.letter, t.count)
    ensures Match(Tokens(now), s).Some?
    ensures Match(Tokens(now), s).value.letter == t.letter && t.count <= Match(Tokens(now), s).value.count
  {
    var ts := Tokens(now);
    var i :| 0 <= i < |ts| && ts[i] == t;
    MatchBefore(ts, s, i);
    var m := Match(ts, s).value;
    assert m.letter == s[0] == t.letter;
  }

  lemma {:induction false} MatchBefore(ts: seq<Token>, s: string, i: nat)
    requires i < |ts| && StartsWith(s, ts[i].letter, ts[i].count)
    ensures Match(ts, s).Some? && Match(ts, s).value in ts[..i + 1]
  {
    if i < |ts| - 1 {
      PrefixOfPrefix(ts, |ts| - 1, i + 1);
      MatchBefore(ts[..|ts| - 1], s, i);
    }
  }
}
