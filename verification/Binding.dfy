/** Bindings in label text, `{{unit.uid}}` and the like (crates/trace-mark/src/binding.rs). */
module Bindings {
  import opened Collections
  import opened DateFormat

  datatype BindingError = UnknownBinding(key: string) | Unterminated(template: string)

  /** The values a label is printed with; `now` is the instant given, or read from the clock. */
  datatype Context = Context(values: map<string, string>, now: Stamp)

  /** The white space of Unicode, which Rust's `trim` removes at both ends. */
  predicate IsSpace(c: char) {
    '\t' <= c <= '\r' || c == ' ' || c == '\U{85}' || c == '\U{A0}' || c == '\U{1680}'
    || '\U{2000}' <= c <= '\U{200A}' || c == '\U{2028}' || c == '\U{2029}' || c == '\U{202F}'
    || c == '\U{205F}' || c == '\U{3000}'
  }

  /** The twenty-five characters that are white space. */
  lemma SpacesAre(c: char)
    ensures IsSpace(c) <==> c in {
      '\U{9}', '\U{A}', '\U{B}', '\U{C}', '\U{D}', '\U{20}', '\U{85}', '\U{A0}', '\U{1680}',
      '\U{2000}', '\U{2001}', '\U{2002}', '\U{2003}', '\U{2004}', '\U{2005}', '\U{2006}', '\U{2007}', '\U{2008}',
      '\U{2009}', '\U{200A}', '\U{2028}', '\U{2029}', '\U{202F}', '\U{205F}', '\U{3000}'}
  {
  }

  function Trim(s: string): (r: string)
    ensures r == "" || (!IsSpace(r[0]) && !IsSpace(r[|r| - 1]))
  {
    if s == "" then ""
    else if IsSpace(s[0]) then Trim(s[1..])
    else if IsSpace(s[|s| - 1]) then Trim(s[..|s| - 1])
    else s
  }

  predicate AllSpace(s: string) {
    forall c :: c in s ==> IsSpace(c)
  }

  lemma SpaceAround(c: char, s: string)
    requires IsSpace(c) && AllSpace(s)
    ensures AllSpace([c] + s) && AllSpace(s + [c])
  {
  }

  /** Trimming takes white space off both ends and nothing else. */
  lemma {:induction false} TrimSplits(s: string) returns (before: string, after: string)
    ensures s == before + Trim(s) + after && AllSpace(before) && AllSpace(after)
  {
    before, after := "", "";
    if s == "" {
    } else if IsSpace(s[0]) {
      before, after := TrimSplits(s[1..]);
      SpaceAround(s[0], before);
      assert s == [s[0]] + s[1..];
      AssocInner([s[0]], before, Trim(s[1..]), after);
      before := [s[0]] + before;
    } else if IsSpace(s[|s| - 1]) {
      before, after := TrimSplits(s[..|s| - 1]);
      SpaceAround(s[|s| - 1], after);
      assert s == s[..|s| - 1] + [s[|s| - 1]];
      Assoc(before + Trim(s[..|s| - 1]), after, [s[|s| - 1]]);
      after := after + [s[|s| - 1]];
    }
  }

  const NOW_PREFIX := "now:"

  /** What a key stands for. */
  function Resolved(ctx: Context, key: string): Option<string> {
    if NOW_PREFIX <= key then Some(Scan(Tokens(ctx.now), key[|NOW_PREFIX|..]))
    else if key in ctx.values then Some(ctx.values[key])
    else None
  }

  method Resolve(ctx: Context, key: string) returns (value: Option<string>)
    ensures value == Resolved(ctx, key)
  {
    if NOW_PREFIX <= key {
      var text := FormatDatetime(ctx.now, key[|NOW_PREFIX|..]);
      return Some(text);
    }
    value := if key in ctx.values then Some(ctx.values[key]) else None;
  }

  /** Two equal characters next to each other. */
  predicate HasPair(s: string, c: char) {
    |s| >= 2 && ((s[0] == c && s[1] == c) || HasPair(s[1..], c))
  }

  lemma {:induction false} HasPairIff(s: string, c: char)
    ensures HasPair(s, c) <==> exists i :: 0 <= i < |s| - 1 && s[i] == s[i + 1] == c
  {
    if |s| >= 2 {
      HasPairIff(s[1..], c);
      if i :| 0 <= i < |s| - 1 && s[i] == s[i + 1] == c {
        assert i > 0 ==> s[1..][i - 1] == s[1..][i] == c;
      }
      if i :| 0 <= i < |s[1..]| - 1 && s[1..][i] == s[1..][i + 1] == c {
        assert s[i + 1] == s[i + 2] == c;
      }
    }
  }

  /** Text in front of a pair that the pair is the first one after. */
  predicate Clear(s: string, c: char) {
    !HasPair(s + [c], c)
  }

  /** Where a pair occurs first: Rust's `find`. */
  function FindPair(s: string, c: char): (i: Option<nat>)
    ensures i.None? <==> !HasPair(s, c)
    ensures i.Some? ==> i.value + 2 <= |s|
  {
    if |s| < 2 then None
    else if s[0] == c && s[1] == c then Some(0)
    else
      var later := FindPair(s[1..], c);
      if later.None? then None else Some(later.value + 1)
  }

  lemma {:induction false} FindPairSplits(s: string, c: char)
    requires HasPair(s, c)
    ensures var i := FindPair(s, c).value; s == s[..i] + [c, c] + s[i + 2..] && Clear(s[..i], c)
  {
    if !(s[0] == c && s[1] == c) {
      FindPairSplits(s[1..], c);
      var i := FindPair(s[1..], c).value;
      assert s[1..][..i] == s[..i + 1][1..];
      assert (s[..i + 1] + [c])[1..] == s[1..][..i] + [c];
    }
  }

  lemma {:induction false} PairAfterClear(a: string, b: string, c: char)
    requires Clear(a, c)
    ensures FindPair(a + [c, c] + b, c) == Some(|a|)
  {
    var s := a + [c, c] + b;
    if a != "" {
      assert (a + [c])[1..] == a[1..] + [c];
      assert s[1..] == a[1..] + [c, c] + b;
      PairAfterClear(a[1..], b, c);
    }
  }

  /** A template cut at its braces. */
  datatype Segments =
    | Plain(text: string)
    | Broken(text: string, after: string)
    | Bound(text: string, key: string, rest: Segments)

  function Spell(seg: Segments): string {
    match seg
    case Plain(text) => text
    case Broken(text, after) => text + "{{" + after
    case Bound(text, key, rest) => text + "{{" + (key + "}}" + Spell(rest))
  }

  /** Every `{{` opens at the first place it can, and every `}}` closes at the first place it can. */
  predicate Leftmost(seg: Segments) {
    match seg
    case Plain(text) => !HasPair(text, '{')
    case Broken(text, after) => Clear(text, '{') && !HasPair(after, '}')
    case Bound(text, key, rest) => Clear(text, '{') && Clear(key, '}') && Leftmost(rest)
  }

  function Cut(t: string): Segments
    decreases |t|
  {
    var start := FindPair(t, '{');
    if start.None? then Plain(t)
    else
      var after := t[start.value + 2..];
      var end := FindPair(after, '}');
      if end.None? then Broken(t[..start.value], after)
      else Bound(t[..start.value], after[..end.value], Cut(after[end.value + 2..]))
  }

  /** Every template has a leftmost segmentation. */
  lemma {:induction false} CutIsLeftmost(t: string)
    ensures Leftmost(Cut(t)) && Spell(Cut(t)) == t
    decreases |t|
  {
    if HasPair(t, '{') {
      FindPairSplits(t, '{');
      var after := t[FindPair(t, '{').value + 2..];
      if HasPair(after, '}') {
        FindPairSplits(after, '}');
        CutIsLeftmost(after[FindPair(after, '}').value + 2..]);
      }
    }
  }

  /** Where the first braces of a leftmost segmentation are found, and what lies around them. */
  lemma FirstCut(seg: Segments)
    requires Leftmost(seg)
    ensures var t, start := Spell(seg), FindPair(Spell(seg), '{');
      match seg
      case Plain(text) => start.None? && t == text
      case Broken(text, after) =>
        start.Some? && t[..start.value] == text && t[start.value + 2..] == after && FindPair(after, '}').None?
      case Bound(text, key, rest) =>
        start.Some? && t[..start.value] == text && t[start.value + 2..] == key + "}}" + Spell(rest)
  {
    match seg
    case Plain(_) =>
    case Broken(text, after) =>
      PairAfterClear(text, after, '{');
    case Bound(text, key, rest) =>
      Assoc(key, "}}", Spell(rest));
      PairAfterClear(text, key + "}}" + Spell(rest), '{');
  }

  lemma KeyCut(key: string, rest: string)
    requires Clear(key, '}')
    ensures var after := key + "}}" + rest;
      FindPair(after, '}') == Some(|key|) && after[..|key|] == key && after[|key| + 2..] == rest
  {
    PairAfterClear(key, rest, '}');
  }

  /** And only one. */
  lemma {:induction false} LeftmostIsUnique(seg: Segments)
    requires Leftmost(seg)
    ensures Cut(Spell(seg)) == seg
  {
    FirstCut(seg);
    if seg.Bound? {
      KeyCut(seg.key, Spell(seg.rest));
      LeftmostIsUnique(seg.rest);
    }
  }

  /** The first thing wrong, from left to right, in a template. */
  function Fault(seg: Segments, ctx: Context, template: string): Option<BindingError> {
    match seg
    case Plain(_) => None
    case Broken(_, _) => Some(Unterminated(template))
    case Bound(_, key, rest) =>
      if Resolved(ctx, Trim(key)).None? then Some(UnknownBinding(Trim(key))) else Fault(rest, ctx, template)
  }

  /** The template with every key replaced by its value. */
  function Filled(seg: Segments, ctx: Context): string {
    match seg
    case Plain(text) => text
    case Broken(text, _) => text
    case Bound(text, key, rest) => text + (Resolved(ctx, Trim(key)).GetOr("") + Filled(rest, ctx))
  }

  function Rendered(template: string, ctx: Context): Result<string, BindingError> {
    var fault := Fault(Cut(template), ctx, template);
    if fault.Some? then Err(fault.value) else Ok(Filled(Cut(template), ctx))
  }

  lemma FilledStep(out: string, text: string, key: string, rest: Segments, ctx: Context, template: string)
    requires Resolved(ctx, Trim(key)).Some?
    ensures out + Filled(Bound(text, key, rest), ctx)
         == out + text + Resolved(ctx, Trim(key)).value + Filled(rest, ctx)
    ensures Fault(Bound(text, key, rest), ctx, template) == Fault(rest, ctx, template)
  {
    AssocRight(out, text, Resolved(ctx, Trim(key)).value, Filled(rest, ctx));
  }

  method RenderExpression(template: string, ctx: Context) returns (res: Result<string, BindingError>)
    ensures res == Rendered(template, ctx)
  {
    var out, rest := "", template;
    ghost var left := Cut(template);
    ghost var fault, filled := Fault(left, ctx, template), Filled(left, ctx);
    CutIsLeftmost(template);
    FirstCut(left);
    var start := FindPair(rest, '{');
    while start.Some?
      invariant start == FindPair(rest, '{') && Leftmost(left) && Spell(left) == rest
      invariant fault == Fault(left, ctx, template) && filled == out + Filled(left, ctx)
      decreases |rest|
    {
      FirstCut(left);
      var text, after := rest[..start.value], rest[start.value + 2..];
      if left.Bound? {
        KeyCut(left.key, Spell(left.rest));
      }
      var end := FindPair(after, '}');
      if end.None? {
        return Err(Unterminated(template));
      }
      var key := Trim(after[..end.value]);
      var value := Resolve(ctx, key);
      if value.None? {
        return Err(UnknownBinding(key));
      }
      FilledStep(out, text, left.key, left.rest, ctx, template);
      out := out + text + value.value;
      rest := after[end.value + 2..];
      left := left.rest;
      start := FindPair(rest, '{');
    }
    FirstCut(left);
    res := Ok(out + rest);
  }

  /** The keys between the braces, trimmed, in order. */
  function Keys(seg: Segments): seq<string> {
    if seg.Bound? then [Trim(seg.key)] + Keys(seg.rest) else []
  }

  predicate Terminated(seg: Segments) {
    match seg case Plain(_) => true case Broken(_, _) => false case Bound(_, _, rest) => Terminated(rest)
  }

  /** The i-th key is the first one without a value. */
  predicate FirstUnknown(keys: seq<string>, ctx: Context, i: nat)
    requires i < |keys|
  {
    Resolved(ctx, keys[i]).None? && forall j :: 0 <= j < i ==> Resolved(ctx, keys[j]).Some?
  }

  predicate AllKnown(keys: seq<string>, ctx: Context) {
    forall k :: k in keys ==> Resolved(ctx, k).Some?
  }

  lemma AllKnownMore(key: string, keys: seq<string>, ctx: Context)
    ensures AllKnown([key] + keys, ctx) <==> Resolved(ctx, key).Some? && AllKnown(keys, ctx)
  {
    assert key in [key] + keys;
    assert forall k :: k in [key] + keys <==> k == key || k in keys;
  }

  /** A template renders exactly when it is terminated and every key has a value. */
  lemma {:induction false} FaultlessIffKnown(seg: Segments, ctx: Context, t: string)
    ensures Fault(seg, ctx, t).None? <==> Terminated(seg) && AllKnown(Keys(seg), ctx)
    ensures AllKnown(Keys(seg), ctx) && !Terminated(seg) ==> Fault(seg, ctx, t) == Some(Unterminated(t))
  {
    if seg.Bound? {
      FaultlessIffKnown(seg.rest, ctx, t);
      AllKnownMore(Trim(seg.key), Keys(seg.rest), ctx);
    }
  }

  /** Otherwise the first key without a value is told. */
  lemma {:induction false} FaultIsLeftmost(seg: Segments, ctx: Context, t: string, i: nat)
    requires i < |Keys(seg)| && FirstUnknown(Keys(seg), ctx, i)
    ensures Fault(seg, ctx, t) == Some(UnknownBinding(Keys(seg)[i]))
  {
    var keys, more := Keys(seg), Keys(seg.rest);
    if i > 0 {
      assert Resolved(ctx, keys[0]).Some?;
      forall j | 0 <= j < i - 1
        ensures Resolved(ctx, more[j]).Some?
      {
        assert more[j] == keys[j + 1];
      }
      assert more[i - 1] == keys[i];
      FaultIsLeftmost(seg.rest, ctx, t, i - 1);
    }
  }

  lemma {:induction false} ClearThen(a: string, b: string, c: char)
    requires Clear(a, c)
    ensures !HasPair(b, c) ==> !HasPair(a + b, c)
    ensures Clear(b, c) ==> Clear(a + b, c)
  {
    if a == "" {
      assert a + b == b;
    } else {
      assert (a + [c])[1..] == a[1..] + [c];
      assert (a + b)[1..] == a[1..] + b && (a + b + [c])[1..] == a[1..] + b + [c];
      ClearThen(a[1..], b, c);
    }
  }

  /** Every value that a template uses neither contains `{{` nor ends in a brace. */
  predicate Tame(seg: Segments, ctx: Context) {
    seg.Bound? ==> Clear(Resolved(ctx, Trim(seg.key)).GetOr(""), '{') && Tame(seg.rest, ctx)
  }

  /** With such values nothing that looks like a binding is left in the rendered text. */
  lemma {:induction false} NoBindingSurvives(seg: Segments, ctx: Context)
    requires Leftmost(seg) && Terminated(seg) && Tame(seg, ctx)
    ensures !HasPair(Filled(seg, ctx), '{')
  {
    if seg.Bound? {
      NoBindingSurvives(seg.rest, ctx);
      var value := Resolved(ctx, Trim(seg.key)).GetOr("");
      ClearThen(value, Filled(seg.rest, ctx), '{');
      ClearThen(seg.text, value + Filled(seg.rest, ctx), '{');
    }
  }

  /** Whether a text that follows one ending in a brace, or not, ends in a brace. */
  predicate EndsOpen(s: string, open: bool) {
    if s == "" then open else s[|s| - 1] == '{'
  }

  predicate StartsOpen(s: string) {
    s != "" && s[0] == '{'
  }

  /**
   No value used contains `{{`, and no two braces meet where pieces of the rendered text meet, also
   across empty ones; `open` says that a brace stands before the first piece.
   */
  predicate NoSeam(seg: Segments, ctx: Context, open: bool) {
    match seg
    case Plain(text) => !(open && StartsOpen(text))
    case Broken(text, _) => !(open && StartsOpen(text))
    case Bound(text, key, rest) =>
      var value, after := Resolved(ctx, Trim(key)).GetOr(""), EndsOpen(text, open);
      && !(open && StartsOpen(text))
      && !HasPair(value, '{') && !(after && StartsOpen(value))
      && NoSeam(rest, ctx, EndsOpen(value, after))
  }

  lemma {:induction false} PairOfTwo(a: string, b: string)
    ensures HasPair(a + b, '{') <==> HasPair(a, '{') || HasPair(b, '{') || (EndsOpen(a, false) && StartsOpen(b))
  {
    if a == "" {
      assert a + b == b;
    } else {
      assert (a + b)[1..] == a[1..] + b;
      PairOfTwo(a[1..], b);
      if |a| == 1 {
        assert a[1..] + b == b;
      }
    }
  }

  lemma ClearIsPlain(s: string)
    requires Clear(s, '{')
    ensures !HasPair(s, '{') && !EndsOpen(s, false)
  {
    PairOfTwo(s, "{");
  }

  /** A brace in front, if there is one. */
  function Brace(open: bool): string {
    if open then "{" else ""
  }

  lemma BraceThen(open: bool, s: string)
    ensures HasPair(Brace(open) + s, '{') <==> HasPair(s, '{') || (open && StartsOpen(s))
    ensures EndsOpen(Brace(open) + s, false) == EndsOpen(s, open)
  {
    PairOfTwo(Brace(open), s);
    assert Brace(false) + s == s;
  }

  /** What comes after two pieces only sees whether they end in a brace. */
  lemma SeamStep(open: bool, piece: string, rest: string)
    ensures HasPair(Brace(open) + (piece + rest), '{') <==>
              HasPair(Brace(open) + piece, '{') || HasPair(Brace(EndsOpen(piece, open)) + rest, '{')
  {
    Assoc(Brace(open), piece, rest);
    BraceThen(open, piece);
    PairOfTwo(Brace(open) + piece, rest);
    BraceThen(EndsOpen(piece, open), rest);
  }

  lemma {:induction false} SeamsDecide(seg: Segments, ctx: Context, open: bool)
    requires Leftmost(seg)
    ensures HasPair(Brace(open) + Filled(seg, ctx), '{') <==> !NoSeam(seg, ctx, open)
  {
    match seg
    case Plain(text) => BraceThen(open, text);
    case Broken(text, _) =>
      ClearIsPlain(text);
      BraceThen(open, text);
    case Bound(text, key, rest) =>
      var value, after := Resolved(ctx, Trim(key)).GetOr(""), EndsOpen(text, open);
      ClearIsPlain(text);
      SeamStep(open, text, value + Filled(rest, ctx));
      BraceThen(open, text);
      SeamStep(after, value, Filled(rest, ctx));
      BraceThen(after, value);
      SeamsDecide(rest, ctx, EndsOpen(value, after));
  }

  /**
   For a given template and context: something that looks like a binding is left in the rendered text
   if and only if a value contains `{{` or two braces meet at a seam.
   */
  lemma SurvivesIffSeam(seg: Segments, ctx: Context)
    requires Leftmost(seg)
    ensures HasPair(Filled(seg, ctx), '{') <==> !NoSeam(seg, ctx, false)
  {
    SeamsDecide(seg, ctx, false);
    assert Brace(false) + Filled(seg, ctx) == Filled(seg, ctx);
  }

  lemma {:induction false} BraceFreeIsClear(s: string)
    requires '{' !in s
    ensures Clear(s, '{')
  {
    if s != "" {
      assert (s + ['{'])[1..] == s[1..] + ['{'] && s[0] in s;
      BraceFreeIsClear(s[1..]);
    }
  }

  /** Any other value survives in some template, one that uses it once. */
  lemma {:induction false} UntamedValueSurvives(ctx: Context, key: string)
    requires Trim(key) == key && Clear(key, '}')
    requires Resolved(ctx, key).Some? && !Clear(Resolved(ctx, key).value, '{')
    ensures Rendered(Spell(Bound("", key, Plain("{"))), ctx) == Ok(Resolved(ctx, key).value + "{")
    ensures HasPair(Resolved(ctx, key).value + "{", '{')
  {
    var seg := Bound("", key, Plain("{"));
    LeftmostIsUnique(seg);
    FilledOne(key, ctx);
  }

  lemma FilledOne(key: string, ctx: Context)
    requires Trim(key) == key && Resolved(ctx, key).Some?
    ensures Filled(Bound("", key, Plain("{")), ctx) == Resolved(ctx, key).value + "{"
    ensures forall t :: Fault(Bound("", key, Plain("{")), ctx, t).None?
  {
    var value := Resolved(ctx, key).value;
    assert "" + (value + "{") == value + "{";
  }
}
