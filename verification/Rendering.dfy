/** What a rendered text is: the template with each binding replaced (crates/trace-mark/src/binding.rs). */
module Renderings {
  import opened Collections
  import opened DateFormat
  import opened Bindings

  /** The texts with one of the others between each two of them. */
  function Woven(texts: seq<string>, between: seq<string>): string
    requires |texts| == |between| + 1
  {
    if between == [] then texts[0] else texts[0] + (between[0] + Woven(texts[1..], between[1..]))
  }

  function InBraces(keys: seq<string>): (braced: seq<string>)
    ensures |braced| == |keys| && forall i :: 0 <= i < |keys| ==> braced[i] == "{{" + keys[i] + "}}"
  {
    seq(|keys|, i requires 0 <= i < |keys| => "{{" + keys[i] + "}}")
  }

  /** `key` without the white space around it is `r`. */
  ghost predicate IsTrimmed(key: string, r: string) {
    && (r == "" || (!IsSpace(r[0]) && !IsSpace(r[|r| - 1])))
    && exists before, after :: AllSpace(before) && AllSpace(after) && key == before + r + after
  }

  /** A key that starts with `now:` is the instant in the pattern that follows; any other is its own value. */
  ghost predicate Means(ctx: Context, key: string, value: string)
    requires OnCalendar(ctx.now)
  {
    || (exists pattern, year :: key == "now:" + pattern && ReadsAsYear(year, ctx.now.year)
                                && value == Printed(ctx.now, year, pattern))
    || (!("now:" <= key) && key in ctx.values && value == ctx.values[key])
  }

  /** What is between a pair of braces stands for the value. */
  ghost predicate StandsFor(ctx: Context, braced: string, value: string)
    requires OnCalendar(ctx.now)
  {
    exists key :: IsTrimmed(braced, key) && Means(ctx, key, value)
  }

  /** Each pair of braces opens, and each binding ends, at the first place it can. */
  ghost predicate CutsLeftmost(texts: seq<string>, keys: seq<string>)
    requires |texts| == |keys| + 1
  {
    && !HasPair(texts[|keys|], '{')
    && forall i :: 0 <= i < |keys| ==> !HasPair(texts[i] + "{", '{') && !HasPair(keys[i] + "}", '}')
  }

  /** Each binding of the template is replaced by what its key means, and the texts between stay as they are. */
  ghost predicate Replaces(ctx: Context, template: string, out: string,
                           texts: seq<string>, keys: seq<string>, values: seq<string>)
    requires OnCalendar(ctx.now)
  {
    && |texts| == |keys| + 1 && |values| == |keys|
    && CutsLeftmost(texts, keys)
    && template == Woven(texts, InBraces(keys))
    && out == Woven(texts, values)
    && forall i :: 0 <= i < |keys| ==> StandsFor(ctx, keys[i], values[i])
  }

  lemma ResolvedMeans(ctx: Context, key: string)
    requires OnCalendar(ctx.now)
    ensures Resolved(ctx, key).Some? ==> Means(ctx, key, Resolved(ctx, key).value)
    ensures Resolved(ctx, key).None? <==> !("now:" <= key) && key !in ctx.values
  {
    if "now:" <= key {
      var pattern := key[4..];
      ScanPrints(ctx.now, pattern);
      YearReads(ctx.now.year);
      assert key == "now:" + pattern;
    }
  }

  lemma TrimIsTrimmed(key: string)
    ensures IsTrimmed(key, Trim(key))
  {
    var before, after := TrimSplits(key);
  }

  lemma WovenMore(text: string, texts: seq<string>, b: string, between: seq<string>)
    requires |texts| == |between| + 1
    ensures Woven([text] + texts, [b] + between) == text + (b + Woven(texts, between))
  {
    assert ([text] + texts)[1..] == texts && ([b] + between)[1..] == between;
  }

  lemma BracesMore(key: string, keys: seq<string>)
    ensures InBraces([key] + keys) == ["{{" + key + "}}"] + InBraces(keys)
  {
  }

  lemma ReplacesMore(ctx: Context, text: string, key: string, value: string, template: string, out: string,
                     texts: seq<string>, keys: seq<string>, values: seq<string>)
    requires OnCalendar(ctx.now) && Replaces(ctx, template, out, texts, keys, values)
    requires !HasPair(text + "{", '{') && !HasPair(key + "}", '}')
    requires StandsFor(ctx, key, value)
    ensures Replaces(ctx, text + ("{{" + key + "}}" + template), text + (value + out),
                     [text] + texts, [key] + keys, [value] + values)
  {
    hide Woven, HasPair, StandsFor;
    BracesMore(key, keys);
    WovenMore(text, texts, "{{" + key + "}}", InBraces(keys));
    WovenMore(text, texts, value, values);
    var texts', keys', values' := [text] + texts, [key] + keys, [value] + values;
    assert texts'[|keys'|] == texts[|keys|];
    forall i | 0 <= i < |keys'|
      ensures !HasPair(texts'[i] + "{", '{') && !HasPair(keys'[i] + "}", '}') && StandsFor(ctx, keys'[i], values'[i])
    {
      if i > 0 {
        assert texts'[i] == texts[i - 1] && keys'[i] == keys[i - 1] && values'[i] == values[i - 1];
      }
    }
  }

  lemma KeyStandsFor(ctx: Context, key: string)
    requires OnCalendar(ctx.now) && Resolved(ctx, Trim(key)).Some?
    ensures StandsFor(ctx, key, Resolved(ctx, Trim(key)).value)
  {
    TrimIsTrimmed(key);
    ResolvedMeans(ctx, Trim(key));
  }

  lemma AssocBraces(text: string, key: string, rest: string)
    ensures text + "{{" + (key + "}}" + rest) == text + ("{{" + key + "}}" + rest)
  {
  }

  lemma {:induction false} FilledReplaces(ctx: Context, seg: Segments, t: string)
    returns (texts: seq<string>, keys: seq<string>, values: seq<string>)
    requires OnCalendar(ctx.now) && Leftmost(seg) && Fault(seg, ctx, t).None?
    ensures Replaces(ctx, Spell(seg), Filled(seg, ctx), texts, keys, values)
  {
    hide HasPair, Resolved, StandsFor, Trim, InBraces;
    if seg.Plain? {
      texts, keys, values := [seg.text], [], [];
    } else {
      var Bound(text, key, rest) := seg;
      var value := Resolved(ctx, Trim(key)).value;
      texts, keys, values := FilledReplaces(ctx, rest, t);
      KeyStandsFor(ctx, key);
      ReplacesMore(ctx, text, key, value, Spell(rest), Filled(rest, ctx), texts, keys, values);
      texts, keys, values := [text] + texts, [key] + keys, [value] + values;
      AssocBraces(text, key, Spell(rest));
    }
  }

  /** A text that renders is the template with every binding replaced by what it means. */
  lemma RenderedReplaces(template: string, ctx: Context)
    returns (texts: seq<string>, keys: seq<string>, values: seq<string>)
    requires OnCalendar(ctx.now) && Rendered(template, ctx).Ok?
    ensures Replaces(ctx, template, Rendered(template, ctx).value, texts, keys, values)
  {
    CutIsLeftmost(template);
    texts, keys, values := FilledReplaces(ctx, Cut(template), template);
  }
}
