/** The ZPL II emitter (crates/trace-mark/src/zpl.rs). */
module Zpl {
  import opened Collections
  import opened Bindings
  import opened Labels

  /** One character of field data as it is sent to the printer. */
  function EscapeOne(c: char): string {
    if c == '^' then "_5E"
    else if c == '~' then "_7E"
    else if c == '\\' then "_5C"
    else if c == '\n' || c == '\r' then " "
    else [c]
  }

  function Escaped(s: string): string {
    if s == "" then "" else EscapeOne(s[0]) + Escaped(s[1..])
  }

  lemma {:induction false} EscapedLast(s: string, c: char)
    ensures Escaped(s + [c]) == Escaped(s) + EscapeOne(c)
  {
    if s != "" {
      assert (s + [c])[1..] == s[1..] + [c];
      EscapedLast(s[1..], c);
      Assoc(EscapeOne(s[0]), Escaped(s[1..]), EscapeOne(c));
    } else {
      assert (s + [c])[1..] == "";
    }
  }

  method EscapeField(value: string) returns (out: string)
    ensures out == Escaped(value)
  {
    out := "";
    for i := 0 to |value|
      invariant out == Escaped(value[..i])
    {
      EscapedLast(value[..i], value[i]);
      assert value[..i + 1] == value[..i] + [value[i]];
      match value[i]
      case '^' => out := out + "_5E";
      case '~' => out := out + "_7E";
      case '\\' => out := out + "_5C";
      case '\n' => out := out + " ";
      case '\r' => out := out + " ";
      case other => out := out + [other];
    }
    assert value[..|value|] == value;
  }

  /** Commands as the printer tells them apart: whatever follows each caret. */
  function Split(z: string): (parts: seq<string>)
    ensures parts != []
  {
    if z == "" then [""]
    else
      var rest := Split(z[1..]);
      if z[0] == '^' then [""] + rest else [[z[0]] + rest[0]] + rest[1..]
  }

  lemma {:induction false} SplitPlain(body: string)
    requires '^' !in body
    ensures Split(body) == [body]
  {
    if body != "" {
      assert body == [body[0]] + body[1..] && body[0] in body;
      SplitPlain(body[1..]);
    }
  }

  /** One more caret and a body without one are one more command. */
  lemma {:induction false} SplitMore(z: string, body: string)
    requires '^' !in body
    ensures Split(z + ("^" + body)) == Split(z) + [body]
  {
    if z == "" {
      assert z + ("^" + body) == "^" + body && ("^" + body)[1..] == body;
      SplitPlain(body);
    } else {
      assert (z + ("^" + body))[1..] == z[1..] + ("^" + body);
      SplitMore(z[1..], body);
    }
  }

  /** Text without the two characters that start a command. */
  predicate Inert(s: string) {
    '^' !in s && '~' !in s
  }

  lemma {:induction false} EscapedIsInert(s: string)
    ensures Inert(Escaped(s))
  {
    if s != "" {
      EscapedIsInert(s[1..]);
    }
  }

  function Origin(x: nat, y: nat): (s: string)
    ensures Inert(s) && |s| > 1 && s[0] == 'F' && s[1] == 'O'
  {
    "FO" + Decimal(x) + "," + Decimal(y)
  }

  function Font(height: nat, width: nat): (s: string)
    ensures Inert(s) && |s| > 1 && s[0] == 'A'
  {
    "A0N," + Decimal(height) + "," + Decimal(width)
  }

  function BarDefaults(moduleDots: nat, height: nat): (s: string)
    ensures Inert(s) && |s| > 1 && s[0] == 'B'
  {
    "BY" + Decimal(moduleDots) + ",2.0," + Decimal(height)
  }

  function Code128Command(height: nat, humanReadable: bool): (s: string)
    ensures Inert(s) && |s| > 1 && s[0] == 'B'
  {
    "BCN," + Decimal(height) + (if humanReadable then ",Y,N,N" else ",N,N,N")
  }

  function BoxCommand(w: nat, h: nat, thickness: nat): (s: string)
    ensures Inert(s) && |s| > 1 && s[0] == 'G'
  {
    "GB" + Decimal(w) + "," + Decimal(h) + "," + Decimal(thickness)
  }

  /** The commands that place and describe an element, before its data. */
  function Geometry(el: Element): seq<string> {
    [Origin(el.x, el.y)] +
    match el
    case Text(_, _, height, width, _, Left) => [Font(height, width)]
    case Text(_, _, height, width, _, Center) => ["FB400,1,0,C", Font(height, width)]
    case Text(_, _, height, width, _, Right) => ["FB400,1,0,R", Font(height, width)]
    case Barcode(_, _, Code128, m, height, _, hr) => [BarDefaults(m, height), Code128Command(height, hr)]
    case Barcode(_, _, Qr, m, _, _, _) => ["BQN,2," + Decimal(m)]
    case Barcode(_, _, DataMatrix, m, _, _, _) => ["BXN," + Decimal(m) + ",200"]
    case Box(_, _, w, h, thickness) => [BoxCommand(w, h, thickness)]
  }

  /** What stands before the data: QR codes name their mode. */
  function DataPrefix(el: Element): string {
    if el.Barcode? && el.symbology.Qr? then "FDQA," else "FD"
  }

  function DataCommand(el: Element): (c: string)
    requires HasValue(el)
    ensures |c| >= 2 && c[0] == 'F' && c[1] == 'D'
  {
    DataPrefix(el) + Escaped(el.value)
  }

  function FieldData(el: Element): seq<string> {
    if HasValue(el) then [DataCommand(el)] else []
  }

  function ElementCommands(el: Element): seq<string> {
    Geometry(el) + FieldData(el) + ["FS\n"]
  }

  function AllElementCommands(els: seq<Element>): seq<string> {
    if els == [] then [] else AllElementCommands(els[..|els| - 1]) + ElementCommands(els[|els| - 1])
  }

  function Header(t: Template): seq<string> {
    ["XA\n", "PW" + Decimal(t.widthDots), "LL" + Decimal(t.heightDots)] +
    if t.darkness.Some? then ["LH0,0", "MD" + Decimal(t.darkness.value) + "\n"] else ["LH0,0\n"]
  }

  /** Everything a label is told to the printer with. */
  function Commands(t: Template): seq<string> {
    Header(t) + AllElementCommands(t.elements) + ["XZ\n"]
  }

  /** Appends one command to a text that holds the commands `before` and then `done`. */
  method Push(z: string, body: string, ghost before: seq<string>, ghost done: seq<string>) returns (out: string)
    requires '^' !in body && Split(z) == before + done
    ensures out == z + ("^" + body) && Split(out) == before + (done + [body])
  {
    SplitMore(z, body);
    assert before + done + [body] == before + (done + [body]);
    out := z + ("^" + body);
  }

  /** Appends the data of an element and the command that ends it. */
  method PushData(z: string, el: Element, ghost before: seq<string>) returns (out: string)
    requires Split(z) == before + Geometry(el)
    ensures Split(out) == before + ElementCommands(el)
  {
    out := z;
    if HasValue(el) {
      EscapedIsInert(el.value);
      var data := EscapeField(el.value);
      out := Push(out, DataPrefix(el) + data, before, Geometry(el));
    } else {
      assert Geometry(el) + FieldData(el) == Geometry(el);
    }
    out := Push(out, "FS\n", before, Geometry(el) + FieldData(el));
  }

  method PushText(z: string, el: Element, ghost before: seq<string>) returns (out: string)
    requires el.Text? && Split(z) == before + [Origin(el.x, el.y)]
    ensures Split(out) == before + Geometry(el)
  {
    ghost var done := [Origin(el.x, el.y)];
    out := z;
    if el.align == Center {
      out := Push(out, "FB400,1,0,C", before, done);
      done := done + ["FB400,1,0,C"];
    } else if el.align == Right {
      out := Push(out, "FB400,1,0,R", before, done);
      done := done + ["FB400,1,0,R"];
    }
    out := Push(out, Font(el.height, el.width), before, done);
    assert done + [Font(el.height, el.width)] == Geometry(el);
  }

  method PushBarcode(z: string, el: Element, ghost before: seq<string>) returns (out: string)
    requires el.Barcode? && Split(z) == before + [Origin(el.x, el.y)]
    ensures Split(out) == before + Geometry(el)
  {
    ghost var done := [Origin(el.x, el.y)];
    match el.symbology {
      case Code128 =>
        out := Push(z, BarDefaults(el.moduleDots, el.height), before, done);
        done := done + [BarDefaults(el.moduleDots, el.height)];
        out := Push(out, Code128Command(el.height, el.humanReadable), before, done);
        assert done + [Code128Command(el.height, el.humanReadable)] == Geometry(el);
      case Qr =>
        out := Push(z, "BQN,2," + Decimal(el.moduleDots), before, done);
      case DataMatrix =>
        out := Push(z, "BXN," + Decimal(el.moduleDots) + ",200", before, done);
    }
  }

  method RenderElement(el: Element, z: string) returns (out: string)
    ensures Split(out) == Split(z) + ElementCommands(el)
  {
    ghost var before := Split(z);
    assert before + [] == before;
    out := Push(z, Origin(el.x, el.y), before, []);
    assert [] + [Origin(el.x, el.y)] == [Origin(el.x, el.y)];
    match el {
      case Text(_, _, _, _, _, _) => out := PushText(out, el, before);
      case Barcode(_, _, _, _, _, _, _) => out := PushBarcode(out, el, before);
      case Box(_, _, w, h, thickness) => out := Push(out, BoxCommand(w, h, thickness), before, [Origin(el.x, el.y)]);
    }
    out := PushData(out, el, before);
  }

  /** The first element whose text still looks like a binding. */
  function FirstUnresolved(els: seq<Element>, k: nat): (i: nat)
    requires k <= |els|
    ensures k <= i <= |els|
    ensures i < |els| ==> HasValue(els[i]) && HasPair(els[i].value, '{')
    ensures forall j :: k <= j < i ==> HasValue(els[j]) ==> !HasPair(els[j].value, '{')
    decreases |els| - k
  {
    if k < |els| && !(HasValue(els[k]) && HasPair(els[k].value, '{')) then FirstUnresolved(els, k + 1) else k
  }

  /** Why a template is not rendered, if it is not. */
  function Refusal(t: Template): Option<TemplateError> {
    if Problem(t).Some? then Problem(t)
    else if FirstUnresolved(t.elements, 0) < |t.elements| then Some(Unresolved(FirstUnresolved(t.elements, 0)))
    else None
  }

  method RenderHeader(t: Template) returns (z: string)
    ensures Split(z) == [""] + Header(t)
  {
    assert [""] + [] == [""];
    z := Push("", "XA\n", [""], []);
    z := Push(z, "PW" + Decimal(t.widthDots), [""], ["XA\n"]);
    ghost var done := ["XA\n"] + ["PW" + Decimal(t.widthDots)];
    z := Push(z, "LL" + Decimal(t.heightDots), [""], done);
    done := done + ["LL" + Decimal(t.heightDots)];
    if t.darkness.Some? {
      z := Push(z, "LH0,0", [""], done);
      z := Push(z, "MD" + Decimal(t.darkness.value) + "\n", [""], done + ["LH0,0"]);
      assert done + ["LH0,0"] + ["MD" + Decimal(t.darkness.value) + "\n"] == Header(t);
    } else {
      z := Push(z, "LH0,0\n", [""], done);
    }
  }

  lemma AllOneMore(els: seq<Element>, i: nat, head: seq<string>)
    requires i < |els|
    ensures head + AllElementCommands(els[..i]) + ElementCommands(els[i]) == head + AllElementCommands(els[..i + 1])
  {
    assert els[..i + 1][..i] == els[..i];
    var a, b := AllElementCommands(els[..i]), ElementCommands(els[i]);
    assert AllElementCommands(els[..i + 1]) == a + b;
    assert head + a + b == head + (a + b);
  }

  /** Refuses a template with a value that still looks like a binding. */
  method CheckResolved(els: seq<Element>) returns (res: Outcome<TemplateError>)
    ensures FirstUnresolved(els, 0) == |els| ==> res == Pass
    ensures FirstUnresolved(els, 0) < |els| ==> res == Fail(Unresolved(FirstUnresolved(els, 0)))
  {
    for i := 0 to |els|
      invariant FirstUnresolved(els, 0) == FirstUnresolved(els, i)
    {
      if HasValue(els[i]) {
        var found := FindPair(els[i].value, '{');
        if found.Some? {
          return Fail(Unresolved(i));
        }
      }
    }
    res := Pass;
  }

  method RenderElements(els: seq<Element>, z: string) returns (out: string)
    ensures Split(out) == Split(z) + AllElementCommands(els)
  {
    out := z;
    ghost var head := Split(z);
    assert head + [] == head;
    for i := 0 to |els|
      invariant Split(out) == head + AllElementCommands(els[..i])
    {
      AllOneMore(els, i, head);
      out := RenderElement(els[i], out);
    }
    assert els[..|els|] == els;
  }

  /**
   Renders a bound template, or says why it cannot. Whatever the values are, the printer is given the
   commands of the template and no other.
   */
  method RenderZpl(t: Template) returns (res: Result<string, TemplateError>)
    ensures Refusal(t).Some? ==> res == Err(Refusal(t).value)
    ensures Refusal(t).None? ==> res.Ok? && Split(res.value) == [""] + Commands(t)
  {
    var valid := Validate(t);
    if valid.Fail? {
      return Err(valid.error);
    }
    var resolved := CheckResolved(t.elements);
    if resolved.Fail? {
      return Err(resolved.error);
    }
    var z := RenderHeader(t);
    z := RenderElements(t.elements, z);
    z := Push(z, "XZ\n", [""] + Header(t), AllElementCommands(t.elements));
    AssocPairs([""], Header(t), AllElementCommands(t.elements), ["XZ\n"]);
    res := Ok(z);
  }
}
