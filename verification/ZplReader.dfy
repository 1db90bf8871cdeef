/** Reading a label back from its ZPL text, as a printer does (crates/trace-mark/src/zpl.rs). */
module ZplReader {
  import opened Collections
  import opened Labels
  import opened Zpl

  /** What a printer is asked to put on the label. A code is told its height only where the text says it. */
  datatype Printed =
    | PrintedText(x: nat, y: nat, height: nat, width: nat, align: Align, data: string)
    | PrintedCode128(x: nat, y: nat, moduleDots: nat, height: nat, humanReadable: bool, data: string)
    | PrintedQr(x: nat, y: nat, magnification: nat, data: string)
    | PrintedDataMatrix(x: nat, y: nat, moduleDots: nat, data: string)
    | PrintedBox(x: nat, y: nat, w: nat, h: nat, thickness: nat)

  datatype Sheet = Sheet(widthDots: nat, heightDots: nat, darkness: Option<nat>, printed: seq<Printed>)

  // ------------------------------------------------------------ carets and commas

  function Join(parts: seq<string>): string
    requires parts != []
  {
    if |parts| == 1 then parts[0] else parts[0] + "^" + Join(parts[1..])
  }

  /** Cutting a text at its carets loses nothing. */
  lemma {:induction false} SplitJoins(z: string)
    ensures Join(Split(z)) == z
    ensures forall part :: part in Split(z) ==> '^' !in part
  {
    if z != "" {
      SplitJoins(z[1..]);
      var rest := Split(z[1..]);
      assert z == [z[0]] + z[1..];
      if z[0] == '^' {
        assert ([""] + rest)[1..] == rest;
        assert "" + "^" + Join(rest) == "^" + z[1..];
      } else if |rest| > 1 {
        assert Split(z)[1..] == rest[1..];
        assert [z[0]] + rest[0] + "^" + Join(rest[1..]) == [z[0]] + (rest[0] + "^" + Join(rest[1..]));
      }
    }
  }

  /** The parameters of a command: what stands between its commas. */
  function Parts(s: string): (parts: seq<string>)
    ensures parts != []
  {
    if s == "" then [""]
    else
      var rest := Parts(s[1..]);
      if s[0] == ',' then [""] + rest else [[s[0]] + rest[0]] + rest[1..]
  }

  lemma {:induction false} OnePart(s: string)
    requires ',' !in s
    ensures Parts(s) == [s]
  {
    if s != "" {
      OnePart(s[1..]);
      assert s == [s[0]] + s[1..];
    }
  }

  lemma {:induction false} FirstPart(a: string, rest: string)
    requires ',' !in a
    ensures Parts(a + ("," + rest)) == [a] + Parts(rest)
  {
    var s := a + ("," + rest);
    if a == "" {
      assert s == "," + rest && s[1..] == rest;
    } else {
      assert s[1..] == a[1..] + ("," + rest);
      FirstPart(a[1..], rest);
      assert a == [a[0]] + a[1..];
    }
  }

  lemma TwoParts(a: string, b: string)
    requires ',' !in a && ',' !in b
    ensures Parts(a + "," + b) == [a, b]
  {
    Assoc(a, ",", b);
    FirstPart(a, b);
    OnePart(b);
  }

  lemma ThreeParts(a: string, b: string, c: string)
    requires ',' !in a && ',' !in b && ',' !in c
    ensures Parts(a + "," + b + "," + c) == [a, b, c]
  {
    assert a + "," + b + "," + c == a + ("," + (b + "," + c));
    FirstPart(a, b + "," + c);
    TwoParts(b, c);
  }

  function Number(s: string): Option<nat> {
    if s != "" && AllDigits(s) then Some(DecimalValue(s)) else None
  }

  /** The number behind a name. */
  function After(name: string, s: string): Option<nat> {
    if name <= s then Number(s[|name|..]) else None
  }

  lemma NumberReads(n: nat)
    ensures Number(Decimal(n)) == Some(n) && ',' !in Decimal(n)
  {
    DecimalRoundTrip(n);
  }

  lemma AfterReads(name: string, n: nat)
    requires ',' !in name
    ensures After(name, name + Decimal(n)) == Some(n) && ',' !in name + Decimal(n)
  {
    NumberReads(n);
    assert (name + Decimal(n))[|name|..] == Decimal(n);
  }

  // ------------------------------------------------------------ one field

  function DataAfter(name: string, c: string): Option<string> {
    if name <= c then Some(c[|name|..]) else None
  }

  function ReadText(x: nat, y: nat, align: Align, font: string, data: string): Option<Printed> {
    var p, d := Parts(font), DataAfter("FD", data);
    if |p| == 3 && p[0] == "A0N" && Number(p[1]).Some? && Number(p[2]).Some? && d.Some? then
      Some(PrintedText(x, y, Number(p[1]).value, Number(p[2]).value, align, d.value))
    else None
  }

  function ReadCode128(x: nat, y: nat, defaults: string, code: string, data: string): Option<Printed> {
    var p, q, d := Parts(defaults), Parts(code), DataAfter("FD", data);
    if |p| == 3 && After("BY", p[0]).Some? && p[1] == "2.0" && |q| == 5 && q[0] == "BCN" && q[1] == p[2]
       && Number(q[1]).Some? && q[2] in ["Y", "N"] && q[3..] == ["N", "N"] && d.Some? then
      Some(PrintedCode128(x, y, After("BY", p[0]).value, Number(q[1]).value, q[2] == "Y", d.value))
    else None
  }

  function ReadQr(x: nat, y: nat, code: string, data: string): Option<Printed> {
    var p, d := Parts(code), DataAfter("FDQA,", data);
    if |p| == 3 && p[0] == "BQN" && p[1] == "2" && Number(p[2]).Some? && d.Some? then
      Some(PrintedQr(x, y, Number(p[2]).value, d.value))
    else None
  }

  function ReadDataMatrix(x: nat, y: nat, code: string, data: string): Option<Printed> {
    var p, d := Parts(code), DataAfter("FD", data);
    if |p| == 3 && p[0] == "BXN" && Number(p[1]).Some? && p[2] == "200" && d.Some? then
      Some(PrintedDataMatrix(x, y, Number(p[1]).value, d.value))
    else None
  }

  function ReadBox(x: nat, y: nat, box: string): Option<Printed> {
    var p := Parts(box);
    if |p| == 3 && After("GB", p[0]).Some? && Number(p[1]).Some? && Number(p[2]).Some? then
      Some(PrintedBox(x, y, After("GB", p[0]).value, Number(p[1]).value, Number(p[2]).value))
    else None
  }

  /** What stands between the origin of a field and its end. */
  function ReadBody(x: nat, y: nat, body: seq<string>): Option<Printed> {
    if |body| == 1 then ReadBox(x, y, body[0])
    else if |body| == 2 then
      if "A" <= body[0] then ReadText(x, y, Left, body[0], body[1])
      else if "BQ" <= body[0] then ReadQr(x, y, body[0], body[1])
      else ReadDataMatrix(x, y, body[0], body[1])
    else if |body| == 3 then
      if body[0] == "FB400,1,0,C" then ReadText(x, y, Center, body[1], body[2])
      else if body[0] == "FB400,1,0,R" then ReadText(x, y, Right, body[1], body[2])
      else ReadCode128(x, y, body[0], body[1], body[2])
    else None
  }

  function ReadField(cmds: seq<string>): Option<Printed> {
    if |cmds| < 2 || cmds[|cmds| - 1] != "FS\n" then None else
      var p := Parts(cmds[0]);
      if |p| == 2 && After("FO", p[0]).Some? && Number(p[1]).Some? then
        ReadBody(After("FO", p[0]).value, Number(p[1]).value, cmds[1..|cmds| - 1])
      else None
  }

  /** What an element is to look like. */
  function Look(el: Element): Printed {
    match el
    case Text(x, y, height, width, value, align) => PrintedText(x, y, height, width, align, Escaped(value))
    case Barcode(x, y, Code128, m, height, value, hr) => PrintedCode128(x, y, m, height, hr, Escaped(value))
    case Barcode(x, y, Qr, m, _, value, _) => PrintedQr(x, y, m, Escaped(value))
    case Barcode(x, y, DataMatrix, m, _, value, _) => PrintedDataMatrix(x, y, m, Escaped(value))
    case Box(x, y, w, h, thickness) => PrintedBox(x, y, w, h, thickness)
  }

  lemma DataReads(name: string, data: string)
    ensures DataAfter(name, name + data) == Some(data)
  {
    assert (name + data)[|name|..] == data;
  }

  lemma TextReads(x: nat, y: nat, align: Align, height: nat, width: nat, value: string)
    ensures ReadText(x, y, align, Font(height, width), "FD" + Escaped(value))
         == Some(PrintedText(x, y, height, width, align, Escaped(value)))
  {
    NumberReads(height);
    NumberReads(width);
    assert Font(height, width) == "A0N" + "," + Decimal(height) + "," + Decimal(width);
    ThreeParts("A0N", Decimal(height), Decimal(width));
    DataReads("FD", Escaped(value));
  }

  lemma DefaultsRead(m: nat, height: nat)
    ensures Parts(BarDefaults(m, height)) == ["BY" + Decimal(m), "2.0", Decimal(height)]
  {
    AfterReads("BY", m);
    NumberReads(height);
    assert BarDefaults(m, height) == "BY" + Decimal(m) + "," + "2.0" + "," + Decimal(height);
    ThreeParts("BY" + Decimal(m), "2.0", Decimal(height));
  }

  lemma Code128Parts(height: nat, hr: bool)
    ensures Parts(Code128Command(height, hr)) == ["BCN", Decimal(height), if hr then "Y" else "N", "N", "N"]
  {
    hide Decimal, Number;
    NumberReads(height);
    var flag := if hr then "Y" else "N";
    assert Code128Command(height, hr) == "BCN" + ("," + (Decimal(height) + ("," + (flag + "," + "N" + "," + "N"))));
    ThreeParts(flag, "N", "N");
    FirstPart(Decimal(height), flag + "," + "N" + "," + "N");
    FirstPart("BCN", Decimal(height) + ("," + (flag + "," + "N" + "," + "N")));
  }

  lemma Code128Reads(x: nat, y: nat, m: nat, height: nat, hr: bool, value: string)
    ensures ReadCode128(x, y, BarDefaults(m, height), Code128Command(height, hr), "FD" + Escaped(value))
         == Some(PrintedCode128(x, y, m, height, hr, Escaped(value)))
  {
    DefaultsRead(m, height);
    Code128Parts(height, hr);
    AfterReads("BY", m);
    NumberReads(height);
    DataReads("FD", Escaped(value));
  }

  lemma QrReads(x: nat, y: nat, m: nat, value: string)
    ensures ReadQr(x, y, "BQN,2," + Decimal(m), "FDQA," + Escaped(value)) == Some(PrintedQr(x, y, m, Escaped(value)))
  {
    NumberReads(m);
    assert "BQN,2," + Decimal(m) == "BQN" + "," + "2" + "," + Decimal(m);
    ThreeParts("BQN", "2", Decimal(m));
    DataReads("FDQA,", Escaped(value));
  }

  lemma DataMatrixReads(x: nat, y: nat, m: nat, value: string)
    ensures ReadDataMatrix(x, y, "BXN," + Decimal(m) + ",200", "FD" + Escaped(value))
         == Some(PrintedDataMatrix(x, y, m, Escaped(value)))
  {
    NumberReads(m);
    assert "BXN," + Decimal(m) + ",200" == "BXN" + "," + Decimal(m) + "," + "200";
    ThreeParts("BXN", Decimal(m), "200");
    DataReads("FD", Escaped(value));
  }

  lemma BoxReads(x: nat, y: nat, w: nat, h: nat, thickness: nat)
    ensures ReadBox(x, y, BoxCommand(w, h, thickness)) == Some(PrintedBox(x, y, w, h, thickness))
  {
    AfterReads("GB", w);
    NumberReads(h);
    NumberReads(thickness);
    ThreeParts("GB" + Decimal(w), Decimal(h), Decimal(thickness));
  }

  lemma OriginReads(x: nat, y: nat)
    ensures var p := Parts(Origin(x, y)); |p| == 2 && After("FO", p[0]) == Some(x) && Number(p[1]) == Some(y)
  {
    AfterReads("FO", x);
    NumberReads(y);
    TwoParts("FO" + Decimal(x), Decimal(y));
  }

  lemma BodyReads(el: Element)
    ensures ReadBody(el.x, el.y, Geometry(el)[1..] + FieldData(el)) == Some(Look(el))
  {
    hide Decimal, Parts, Number, After, Escaped, ReadText, ReadCode128, ReadQr, ReadDataMatrix, ReadBox;
    match el
    case Text(x, y, height, width, value, align) => TextReads(x, y, align, height, width, value);
    case Barcode(x, y, Code128, m, height, value, hr) => Code128Reads(x, y, m, height, hr, value);
    case Barcode(x, y, Qr, m, _, value, _) =>
      QrReads(x, y, m, value);
      assert ("BQN,2," + Decimal(m))[..2] == "BQ" && ("BQN,2," + Decimal(m))[0] != 'A';
    case Barcode(x, y, DataMatrix, m, _, value, _) =>
      DataMatrixReads(x, y, m, value);
      var code := "BXN," + Decimal(m) + ",200";
      assert code[0] == 'B' && code[1] == 'X';
    case Box(x, y, w, h, thickness) => BoxReads(x, y, w, h, thickness);
  }

  /** The commands of an element read back as the element. */
  lemma FieldReads(el: Element)
    ensures ReadField(ElementCommands(el)) == Some(Look(el))
  {
    OriginReads(el.x, el.y);
    BodyReads(el);
    var cmds := ElementCommands(el);
    assert cmds[0] == Origin(el.x, el.y);
    assert cmds[1..|cmds| - 1] == Geometry(el)[1..] + FieldData(el);
  }

  // ------------------------------------------------------------ a whole label

  /** The commands cut into fields, each up to its `FS`; `open` is what the first one has already. */
  function Fields(cmds: seq<string>, open: seq<string>): seq<seq<string>> {
    if cmds == [] then (if open == [] then [] else [open])
    else if cmds[0] == "FS\n" then [open + [cmds[0]]] + Fields(cmds[1..], [])
    else Fields(cmds[1..], open + [cmds[0]])
  }

  lemma {:induction false} OneField(cmds: seq<string>, open: seq<string>, rest: seq<string>)
    requires cmds != [] && cmds[|cmds| - 1] == "FS\n"
    requires forall i :: 0 <= i < |cmds| - 1 ==> cmds[i] != "FS\n"
    ensures Fields(cmds + rest, open) == [open + cmds] + Fields(rest, [])
  {
    assert (cmds + rest)[1..] == cmds[1..] + rest;
    if |cmds| == 1 {
      assert cmds == ["FS\n"] && cmds[1..] + rest == rest;
    } else {
      OneField(cmds[1..], open + [cmds[0]], rest);
      assert open + [cmds[0]] + cmds[1..] == open + cmds;
    }
  }

  lemma EndsOnce(el: Element)
    ensures var cmds := ElementCommands(el);
      && cmds != [] && cmds[|cmds| - 1] == "FS\n" && forall i :: 0 <= i < |cmds| - 1 ==> cmds[i] != "FS\n"
  {
    var cmds, g := ElementCommands(el), Geometry(el);
    assert g[0][1] == 'O' && "FS\n"[1] == 'S';
    assert forall i :: 1 <= i < |g| ==> g[i][0] != 'F' || g[i][1] == 'B';
    forall i | 0 <= i < |cmds| - 1
      ensures cmds[i] != "FS\n"
    {
      if i < |g| {
        assert cmds[i] == g[i];
      } else {
        assert cmds[i] == DataCommand(el);
      }
    }
  }

  function FieldLists(els: seq<Element>): (fields: seq<seq<string>>)
    ensures |fields| == |els| && forall i :: 0 <= i < |els| ==> fields[i] == ElementCommands(els[i])
  {
    seq(|els|, i requires 0 <= i < |els| => ElementCommands(els[i]))
  }

  lemma {:induction false} ElementFields(els: seq<Element>, rest: seq<string>)
    ensures Fields(AllElementCommands(els) + rest, []) == FieldLists(els) + Fields(rest, [])
  {
    hide ElementCommands, Fields;
    if els == [] {
      assert [] + rest == rest && FieldLists([]) + Fields(rest, []) == Fields(rest, []);
    } else {
      var n := |els| - 1;
      var last := ElementCommands(els[n]);
      ElementFields(els[..n], last + rest);
      Assoc(AllElementCommands(els[..n]), last, rest);
      EndsOnce(els[n]);
      OneField(last, [], rest);
      assert [] + last == last;
      assert FieldLists(els) == FieldLists(els[..n]) + [last];
      Assoc(FieldLists(els[..n]), [last], Fields(rest, []));
    }
  }

  function ReadFields(fields: seq<seq<string>>): Option<seq<Printed>> {
    if fields == [] then Some([])
    else
      var before, last := ReadFields(fields[..|fields| - 1]), ReadField(fields[|fields| - 1]);
      if before.Some? && last.Some? then Some(before.value + [last.value]) else None
  }

  function Looks(els: seq<Element>): (printed: seq<Printed>)
    ensures |printed| == |els| && forall i :: 0 <= i < |els| ==> printed[i] == Look(els[i])
  {
    seq(|els|, i requires 0 <= i < |els| => Look(els[i]))
  }

  lemma {:induction false} FieldsRead(els: seq<Element>)
    ensures ReadFields(FieldLists(els)) == Some(Looks(els))
  {
    hide ElementCommands, ReadField, Look;
    if els != [] {
      var n := |els| - 1;
      FieldsRead(els[..n]);
      assert FieldLists(els)[..n] == FieldLists(els[..n]);
      FieldReads(els[n]);
      assert Looks(els) == Looks(els[..n]) + [Look(els[n])];
    }
  }

  /** A number between a name and a line end. */
  function LineAfter(name: string, s: string): Option<nat> {
    if s != "" && s[|s| - 1] == '\n' then After(name, s[..|s| - 1]) else None
  }

  function ReadSheet(cmds: seq<string>): Option<Sheet> {
    if |cmds| < 5 || cmds[0] != "XA\n" || cmds[|cmds| - 1] != "XZ\n" then None
    else
      var w, h, dark := After("PW", cmds[1]), After("LL", cmds[2]), LineAfter("MD", cmds[4]);
      if w.None? || h.None? then None
      else if cmds[3] == "LH0,0\n" then WithFields(w.value, h.value, None, cmds[4..|cmds| - 1])
      else if cmds[3] == "LH0,0" && dark.Some? && |cmds| > 5 then
        WithFields(w.value, h.value, dark, cmds[5..|cmds| - 1])
      else None
  }

  function WithFields(w: nat, h: nat, darkness: Option<nat>, cmds: seq<string>): Option<Sheet> {
    var printed := ReadFields(Fields(cmds, []));
    if printed.Some? then Some(Sheet(w, h, darkness, printed.value)) else None
  }

  function ReadLabel(z: string): Option<Sheet> {
    if Split(z)[0] == "" then ReadSheet(Split(z)[1..]) else None
  }

  lemma ElementsRead(els: seq<Element>)
    ensures ReadFields(Fields(AllElementCommands(els), [])) == Some(Looks(els))
  {
    ElementFields(els, []);
    assert AllElementCommands(els) + [] == AllElementCommands(els);
    assert FieldLists(els) + Fields([], []) == FieldLists(els);
    FieldsRead(els);
  }

  lemma HeaderReads(t: Template)
    ensures After("PW", Header(t)[1]) == Some(t.widthDots) && After("LL", Header(t)[2]) == Some(t.heightDots)
    ensures t.darkness.Some? ==> Header(t)[3] == "LH0,0" && LineAfter("MD", Header(t)[4]) == t.darkness
    ensures t.darkness.None? ==> Header(t)[3] == "LH0,0\n"
  {
    AfterReads("PW", t.widthDots);
    AfterReads("LL", t.heightDots);
    if t.darkness.Some? {
      AfterReads("MD", t.darkness.value);
      var line := "MD" + Decimal(t.darkness.value) + "\n";
      assert line[..|line| - 1] == "MD" + Decimal(t.darkness.value);
    }
  }

  lemma SheetReads(t: Template)
    ensures ReadSheet(Commands(t)) == Some(Sheet(t.widthDots, t.heightDots, t.darkness, Looks(t.elements)))
  {
    hide ElementCommands, ReadFields, Fields, After, LineAfter;
    var cmds, h, body := Commands(t), Header(t), AllElementCommands(t.elements);
    HeaderReads(t);
    ElementsRead(t.elements);
    assert cmds[..|h|] == h && cmds[|h|..|cmds| - 1] == body;
    assert forall i :: 0 <= i < |h| ==> cmds[i] == h[i];
  }

  /**
   The text of a label, read back: the size and darkness of the template, and every element in order, at its
   place, with its own measures and its escaped value.
   */
  lemma LabelReadsBack(t: Template, z: string)
    requires Split(z) == [""] + Commands(t)
    ensures ReadLabel(z) == Some(Sheet(t.widthDots, t.heightDots, t.darkness, Looks(t.elements)))
  {
    SheetReads(t);
    assert Split(z)[1..] == Commands(t);
  }
}
