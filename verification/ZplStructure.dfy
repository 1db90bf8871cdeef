/** What a rendered label can and cannot contain, whatever its field values are. */
module ZplStructure {
  import opened Collections
  import opened Bindings
  import opened Labels
  import opened Zpl

  datatype Name = XA | XZ | FO | FS | FD

  predicate Is(name: Name, c: string) {
    |c| >= 2 &&
    match name
    case XA => c[0] == 'X' && c[1] == 'A'
    case XZ => c[0] == 'X' && c[1] == 'Z'
    case FO => c[0] == 'F' && c[1] == 'O'
    case FS => c[0] == 'F' && c[1] == 'S'
    case FD => c[0] == 'F' && c[1] == 'D'
  }

  /** How many of the commands have this name. */
  function Count(name: Name, cmds: seq<string>): nat {
    if cmds == [] then 0 else Count(name, cmds[..|cmds| - 1]) + if Is(name, cmds[|cmds| - 1]) then 1 else 0
  }

  /** The field data among the commands, in order. */
  function DataOf(cmds: seq<string>): seq<string> {
    if cmds == [] then []
    else if Is(FD, cmds[|cmds| - 1]) then DataOf(cmds[..|cmds| - 1]) + [cmds[|cmds| - 1]]
    else DataOf(cmds[..|cmds| - 1])
  }

  lemma {:induction false} CountConcat(name: Name, a: seq<string>, b: seq<string>)
    ensures Count(name, a + b) == Count(name, a) + Count(name, b)
  {
    if b == [] {
      assert a + b == a;
    } else {
      assert (a + b)[..|a + b| - 1] == a + b[..|b| - 1];
      CountConcat(name, a, b[..|b| - 1]);
    }
  }

  lemma {:induction false} DataConcat(a: seq<string>, b: seq<string>)
    ensures DataOf(a + b) == DataOf(a) + DataOf(b)
  {
    if b == [] {
      assert a + b == a;
    } else {
      assert (a + b)[..|a + b| - 1] == a + b[..|b| - 1];
      DataConcat(a, b[..|b| - 1]);
    }
  }

  lemma {:induction false} NoneIsCounted(name: Name, cmds: seq<string>)
    ensures name == FD && Count(name, cmds) == 0 ==> DataOf(cmds) == []
  {
    if cmds != [] {
      NoneIsCounted(name, cmds[..|cmds| - 1]);
    }
  }

  lemma CountOne(name: Name, c: string)
    ensures Count(name, [c]) == if Is(name, c) then 1 else 0
    ensures DataOf([c]) == if Is(FD, c) then [c] else []
  {
    assert [c][..0] == [];
  }

  /** Commands that set something up or out, with none of the names. */
  predicate SetsOut(c: string) {
    |c| >= 2 && c[0] != 'X' && (c[0] == 'F' ==> c[1] == 'B')
  }

  predicate AllSetOut(cmds: seq<string>) {
    cmds == [] || (SetsOut(cmds[|cmds| - 1]) && AllSetOut(cmds[..|cmds| - 1]))
  }

  lemma {:induction false} SetsOutIsNotCounted(name: Name, cmds: seq<string>)
    requires AllSetOut(cmds)
    ensures Count(name, cmds) == 0
  {
    if cmds != [] {
      SetsOutIsNotCounted(name, cmds[..|cmds| - 1]);
    }
  }

  lemma TwoSetOut(a: string, b: string)
    requires SetsOut(a) && SetsOut(b)
    ensures AllSetOut([a]) && AllSetOut([a, b])
  {
    assert [a][..0] == [] && [a, b][..1] == [a];
  }

  /** An origin and then one or two commands with none of the names. */
  predicate Places(g: seq<string>) {
    2 <= |g| <= 3 && Is(FO, g[0]) && SetsOut(g[1]) && SetsOut(g[|g| - 1])
  }

  lemma GeometryPlaces(el: Element)
    ensures Places(Geometry(el))
  {
  }

  lemma CountPlaces(name: Name, g: seq<string>)
    requires Places(g)
    ensures Count(name, g) == if name == FO then 1 else 0
  {
    TwoSetOut(g[1], g[|g| - 1]);
    assert g[1..] == if |g| == 2 then [g[1]] else [g[1], g[2]];
    assert g == [g[0]] + g[1..];
    CountConcat(name, [g[0]], g[1..]);
    CountOne(name, g[0]);
    SetsOutIsNotCounted(name, g[1..]);
  }

  /** Of the commands that set out an element only its origin has one of the names. */
  lemma CountGeometry(name: Name, el: Element)
    ensures Count(name, Geometry(el)) == if name == FO then 1 else 0
  {
    GeometryPlaces(el);
    CountPlaces(name, Geometry(el));
  }

  lemma CountHeader(name: Name, t: Template)
    ensures Count(name, Header(t)) == if name == XA then 1 else 0
  {
    var h := Header(t);
    TwoSetOut(h[1], h[2]);
    TwoSetOut(h[3], h[|h| - 1]);
    assert h[3..] == if |h| == 4 then [h[3]] else [h[3], h[4]];
    assert h == [h[0]] + [h[1], h[2]] + h[3..];
    CountConcat(name, [h[0]] + [h[1], h[2]], h[3..]);
    CountConcat(name, [h[0]], [h[1], h[2]]);
    CountOne(name, h[0]);
    SetsOutIsNotCounted(name, [h[1], h[2]]);
    SetsOutIsNotCounted(name, h[3..]);
  }

  lemma CountData(name: Name, el: Element)
    ensures Count(name, FieldData(el)) == if name == FD then |FieldData(el)| else 0
    ensures DataOf(FieldData(el)) == FieldData(el)
  {
    if HasValue(el) {
      CountOne(name, DataCommand(el));
    }
  }

  lemma CountThree(name: Name, a: seq<string>, b: seq<string>, c: string)
    ensures Count(name, a + b + [c]) == Count(name, a) + Count(name, b) + if Is(name, c) then 1 else 0
  {
    CountConcat(name, a + b, [c]);
    CountConcat(name, a, b);
    CountOne(name, c);
  }

  /** Where only the middle part has field data, that is all the field data there is. */
  lemma DataThree(a: seq<string>, b: seq<string>, c: string)
    requires Count(FD, a) == 0 && !Is(FD, c)
    ensures DataOf(a + b + [c]) == DataOf(b)
  {
    DataConcat(a + b, [c]);
    DataConcat(a, b);
    CountOne(FD, c);
    NoneIsCounted(FD, a);
  }

  lemma CountParts(name: Name, g: seq<string>, d: seq<string>)
    requires name != FD
    requires Count(name, g) == (if name == FO then 1 else 0) && Count(name, d) == 0
    ensures Count(name, g + d + ["FS\n"]) == if name == FO || name == FS then 1 else 0
  {
    CountThree(name, g, d, "FS\n");
  }

  lemma CountElement(name: Name, el: Element)
    requires name != FD
    ensures Count(name, ElementCommands(el)) == if name == FO || name == FS then 1 else 0
  {
    CountGeometry(name, el);
    CountData(name, el);
    CountParts(name, Geometry(el), FieldData(el));
  }

  lemma DataElement(el: Element)
    ensures DataOf(ElementCommands(el)) == FieldData(el)
  {
    CountGeometry(FD, el);
    CountData(FD, el);
    DataThree(Geometry(el), FieldData(el), "FS\n");
  }

  /** The data commands of all elements, in order. */
  function AllFieldData(els: seq<Element>): seq<string> {
    if els == [] then [] else AllFieldData(els[..|els| - 1]) + FieldData(els[|els| - 1])
  }

  lemma {:induction false} CountElements(name: Name, els: seq<Element>)
    requires name != FD
    ensures Count(name, AllElementCommands(els)) == if name == FO || name == FS then |els| else 0
  {
    if els != [] {
      var front, el := els[..|els| - 1], els[|els| - 1];
      CountElements(name, front);
      CountConcat(name, AllElementCommands(front), ElementCommands(el));
      CountElement(name, el);
    }
  }

  lemma {:induction false} DataElements(els: seq<Element>)
    ensures DataOf(AllElementCommands(els)) == AllFieldData(els)
  {
    if els != [] {
      var front, el := els[..|els| - 1], els[|els| - 1];
      DataElements(front);
      DataConcat(AllElementCommands(front), ElementCommands(el));
      DataElement(el);
    }
  }

  /** A label starts with its only ^XA, ends with its only ^XZ and has one ^FO and one ^FS for each element. */
  lemma LabelStructure(t: Template, name: Name)
    requires name != FD
    ensures Count(name, Commands(t)) == if name == XA || name == XZ then 1 else |t.elements|
    ensures Commands(t)[0] == "XA\n" && Commands(t)[|Commands(t)| - 1] == "XZ\n"
  {
    CountThree(name, Header(t), AllElementCommands(t.elements), "XZ\n");
    CountHeader(name, t);
    CountElements(name, t.elements);
  }

  /** The field data of a label are the escaped values, in the order of the elements. */
  lemma LabelData(t: Template)
    ensures DataOf(Commands(t)) == AllFieldData(t.elements)
  {
    CountHeader(FD, t);
    DataThree(Header(t), AllElementCommands(t.elements), "XZ\n");
    DataElements(t.elements);
  }

  /** Elements that differ at most in their values. */
  predicate SameGeometry(a: Element, b: Element) {
    if a.Box? || b.Box? then a == b
    else a.(value := "") == b.(value := "")
  }

  predicate SameLayout(a: seq<Element>, b: seq<Element>) {
    |a| == |b| && (a != [] ==> SameGeometry(a[|a| - 1], b[|b| - 1]) && SameLayout(a[..|a| - 1], b[..|b| - 1]))
  }

  /** Command lists that differ at most in the field data. */
  predicate SameButData(a: seq<string>, b: seq<string>) {
    |a| == |b| &&
    (a != [] ==>
       && (a[|a| - 1] == b[|b| - 1] || (Is(FD, a[|a| - 1]) && Is(FD, b[|b| - 1])))
       && SameButData(a[..|a| - 1], b[..|b| - 1]))
  }

  lemma {:induction false} SameConcat(a: seq<string>, a': seq<string>, b: seq<string>, b': seq<string>)
    requires SameButData(a, a') && SameButData(b, b')
    ensures SameButData(a + b, a' + b')
  {
    if b == [] {
      assert a + b == a && a' + b' == a';
    } else {
      assert (a + b)[..|a + b| - 1] == a + b[..|b| - 1] && (a' + b')[..|a' + b'| - 1] == a' + b'[..|b'| - 1];
      SameConcat(a, a', b[..|b| - 1], b'[..|b'| - 1]);
    }
  }

  lemma {:induction false} SameItself(a: seq<string>)
    ensures SameButData(a, a)
  {
    if a != [] {
      SameItself(a[..|a| - 1]);
    }
  }

  lemma SameElement(a: Element, b: Element)
    requires SameGeometry(a, b)
    ensures SameButData(ElementCommands(a), ElementCommands(b))
  {
    SameItself(Geometry(a));
    SameItself(["FS\n"]);
    assert SameButData(FieldData(a), FieldData(b)) by {
      if HasValue(a) {
        assert FieldData(a)[..0] == [] && FieldData(b)[..0] == [];
      }
    }
    SameConcat(Geometry(a), Geometry(b), FieldData(a), FieldData(b));
    SameConcat(Geometry(a) + FieldData(a), Geometry(b) + FieldData(b), ["FS\n"], ["FS\n"]);
  }

  lemma {:induction false} SameElements(a: seq<Element>, b: seq<Element>)
    requires SameLayout(a, b)
    ensures SameButData(AllElementCommands(a), AllElementCommands(b))
  {
    if a != [] {
      SameElements(a[..|a| - 1], b[..|b| - 1]);
      SameElement(a[|a| - 1], b[|b| - 1]);
      SameConcat(AllElementCommands(a[..|a| - 1]), AllElementCommands(b[..|b| - 1]),
                 ElementCommands(a[|a| - 1]), ElementCommands(b[|b| - 1]));
    }
  }

  /** What is on a label cannot change what the printer is told to do with it. */
  lemma DataCannotChangeCommands(t: Template, els: seq<Element>)
    requires SameLayout(t.elements, els)
    ensures SameButData(Commands(t), Commands(t.(elements := els)))
  {
    SameItself(Header(t));
    SameItself(["XZ\n"]);
    SameElements(t.elements, els);
    SameConcat(Header(t), Header(t), AllElementCommands(t.elements), AllElementCommands(els));
    SameConcat(Header(t) + AllElementCommands(t.elements), Header(t) + AllElementCommands(els), ["XZ\n"], ["XZ\n"]);
  }

  predicate AllInert(cmds: seq<string>) {
    cmds == [] || (Inert(cmds[|cmds| - 1]) && AllInert(cmds[..|cmds| - 1]))
  }

  lemma {:induction false} InertConcat(a: seq<string>, b: seq<string>)
    requires AllInert(a) && AllInert(b)
    ensures AllInert(a + b)
  {
    if b == [] {
      assert a + b == a;
    } else {
      assert (a + b)[..|a + b| - 1] == a + b[..|b| - 1];
      InertConcat(a, b[..|b| - 1]);
    }
  }

  lemma InertOne(a: string)
    requires Inert(a)
    ensures AllInert([a])
  {
    assert [a][..0] == [];
  }

  lemma {:induction false} FirstInert(cmds: seq<string>)
    requires cmds != [] && AllInert(cmds)
    ensures Inert(cmds[0]) && AllInert(cmds[1..])
  {
    if |cmds| > 1 {
      FirstInert(cmds[..|cmds| - 1]);
      assert cmds[1..][..|cmds| - 2] == cmds[..|cmds| - 1][1..];
    } else {
      assert cmds[1..] == [];
    }
  }

  /** A text whose commands hold no tilde holds none. */
  lemma {:induction false} NoTilde(z: string)
    requires AllInert(Split(z))
    ensures '~' !in z
  {
    if z != "" {
      var rest := Split(z[1..]);
      FirstInert(Split(z));
      if z[0] == '^' {
        assert Split(z)[1..] == rest;
      } else {
        assert Split(z)[0] == [z[0]] + rest[0] && Split(z)[1..] == rest[1..];
        assert rest == [rest[0]] + rest[1..];
        InertTail(z[0], rest[0]);
        InertOne(rest[0]);
        InertConcat([rest[0]], rest[1..]);
      }
      NoTilde(z[1..]);
      assert z == [z[0]] + z[1..];
    }
  }

  lemma InertTail(c: char, s: string)
    requires Inert([c] + s)
    ensures c != '~' && Inert(s)
  {
    assert ([c] + s)[0] == c;
    assert forall x :: x in s ==> x in [c] + s;
  }

  lemma GeometryIsInert(el: Element)
    ensures AllInert(Geometry(el))
  {
    var g := Geometry(el);
    InertOne(g[0]);
    assert Inert(g[1]) && (|g| == 3 ==> Inert(g[2]));
    InertOne(g[1]);
    InertConcat([g[0]], [g[1]]);
    if |g| == 3 {
      InertOne(g[2]);
      InertConcat([g[0]] + [g[1]], [g[2]]);
      assert g == [g[0]] + [g[1]] + [g[2]];
    } else {
      assert g == [g[0]] + [g[1]];
    }
  }

  lemma ElementIsInert(el: Element)
    ensures AllInert(ElementCommands(el))
  {
    GeometryIsInert(el);
    InertOne("FS\n");
    if HasValue(el) {
      EscapedIsInert(el.value);
      InertOne(DataCommand(el));
    }
    InertConcat(Geometry(el), FieldData(el));
    InertConcat(Geometry(el) + FieldData(el), ["FS\n"]);
  }

  lemma {:induction false} ElementsAreInert(els: seq<Element>)
    ensures AllInert(AllElementCommands(els))
  {
    if els != [] {
      ElementsAreInert(els[..|els| - 1]);
      ElementIsInert(els[|els| - 1]);
      InertConcat(AllElementCommands(els[..|els| - 1]), ElementCommands(els[|els| - 1]));
    }
  }

  lemma HeaderIsInert(t: Template)
    ensures AllInert(Header(t))
  {
    var w, h := "PW" + Decimal(t.widthDots), "LL" + Decimal(t.heightDots);
    InertOne("XA\n");
    InertOne(w);
    InertOne(h);
    InertConcat(["XA\n"], [w]);
    InertConcat(["XA\n"] + [w], [h]);
    DarknessIsInert(t);
    InertConcat(["XA\n"] + [w] + [h], Header(t)[3..]);
    assert ["XA\n"] + [w] + [h] + Header(t)[3..] == Header(t);
  }

  lemma DarknessIsInert(t: Template)
    ensures AllInert(Header(t)[3..])
  {
    if t.darkness.Some? {
      var dark := "MD" + Decimal(t.darkness.value) + "\n";
      InertOne("LH0,0");
      InertOne(dark);
      InertConcat(["LH0,0"], [dark]);
      assert Header(t)[3..] == ["LH0,0"] + [dark];
    } else {
      InertOne("LH0,0\n");
      assert Header(t)[3..] == ["LH0,0\n"];
    }
  }

  lemma CommandsAreInert(t: Template)
    ensures AllInert(Commands(t))
  {
    HeaderIsInert(t);
    ElementsAreInert(t.elements);
    InertOne("XZ\n");
    InertConcat(Header(t), AllElementCommands(t.elements));
    InertConcat(Header(t) + AllElementCommands(t.elements), ["XZ\n"]);
  }

  /** No tilde, the other character that starts a command, reaches the printer. */
  lemma LabelHasNoTilde(t: Template, z: string)
    requires Split(z) == [""] + Commands(t)
    ensures '~' !in z
  {
    CommandsAreInert(t);
    InertOne("");
    InertConcat([""], Commands(t));
    NoTilde(z);
  }

  /** No value of the template is left with anything that looks like a binding. */
  ghost predicate SeamFree(els: seq<Element>, ctx: Context) {
    forall i :: 0 <= i < |els| ==> SeamFreeAt(els, ctx, i)
  }

  ghost predicate SeamFreeAt(els: seq<Element>, ctx: Context, i: nat)
    requires i < |els|
  {
    HasValue(els[i]) ==> NoSeam(Cut(els[i].value), ctx, false)
  }

  lemma BoundValueSurvives(els: seq<Element>, bound: seq<Element>, ctx: Context, i: nat)
    requires IsBound(els, bound, ctx) && i < |els|
    ensures HasValue(bound[i]) == HasValue(els[i])
    ensures HasValue(els[i]) ==> (HasPair(bound[i].value, '{') <==> !SeamFreeAt(els, ctx, i))
  {
    assert BoundElement(els[i], ctx) == Ok(bound[i]);
    if HasValue(els[i]) {
      CutIsLeftmost(els[i].value);
      SurvivesIffSeam(Cut(els[i].value), ctx);
    }
  }

  /**
   A bound template is refused for what was wrong with it before binding and nothing else, if and only if
   it was refused then or no two braces meet in any of its values.
   */
  lemma {:induction false} BoundIsResolved(t: Template, els: seq<Element>, ctx: Context)
    requires IsBound(t.elements, els, ctx)
    ensures Refusal(t.(elements := els)) == Problem(t) <==> Problem(t).Some? || SeamFree(t.elements, ctx)
  {
    BindingKeepsProblems(t, els, ctx);
    var i := FirstUnresolved(els, 0);
    if i < |els| {
      BoundValueSurvives(t.elements, els, ctx, i);
    } else {
      forall j | 0 <= j < |els|
        ensures SeamFreeAt(t.elements, ctx, j)
      {
        BoundValueSurvives(t.elements, els, ctx, j);
      }
    }
  }
}
