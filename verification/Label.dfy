/** The label template: checking it and filling its bindings in (crates/trace-mark/src/template.rs). */
module Labels {
  import opened Collections
  import opened Bindings

  datatype Symbology = Code128 | Qr | DataMatrix
  datatype Align = Left | Center | Right

  datatype Element =
    | Text(x: nat, y: nat, height: nat, width: nat, value: string, align: Align)
    | Barcode(x: nat, y: nat, symbology: Symbology, moduleDots: nat, height: nat, value: string, humanReadable: bool)
    | Box(x: nat, y: nat, w: nat, h: nat, thickness: nat)

  /** The canvas in dots is an input here: it is rounded from millimetres in floating point. */
  datatype Template = Template(
    widthMm: real,
    heightMm: real,
    dpi: nat,
    widthDots: nat,
    heightDots: nat,
    darkness: Option<nat>,
    elements: seq<Element>)

  datatype TemplateError =
    | Binding(error: BindingError)
    | NoCanvas
    | NoResolution
    | NoElements
    | OffCanvas(index: nat)
    | Unresolved(index: nat)

  predicate HasValue(el: Element) {
    !el.Box?
  }

  predicate OnCanvas(t: Template, el: Element) {
    el.x < t.widthDots && el.y < t.heightDots
  }

  /** The first problem of a template, if it has one. */
  function Problem(t: Template): Option<TemplateError> {
    if t.widthMm <= 0.0 || t.heightMm <= 0.0 then Some(NoCanvas)
    else if t.dpi == 0 then Some(NoResolution)
    else if t.elements == [] then Some(NoElements)
    else if FirstOff(t, 0) < |t.elements| then Some(OffCanvas(FirstOff(t, 0)))
    else None
  }

  /** The first element from the k-th on whose origin is not on the canvas. */
  function FirstOff(t: Template, k: nat): (i: nat)
    requires k <= |t.elements|
    ensures k <= i <= |t.elements|
    ensures i < |t.elements| ==> !OnCanvas(t, t.elements[i])
    ensures forall j :: k <= j < i ==> OnCanvas(t, t.elements[j])
    decreases |t.elements| - k
  {
    if k < |t.elements| && OnCanvas(t, t.elements[k]) then FirstOff(t, k + 1) else k
  }

  /** Element i is the first whose origin is right of or below the canvas. */
  ghost predicate FirstOffCanvas(t: Template, i: nat) {
    && i < |t.elements| && (t.elements[i].x >= t.widthDots || t.elements[i].y >= t.heightDots)
    && forall j :: 0 <= j < i ==> t.elements[j].x < t.widthDots && t.elements[j].y < t.heightDots
  }

  /** The canvas is checked first, then the resolution, then that there are elements, then where they are. */
  method Validate(t: Template) returns (res: Outcome<TemplateError>)
    ensures res == if Problem(t).Some? then Fail(Problem(t).value) else Pass
    ensures res == Fail(NoCanvas) <==> t.widthMm <= 0.0 || t.heightMm <= 0.0
    ensures res == Fail(NoResolution) <==> t.widthMm > 0.0 && t.heightMm > 0.0 && t.dpi == 0
    ensures res == Fail(NoElements) <==> t.widthMm > 0.0 && t.heightMm > 0.0 && t.dpi > 0 && t.elements == []
    ensures res.Fail? && res.error.OffCanvas? ==> FirstOffCanvas(t, res.error.index)
    ensures res.Pass? <==>
              && t.widthMm > 0.0 && t.heightMm > 0.0 && t.dpi > 0 && t.elements != []
              && forall el :: el in t.elements ==> el.x < t.widthDots && el.y < t.heightDots
  {
    if t.widthMm <= 0.0 || t.heightMm <= 0.0 {
      return Fail(NoCanvas);
    }
    if t.dpi == 0 {
      return Fail(NoResolution);
    }
    if t.elements == [] {
      return Fail(NoElements);
    }
    var (w, h) := (t.widthDots, t.heightDots);
    for i := 0 to |t.elements|
      invariant FirstOff(t, 0) == FirstOff(t, i)
    {
      if t.elements[i].x >= w || t.elements[i].y >= h {
        return Fail(OffCanvas(i));
      }
    }
    res := Pass;
  }

  /** One element with its binding filled in. */
  function BoundElement(el: Element, ctx: Context): Result<Element, BindingError> {
    if el.Box? then Ok(el)
    else
      var text := Rendered(el.value, ctx);
      if text.Err? then Err(text.error) else Ok(el.(value := text.value))
  }

  /** `bound` is `els` with every binding filled in. */
  ghost predicate IsBound(els: seq<Element>, bound: seq<Element>, ctx: Context) {
    |bound| == |els| && forall i :: 0 <= i < |els| ==> BoundElement(els[i], ctx) == Ok(bound[i])
  }

  /** Element i is the first that cannot be bound. */
  ghost predicate FirstUnbound(els: seq<Element>, ctx: Context, i: nat, e: BindingError) {
    && i < |els|
    && BoundElement(els[i], ctx) == Err(e)
    && forall j :: 0 <= j < i ==> BoundElement(els[j], ctx).Ok?
  }

  /** Fills the bindings of a copy of the template, element by element. */
  method Bind(t: Template, ctx: Context) returns (res: Result<Template, TemplateError>)
    ensures res.Ok? ==> res.value == t.(elements := res.value.elements)
    ensures res.Ok? ==> IsBound(t.elements, res.value.elements, ctx)
    ensures res.Ok? ==> forall i :: 0 <= i < |t.elements| ==>
              var el, bound := t.elements[i], res.value.elements[i];
              if el.Box? then bound == el
              else Rendered(el.value, ctx).Ok? && bound == el.(value := Rendered(el.value, ctx).value)
    ensures res.Err? ==> res.error.Binding? && exists i :: FirstUnbound(t.elements, ctx, i, res.error.error)
  {
    var els := t.elements;
    for i := 0 to |els|
      invariant |els| == |t.elements|
      invariant forall j :: 0 <= j < i ==> BoundElement(t.elements[j], ctx) == Ok(els[j])
      invariant forall j :: i <= j < |els| ==> els[j] == t.elements[j]
    {
      var el := els[i];
      if HasValue(el) {
        var text := RenderExpression(el.value, ctx);
        if text.Err? {
          assert FirstUnbound(t.elements, ctx, i, text.error);
          return Err(Binding(text.error));
        }
        els := els[i := el.(value := text.value)];
      }
    }
    res := Ok(t.(elements := els));
  }

  lemma {:induction false} BindingKeepsOrigins(t: Template, els: seq<Element>, ctx: Context, k: nat)
    requires IsBound(t.elements, els, ctx) && k <= |els|
    ensures FirstOff(t.(elements := els), k) == FirstOff(t, k)
    decreases |els| - k
  {
    if k < |els| {
      assert BoundElement(t.elements[k], ctx) == Ok(els[k]);
      BindingKeepsOrigins(t, els, ctx, k + 1);
    }
  }

  /** Binding moves nothing: a template is as printable after it as it was before. */
  lemma BindingKeepsProblems(t: Template, els: seq<Element>, ctx: Context)
    requires IsBound(t.elements, els, ctx)
    ensures Problem(t.(elements := els)) == Problem(t)
  {
    BindingKeepsOrigins(t, els, ctx, 0);
  }
}
