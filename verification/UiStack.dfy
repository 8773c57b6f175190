/**
 The stack of UI elements a script builds, call by call, and its hand-over to the packet
 encoder. Every call of the UI library names its element type and argument list here.
 */
module UiStack {
  import opened Optional
  import opened UiPacket

  // ----- The calls that emit an element, and the type and arguments each emits -----

  // Texts, buttons and boxes.
  datatype Widget<A> =
    | Text(str: A) | TextColored(r: A, g: A, b: A, a: A, str: A) | TextDisabled(str: A) | BulletText(str: A)
    | SmallButton(str: A) | InvisibleButton(str: A, w: A, h: A) | ArrowButton(str: A, dir: A)
    | Button(str: A, w: A, h: A) | Checkbox(str: A, checked: A) | RadioButton(str: A, active: A)
    | ProgressBar(fraction: A, w: A, h: A, overlay: A) | Bullet

  // Trees, lists and plots.
  datatype Tree<A> =
    | TreeNode(str: A) | TreePush(str: A) | TreePop | CollapsingHeader(str: A) | SetNextItemOpen(open: A)
    | Selectable(str: A, selected: A, unused: A, w: A, h: A) | ListBox(str: A, current: A, names: A, height: A)
    | PlotLines(str: A, values: A, offset: A, overlay: A, lo: A, hi: A, w: A, h: A)
    | PlotHistogram(str: A, values: A, offset: A, overlay: A, lo: A, hi: A, w: A, h: A)

  // Style and layout.
  datatype Layout<A> =
    | PushStyleColor(idx: A, r: A, g: A, b: A, a: A) | PopStyleColor(count: A) | PushItemWidth(w: A)
    | PopItemWidth | SetNextItemWidth(w: A) | Separator | SameLine(offset: A, spacing: A) | NewLine | Spacing
    | Dummy(w: A, h: A) | Indent(w: A) | Unindent(w: A)

  // Groups, drag and drop.
  datatype Group<A> =
    | BeginGroup | EndGroup(id: A) | BeginDragDropSource(id: A) | SetDragDropPayload(format: A, buffer: A)
    | EndDragDropSource | BeginDragDropTarget(id: A) | AcceptDragDropPayload(id: A) | EndDragDropTarget

  // Draggable numbers: a label, the edited values, speed and limits.
  datatype Drag<A> =
    | DragFloat(str: A, v1: A, speed: A, lo: A, hi: A)
    | DragFloat2(str: A, v1: A, v2: A, speed: A, lo: A, hi: A)
    | DragFloat3(str: A, v1: A, v2: A, v3: A, speed: A, lo: A, hi: A)
    | DragFloat4(str: A, v1: A, v2: A, v3: A, v4: A, speed: A, lo: A, hi: A)
    | DragInt(str: A, v1: A, speed: A, lo: A, hi: A) | DragInt2(str: A, v1: A, v2: A, speed: A, lo: A, hi: A)
    | DragInt3(str: A, v1: A, v2: A, v3: A, speed: A, lo: A, hi: A)
    | DragInt4(str: A, v1: A, v2: A, v3: A, v4: A, speed: A, lo: A, hi: A)

  // Sliders: a label, the edited values, and two limits.
  datatype Slider<A> =
    | SliderFloat(str: A, v1: A, lo: A, hi: A) | SliderFloat2(str: A, v1: A, v2: A, lo: A, hi: A)
    | SliderFloat3(str: A, v1: A, v2: A, v3: A, lo: A, hi: A)
    | SliderFloat4(str: A, v1: A, v2: A, v3: A, v4: A, lo: A, hi: A) | SliderAngle(str: A, v1: A, lo: A, hi: A)
    | SliderInt(str: A, v1: A, lo: A, hi: A) | SliderInt2(str: A, v1: A, v2: A, lo: A, hi: A)
    | SliderInt3(str: A, v1: A, v2: A, v3: A, lo: A, hi: A)
    | SliderInt4(str: A, v1: A, v2: A, v3: A, v4: A, lo: A, hi: A)

  // Input fields: a label and the edited values.
  datatype Input<A> =
    | InputText(str: A, v1: A) | InputTextMultiline(str: A, v1: A) | InputInt(str: A, v1: A)
    | InputFloat(str: A, v1: A) | InputDouble(str: A, v1: A) | InputInt2(str: A, v1: A, v2: A)
    | InputFloat2(str: A, v1: A, v2: A) | InputInt3(str: A, v1: A, v2: A, v3: A)
    | InputFloat3(str: A, v1: A, v2: A, v3: A) | InputInt4(str: A, v1: A, v2: A, v3: A, v4: A)
    | InputFloat4(str: A, v1: A, v2: A, v3: A, v4: A)

  // Colours: a label and the channels.
  datatype Colour<A> =
    | ColorEdit3(str: A, v1: A, v2: A, v3: A) | ColorEdit4(str: A, v1: A, v2: A, v3: A, v4: A)
    | ColorPicker3(str: A, v1: A, v2: A, v3: A) | ColorPicker4(str: A, v1: A, v2: A, v3: A, v4: A)
    | ColorButton(str: A, v1: A, v2: A, v3: A, v4: A, unused: A, w: A, h: A)

  datatype Call<A> =
    | OnWidget(widget: Widget<A>) | OnTree(tree: Tree<A>) | OnLayout(layout: Layout<A>) | OnGroup(group: Group<A>)
    | OnDrag(drag: Drag<A>) | OnSlider(slider: Slider<A>) | OnInput(input: Input<A>) | OnColour(colour: Colour<A>)

  // What the emitting templates push: a label, N edited values, and trailing parameters.
  function Labelled<A>(str: A, values: seq<A>, extras: seq<A>): seq<A> {
    [str] + values + extras
  }

  function WidgetRow<A>(c: Widget<A>): Row<A> {
    match c
    case Text(str) => Row("text", [str])
    case TextColored(r, g, b, a, str) => Row("textcolored", [r, g, b, a, str])
    case TextDisabled(str) => Row("textdisabled", [str])
    case BulletText(str) => Row("bullettext", [str])
    case SmallButton(str) => Row("smallbutton", [str])
    case InvisibleButton(str, w, h) => Row("invisiblebutton", [str, w, h])
    case ArrowButton(str, dir) => Row("arrowbutton", [str, dir])
    case Button(str, w, h) => Row("button", [str, w, h])
    case Checkbox(str, checked) => Row("checkbox", [str, checked])
    case RadioButton(str, active) => Row("radiobutton", [str, active])
    case ProgressBar(fraction, w, h, overlay) => Row("progressbar", [fraction, w, h, overlay])
    case Bullet => Row("bullet", [])
  }

  function TreeRow<A>(c: Tree<A>): Row<A> {
    match c
    case TreeNode(str) => Row("treenode", [str])
    case TreePush(str) => Row("treepush", [str])
    case TreePop => Row("treepop", [])
    case CollapsingHeader(str) => Row("collapsingheader", [str])
    case SetNextItemOpen(open) => Row("setnextitemopen", [open])
    case Selectable(str, selected, unused, w, h) => Row("selectable", [str, selected, unused, w, h])
    case ListBox(str, current, names, height) => Row("listbox", [str, current, names, height])
    case PlotLines(str, values, offset, overlay, lo, hi, w, h) =>
      Row("plotlines", [str, values, offset, overlay, lo, hi, w, h])
    case PlotHistogram(str, values, offset, overlay, lo, hi, w, h) =>
      Row("plothistogram", [str, values, offset, overlay, lo, hi, w, h])
  }

  function LayoutRow<A>(c: Layout<A>): Row<A> {
    match c
    case PushStyleColor(idx, r, g, b, a) => Row("pushstylecolor", [idx, r, g, b, a])
    case PopStyleColor(count) => Row("popstylecolor", [count])
    case PushItemWidth(w) => Row("pushitemwidth", [w])
    case PopItemWidth => Row("popitemwidth", [])
    case SetNextItemWidth(w) => Row("setnextitemwidth", [w])
    case Separator => Row("separator", [])
    case SameLine(offset, spacing) => Row("sameline", [offset, spacing])
    case NewLine => Row("newline", [])
    case Spacing => Row("spacing", [])
    case Dummy(w, h) => Row("dummy", [w, h])
    case Indent(w) => Row("indent", [w])
    case Unindent(w) => Row("unindent", [w])
  }

  function GroupRow<A>(c: Group<A>): Row<A> {
    match c
    case BeginGroup => Row("begingroup", [])
    case EndGroup(id) => Row("endgroup", [id])
    case BeginDragDropSource(id) => Row("begindragdropsource", [id])
    case SetDragDropPayload(format, buffer) => Row("setdragdroppayload", [format, buffer])
    case EndDragDropSource => Row("enddragdropsource", [])
    case BeginDragDropTarget(id) => Row("begindragdroptarget", [id])
    case AcceptDragDropPayload(id) => Row("acceptdragdroppayload", [id])
    case EndDragDropTarget => Row("enddragdroptarget", [])
  }

  function DragRow<A>(c: Drag<A>): Row<A> {
    match c
    case DragFloat(str, v1, speed, lo, hi) => Row("dragfloat", Labelled(str, [v1], [speed, lo, hi]))
    case DragFloat2(str, v1, v2, speed, lo, hi) => Row("dragfloat2", Labelled(str, [v1, v2], [speed, lo, hi]))
    case DragFloat3(str, v1, v2, v3, speed, lo, hi) => Row("dragfloat3", Labelled(str, [v1, v2, v3], [speed, lo, hi]))
    case DragFloat4(str, v1, v2, v3, v4, speed, lo, hi) => Row("dragfloat4", Labelled(str, [v1, v2, v3, v4], [speed, lo, hi]))
    case DragInt(str, v1, speed, lo, hi) => Row("dragint", Labelled(str, [v1], [speed, lo, hi]))
    case DragInt2(str, v1, v2, speed, lo, hi) => Row("dragint2", Labelled(str, [v1, v2], [speed, lo, hi]))
    case DragInt3(str, v1, v2, v3, speed, lo, hi) => Row("dragint3", Labelled(str, [v1, v2, v3], [speed, lo, hi]))
    case DragInt4(str, v1, v2, v3, v4, speed, lo, hi) => Row("dragint4", Labelled(str, [v1, v2, v3, v4], [speed, lo, hi]))
  }

  function SliderRow<A>(c: Slider<A>): Row<A> {
    match c
    case SliderFloat(str, v1, lo, hi) => Row("sliderfloat", Labelled(str, [v1], [lo, hi]))
    case SliderFloat2(str, v1, v2, lo, hi) => Row("sliderfloat2", Labelled(str, [v1, v2], [lo, hi]))
    case SliderFloat3(str, v1, v2, v3, lo, hi) => Row("sliderfloat3", Labelled(str, [v1, v2, v3], [lo, hi]))
    case SliderFloat4(str, v1, v2, v3, v4, lo, hi) => Row("sliderfloat4", Labelled(str, [v1, v2, v3, v4], [lo, hi]))
    case SliderAngle(str, v1, lo, hi) => Row("sliderangle", Labelled(str, [v1], [lo, hi]))
    case SliderInt(str, v1, lo, hi) => Row("sliderint", Labelled(str, [v1], [lo, hi]))
    case SliderInt2(str, v1, v2, lo, hi) => Row("sliderint2", Labelled(str, [v1, v2], [lo, hi]))
    case SliderInt3(str, v1, v2, v3, lo, hi) => Row("sliderint3", Labelled(str, [v1, v2, v3], [lo, hi]))
    case SliderInt4(str, v1, v2, v3, v4, lo, hi) => Row("sliderint4", Labelled(str, [v1, v2, v3, v4], [lo, hi]))
  }

  function InputRow<A>(c: Input<A>): Row<A> {
    match c
    case InputText(str, v1) => Row("inputtext", Labelled(str, [v1], []))
    case InputTextMultiline(str, v1) => Row("inputtextmultiline", Labelled(str, [v1], []))
    case InputInt(str, v1) => Row("inputint", Labelled(str, [v1], []))
    case InputFloat(str, v1) => Row("inputfloat", Labelled(str, [v1], []))
    case InputDouble(str, v1) => Row("inputdouble", Labelled(str, [v1], []))
    case InputInt2(str, v1, v2) => Row("inputint2", Labelled(str, [v1, v2], []))
    case InputFloat2(str, v1, v2) => Row("inputfloat2", Labelled(str, [v1, v2], []))
    case InputInt3(str, v1, v2, v3) => Row("inputint3", Labelled(str, [v1, v2, v3], []))
    case InputFloat3(str, v1, v2, v3) => Row("inputfloat3", Labelled(str, [v1, v2, v3], []))
    case InputInt4(str, v1, v2, v3, v4) => Row("inputint4", Labelled(str, [v1, v2, v3, v4], []))
    case InputFloat4(str, v1, v2, v3, v4) => Row("inputfloat4", Labelled(str, [v1, v2, v3, v4], []))
  }

  function ColourRow<A>(c: Colour<A>): Row<A> {
    match c
    case ColorEdit3(str, v1, v2, v3) => Row("coloredit3", Labelled(str, [v1, v2, v3], []))
    case ColorEdit4(str, v1, v2, v3, v4) => Row("coloredit4", Labelled(str, [v1, v2, v3, v4], []))
    case ColorPicker3(str, v1, v2, v3) => Row("colorpicker3", Labelled(str, [v1, v2, v3], []))
    case ColorPicker4(str, v1, v2, v3, v4) => Row("colorpicker4", Labelled(str, [v1, v2, v3, v4], []))
    case ColorButton(str, v1, v2, v3, v4, unused, w, h) => Row("colorbutton", Labelled(str, [v1, v2, v3, v4], [unused, w, h]))
  }

  function RowOf<A>(c: Call<A>): Row<A> {
    match c
    case OnWidget(w) => WidgetRow(w)
    case OnTree(t) => TreeRow(t)
    case OnLayout(l) => LayoutRow(l)
    case OnGroup(g) => GroupRow(g)
    case OnDrag(d) => DragRow(d)
    case OnSlider(s) => SliderRow(s)
    case OnInput(i) => InputRow(i)
    case OnColour(colour) => ColourRow(colour)
  }

  // The number of arguments that goes with each element type.
  function Arity(kind: string): Option<nat> {
    match kind
    case "dragfloat" | "dragint" => Some(5)
    case "dragfloat2" | "dragint2" => Some(6)
    case "dragfloat3" | "dragint3" => Some(7)
    case "dragfloat4" | "dragint4" => Some(8)
    case "sliderfloat" | "sliderangle" | "sliderint" => Some(4)
    case "sliderfloat2" | "sliderint2" => Some(5)
    case "sliderfloat3" | "sliderint3" => Some(6)
    case "sliderfloat4" | "sliderint4" => Some(7)
    case "treepop" => Some(0)
    case "treenode" | "treepush" | "collapsingheader" | "setnextitemopen" => Some(1)
    case "listbox" => Some(4)
    case "selectable" => Some(5)
    case "plotlines" | "plothistogram" => Some(8)
    case "coloredit3" | "colorpicker3" => Some(4)
    case "coloredit4" | "colorpicker4" => Some(5)
    case "colorbutton" => Some(8)
    case "inputtext" | "inputtextmultiline" | "inputint" | "inputfloat" | "inputdouble" => Some(2)
    case "inputint2" | "inputfloat2" => Some(3)
    case "inputint3" | "inputfloat3" => Some(4)
    case "inputint4" | "inputfloat4" => Some(5)
    case "bullet" => Some(0)
    case "text" | "textdisabled" | "bullettext" | "smallbutton" => Some(1)
    case "arrowbutton" | "checkbox" | "radiobutton" => Some(2)
    case "invisiblebutton" | "button" => Some(3)
    case "progressbar" => Some(4)
    case "textcolored" => Some(5)
    case "popitemwidth" | "separator" | "newline" | "spacing" => Some(0)
    case "popstylecolor" | "pushitemwidth" | "setnextitemwidth" | "indent" | "unindent" => Some(1)
    case "sameline" | "dummy" => Some(2)
    case "pushstylecolor" => Some(5)
    case "begingroup" | "enddragdropsource" | "enddragdroptarget" => Some(0)
    case "endgroup" | "begindragdropsource" | "begindragdroptarget" | "acceptdragdroppayload" => Some(1)
    case "setdragdroppayload" => Some(2)
    case _ => None
  }

  lemma WidgetsKeepTheirArity<A>(c: Widget<A>)
    ensures Arity(WidgetRow(c).kind) == Some(|WidgetRow(c).args|)
  {
  }

  lemma TreesKeepTheirArity<A>(c: Tree<A>)
    ensures Arity(TreeRow(c).kind) == Some(|TreeRow(c).args|)
  {
  }

  lemma LayoutsKeepTheirArity<A>(c: Layout<A>)
    ensures Arity(LayoutRow(c).kind) == Some(|LayoutRow(c).args|)
  {
  }

  lemma GroupsKeepTheirArity<A>(c: Group<A>)
    ensures Arity(GroupRow(c).kind) == Some(|GroupRow(c).args|)
  {
  }

  lemma DragsKeepTheirArity<A>(c: Drag<A>)
    ensures Arity(DragRow(c).kind) == Some(|DragRow(c).args|)
  {
  }

  lemma SlidersKeepTheirArity<A>(c: Slider<A>)
    ensures Arity(SliderRow(c).kind) == Some(|SliderRow(c).args|)
  {
  }

  lemma InputsKeepTheirArity<A>(c: Input<A>)
    ensures Arity(InputRow(c).kind) == Some(|InputRow(c).args|)
  {
  }

  lemma ColoursKeepTheirArity<A>(c: Colour<A>)
    ensures Arity(ColourRow(c).kind) == Some(|ColourRow(c).args|)
  {
  }

  // No two call sites share a type and disagree about its arguments.
  lemma SitesKeepTheirArity<A>(c: Call<A>)
    ensures Arity(RowOf(c).kind) == Some(|RowOf(c).args|)
  {
    hide Arity, WidgetRow, TreeRow, LayoutRow, GroupRow, DragRow, SliderRow, InputRow, ColourRow;
    match c
    case OnWidget(w) => WidgetsKeepTheirArity(w);
    case OnTree(t) => TreesKeepTheirArity(t);
    case OnLayout(l) => LayoutsKeepTheirArity(l);
    case OnGroup(g) => GroupsKeepTheirArity(g);
    case OnDrag(d) => DragsKeepTheirArity(d);
    case OnSlider(s) => SlidersKeepTheirArity(s);
    case OnInput(i) => InputsKeepTheirArity(i);
    case OnColour(colour) => ColoursKeepTheirArity(colour);
  }

  // ----- The stack -----

  // A stack at or above this many bytes of type and id names takes no more elements.
  const MAX_NAME_BYTES: nat := 1024 * 1024 * 10

  function NameBytes<A>(elements: seq<Element<A>>): nat {
    if elements == [] then 0
    else
      var e := elements[|elements| - 1];
      NameBytes(elements[..|elements| - 1]) + |e.kind| + |e.elementId|
  }

  predicate TooLarge<A>(elements: seq<Element<A>>) {
    NameBytes(elements) >= MAX_NAME_BYTES
  }

  function ElementOf<A>(c: Call<A>, elementId: string): Element<A> {
    Element(RowOf(c).kind, elementId, RowOf(c).args)
  }

  function Emitted<A>(elements: seq<Element<A>>, e: Element<A>): seq<Element<A>> {
    if TooLarge(elements) then elements else elements + [e]
  }

  // Every element came from one of the call sites.
  ghost predicate FromSites<A>(elements: seq<Element<A>>) {
    forall i :: 0 <= i < |elements| ==> Arity(elements[i].kind) == Some(|elements[i].args|)
  }

  datatype Emission<A> = Emission(call: Call<A>, elementId: string)

  // The elements on a fresh stack after a run of calls.
  function Run<A>(calls: seq<Emission<A>>): seq<Element<A>> {
    if calls == [] then []
    else
      var last := calls[|calls| - 1];
      Emitted(Run(calls[..|calls| - 1]), ElementOf(last.call, last.elementId))
  }

  lemma {:induction false} RunsComeFromSites<A>(calls: seq<Emission<A>>)
    ensures FromSites(Run(calls))
  {
    hide Arity, RowOf;
    if calls != [] {
      RunsComeFromSites(calls[..|calls| - 1]);
      SitesKeepTheirArity(calls[|calls| - 1].call);
    }
  }

  lemma SitesFixTheArity<A>(elements: seq<Element<A>>)
    requires FromSites(elements)
    ensures FixedArity(elements)
  {
    hide Arity;
    forall i, j | 0 <= i < |elements| && 0 <= j < |elements| && elements[i].kind == elements[j].kind
      ensures |elements[i].args| == |elements[j].args|
    {
      assert Arity(elements[i].kind) == Some(|elements[i].args|);
      assert Arity(elements[j].kind) == Some(|elements[j].args|);
    }
  }

  /**
   Whatever a script calls, in whatever order, the packet of its stack decodes to exactly the
   types and argument lists on the stack.
   */
  lemma RunsAreLossless<A>(calls: seq<Emission<A>>, p: Packet<A>)
    requires Encodes(p, Run(calls))
    ensures Decode(p) == Some(Rows(Run(calls)))
  {
    hide Arity, Run, Encodes, Decode;
    RunsComeFromSites(calls);
    SitesFixTheArity(Run(calls));
    DecodesExactly(p, Run(calls));
  }

  // Two runs of calls with the same packet put the same rows on the stack.
  lemma PacketsTellRunsApart<A>(calls: seq<Emission<A>>, others: seq<Emission<A>>, p: Packet<A>)
    requires Encodes(p, Run(calls)) && Encodes(p, Run(others))
    ensures Rows(Run(calls)) == Rows(Run(others))
  {
    hide Run, Encodes, Decode;
    RunsAreLossless(calls, p);
    RunsAreLossless(others, p);
  }

  class Stack<A> {
    var elements: seq<Element<A>>
    // The bytes of the names of the first currentIdx elements.
    var currentSize: nat
    var currentIdx: nat
    // Set when the last stack handed over was not empty.
    var blankIsSignificant: bool

    constructor ()
      ensures Valid() && elements == [] && !blankIsSignificant
    {
      elements := [];
      currentSize, currentIdx := 0, 0;
      blankIsSignificant := false;
    }

    ghost predicate Valid()
      reads this
    {
      currentIdx <= |elements| && currentSize == NameBytes(elements[..currentIdx])
    }

    // Sums only the names added since the last question.
    method AskTooLarge() returns (large: bool)
      requires Valid()
      modifies `currentSize, `currentIdx
      ensures Valid()
      ensures large == TooLarge(elements)
    {
      var sum := currentSize;
      for idx := currentIdx to |elements|
        invariant sum == NameBytes(elements[..idx])
      {
        assert elements[..idx + 1][..idx] == elements[..idx];
        sum := sum + |elements[idx].kind| + |elements[idx].elementId|;
      }
      assert elements[..|elements|] == elements;
      currentIdx := |elements|;
      currentSize := sum;
      large := sum >= MAX_NAME_BYTES;
    }

    method Push(e: Element<A>)
      requires Valid()
      modifies this
      ensures Valid()
      ensures elements == Emitted(old(elements), e)
      ensures blankIsSignificant == old(blankIsSignificant)
    {
      var large := AskTooLarge();
      if !large {
        assert (elements + [e])[..currentIdx] == elements[..currentIdx];
        elements := elements + [e];
      }
    }

    method AddElement(c: Call<A>, elementId: string)
      requires Valid()
      modifies this
      ensures Valid()
      ensures elements == Emitted(old(elements), ElementOf(c, elementId))
      ensures blankIsSignificant == old(blankIsSignificant)
    {
      Push(ElementOf(c, elementId));
    }

    // The emitting templates push the label, then the values, then the extra parameters.
    method AddLabelled(kind: string, elementId: string, str: A, values: seq<A>, extras: seq<A>)
      requires Valid()
      modifies this
      ensures Valid()
      ensures elements == Emitted(old(elements), Element(kind, elementId, Labelled(str, values, extras)))
      ensures blankIsSignificant == old(blankIsSignificant)
    {
      var arguments := [str];
      for i := 0 to |values|
        invariant arguments == [str] + values[..i]
      {
        arguments := arguments + [values[i]];
      }
      assert values[..|values|] == values;
      for i := 0 to |extras|
        invariant arguments == [str] + values + extras[..i]
      {
        arguments := arguments + [extras[i]];
      }
      assert extras[..|extras|] == extras;
      Push(Element(kind, elementId, arguments));
    }

    /**
     Hands the elements over. An empty stack is handed over once after a non-empty one; a stack
     that is too large is kept and an empty one handed over instead.
     */
    method Consume() returns (r: Option<seq<Element<A>>>)
      requires Valid()
      modifies this
      ensures Valid()
      ensures r == if old(elements) == [] then (if old(blankIsSignificant) then Some([]) else None)
                   else if TooLarge(old(elements)) then Some([])
                   else Some(old(elements))
      ensures elements == if TooLarge(old(elements)) then old(elements) else []
      ensures blankIsSignificant ==
              (old(elements) != [] && (!TooLarge(old(elements)) || old(blankIsSignificant)))
    {
      if elements == [] {
        if blankIsSignificant {
          blankIsSignificant := false;
          r := Some([]);
        } else {
          r := None;
        }
      } else {
        var large := AskTooLarge();
        if large {
          r := Some([]);
        } else {
          r := Some(elements);
          elements := [];
          currentSize, currentIdx := 0, 0;
          blankIsSignificant := true;
        }
      }
    }

    // One round of the update: what is sent decodes to the stack as the script left it.
    method SendUi() returns (p: Option<Packet<A>>)
      requires Valid() && FromSites(elements)
      modifies this
      ensures Valid() && FromSites(elements)
      ensures old(elements) == [] && !old(blankIsSignificant) <==> p.None?
      ensures p.Some? ==> Decode(p.value) == Some(Rows(if TooLarge(old(elements)) then [] else old(elements)))
    {
      hide Arity, Decode, Encodes;
      p := None;
      var taken := Consume();
      if taken.Some? {
        var packet := EncodePacket(taken.value);
        SitesFixTheArity(taken.value);
        DecodesExactly(packet, taken.value);
        p := Some(packet);
      }
    }
  }
}
