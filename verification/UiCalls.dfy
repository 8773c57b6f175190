/**
 Reading calls back: from the rows that the packet decodes to, exactly the calls that the script made,
 every parameter in its place.
 */
module UiCalls {

  import opened Optional
  import opened UiPacket
  import opened UiStack

  function WidgetOf<A>(kind: string, args: seq<A>): Option<Widget<A>> {
    match kind
    case "text" => if |args| == 1 then Some(Text(args[0])) else None
    case "textcolored" => if |args| == 5 then Some(TextColored(args[0], args[1], args[2], args[3], args[4])) else None
    case "textdisabled" => if |args| == 1 then Some(TextDisabled(args[0])) else None
    case "bullettext" => if |args| == 1 then Some(BulletText(args[0])) else None
    case "smallbutton" => if |args| == 1 then Some(SmallButton(args[0])) else None
    case "invisiblebutton" => if |args| == 3 then Some(InvisibleButton(args[0], args[1], args[2])) else None
    case "arrowbutton" => if |args| == 2 then Some(ArrowButton(args[0], args[1])) else None
    case "button" => if |args| == 3 then Some(Button(args[0], args[1], args[2])) else None
    case "checkbox" => if |args| == 2 then Some(Checkbox(args[0], args[1])) else None
    case "radiobutton" => if |args| == 2 then Some(RadioButton(args[0], args[1])) else None
    case "progressbar" => if |args| == 4 then Some(ProgressBar(args[0], args[1], args[2], args[3])) else None
    case "bullet" => if |args| == 0 then Some(Bullet) else None
    case _ => None
  }

  lemma WidgetsComeBack<A>(c: Widget<A>)
    ensures WidgetOf(WidgetRow(c).kind, WidgetRow(c).args) == Some(c)
    ensures FamilyOf(WidgetRow(c).kind) == Some(Widgets)
  {
  }

  function TreeOf<A>(kind: string, args: seq<A>): Option<Tree<A>> {
    match kind
    case "treenode" => if |args| == 1 then Some(TreeNode(args[0])) else None
    case "treepush" => if |args| == 1 then Some(TreePush(args[0])) else None
    case "treepop" => if |args| == 0 then Some(TreePop) else None
    case "collapsingheader" => if |args| == 1 then Some(CollapsingHeader(args[0])) else None
    case "setnextitemopen" => if |args| == 1 then Some(SetNextItemOpen(args[0])) else None
    case "selectable" => if |args| == 5 then Some(Selectable(args[0], args[1], args[2], args[3], args[4])) else None
    case "listbox" => if |args| == 4 then Some(ListBox(args[0], args[1], args[2], args[3])) else None
    case "plotlines" => if |args| == 8 then Some(PlotLines(args[0], args[1], args[2], args[3], args[4], args[5], args[6], args[7])) else None
    case "plothistogram" => if |args| == 8 then Some(PlotHistogram(args[0], args[1], args[2], args[3], args[4], args[5], args[6], args[7])) else None
    case _ => None
  }

  lemma TreesComeBack<A>(c: Tree<A>)
    ensures TreeOf(TreeRow(c).kind, TreeRow(c).args) == Some(c)
    ensures FamilyOf(TreeRow(c).kind) == Some(Trees)
  {
  }

  function LayoutOf<A>(kind: string, args: seq<A>): Option<Layout<A>> {
    match kind
    case "pushstylecolor" => if |args| == 5 then Some(PushStyleColor(args[0], args[1], args[2], args[3], args[4])) else None
    case "popstylecolor" => if |args| == 1 then Some(PopStyleColor(args[0])) else None
    case "pushitemwidth" => if |args| == 1 then Some(PushItemWidth(args[0])) else None
    case "popitemwidth" => if |args| == 0 then Some(PopItemWidth) else None
    case "setnextitemwidth" => if |args| == 1 then Some(SetNextItemWidth(args[0])) else None
    case "separator" => if |args| == 0 then Some(Separator) else None
    case "sameline" => if |args| == 2 then Some(SameLine(args[0], args[1])) else None
    case "newline" => if |args| == 0 then Some(NewLine) else None
    case "spacing" => if |args| == 0 then Some(Spacing) else None
    case "dummy" => if |args| == 2 then Some(Dummy(args[0], args[1])) else None
    case "indent" => if |args| == 1 then Some(Indent(args[0])) else None
    case "unindent" => if |args| == 1 then Some(Unindent(args[0])) else None
    case _ => None
  }

  lemma LayoutsComeBack<A>(c: Layout<A>)
    ensures LayoutOf(LayoutRow(c).kind, LayoutRow(c).args) == Some(c)
    ensures FamilyOf(LayoutRow(c).kind) == Some(Layouts)
  {
  }

  function GroupOf<A>(kind: string, args: seq<A>): Option<Group<A>> {
    match kind
    case "begingroup" => if |args| == 0 then Some(BeginGroup) else None
    case "endgroup" => if |args| == 1 then Some(EndGroup(args[0])) else None
    case "begindragdropsource" => if |args| == 1 then Some(BeginDragDropSource(args[0])) else None
    case "setdragdroppayload" => if |args| == 2 then Some(SetDragDropPayload(args[0], args[1])) else None
    case "enddragdropsource" => if |args| == 0 then Some(EndDragDropSource) else None
    case "begindragdroptarget" => if |args| == 1 then Some(BeginDragDropTarget(args[0])) else None
    case "acceptdragdroppayload" => if |args| == 1 then Some(AcceptDragDropPayload(args[0])) else None
    case "enddragdroptarget" => if |args| == 0 then Some(EndDragDropTarget) else None
    case _ => None
  }

  lemma GroupsComeBack<A>(c: Group<A>)
    ensures GroupOf(GroupRow(c).kind, GroupRow(c).args) == Some(c)
    ensures FamilyOf(GroupRow(c).kind) == Some(Groups)
  {
  }

  function DragOf<A>(kind: string, args: seq<A>): Option<Drag<A>> {
    match kind
    case "dragfloat" => if |args| == 5 then Some(DragFloat(args[0], args[1], args[2], args[3], args[4])) else None
    case "dragfloat2" => if |args| == 6 then Some(DragFloat2(args[0], args[1], args[2], args[3], args[4], args[5])) else None
    case "dragfloat3" => if |args| == 7 then Some(DragFloat3(args[0], args[1], args[2], args[3], args[4], args[5], args[6])) else None
    case "dragfloat4" => if |args| == 8 then Some(DragFloat4(args[0], args[1], args[2], args[3], args[4], args[5], args[6], args[7])) else None
    case "dragint" => if |args| == 5 then Some(DragInt(args[0], args[1], args[2], args[3], args[4])) else None
    case "dragint2" => if |args| == 6 then Some(DragInt2(args[0], args[1], args[2], args[3], args[4], args[5])) else None
    case "dragint3" => if |args| == 7 then Some(DragInt3(args[0], args[1], args[2], args[3], args[4], args[5], args[6])) else None
    case "dragint4" => if |args| == 8 then Some(DragInt4(args[0], args[1], args[2], args[3], args[4], args[5], args[6], args[7])) else None
    case _ => None
  }

  lemma DragsComeBack<A>(c: Drag<A>)
    ensures DragOf(DragRow(c).kind, DragRow(c).args) == Some(c)
    ensures FamilyOf(DragRow(c).kind) == Some(Drags)
  {
  }

  function SliderOf<A>(kind: string, args: seq<A>): Option<Slider<A>> {
    match kind
    case "sliderfloat" => if |args| == 4 then Some(SliderFloat(args[0], args[1], args[2], args[3])) else None
    case "sliderfloat2" => if |args| == 5 then Some(SliderFloat2(args[0], args[1], args[2], args[3], args[4])) else None
    case "sliderfloat3" => if |args| == 6 then Some(SliderFloat3(args[0], args[1], args[2], args[3], args[4], args[5])) else None
    case "sliderfloat4" => if |args| == 7 then Some(SliderFloat4(args[0], args[1], args[2], args[3], args[4], args[5], args[6])) else None
    case "sliderangle" => if |args| == 4 then Some(SliderAngle(args[0], args[1], args[2], args[3])) else None
    case "sliderint" => if |args| == 4 then Some(SliderInt(args[0], args[1], args[2], args[3])) else None
    case "sliderint2" => if |args| == 5 then Some(SliderInt2(args[0], args[1], args[2], args[3], args[4])) else None
    case "sliderint3" => if |args| == 6 then Some(SliderInt3(args[0], args[1], args[2], args[3], args[4], args[5])) else None
    case "sliderint4" => if |args| == 7 then Some(SliderInt4(args[0], args[1], args[2], args[3], args[4], args[5], args[6])) else None
    case _ => None
  }

  lemma SlidersComeBack<A>(c: Slider<A>)
    ensures SliderOf(SliderRow(c).kind, SliderRow(c).args) == Some(c)
    ensures FamilyOf(SliderRow(c).kind) == Some(Sliders)
  {
  }

  function InputOf<A>(kind: string, args: seq<A>): Option<Input<A>> {
    match kind
    case "inputtext" => if |args| == 2 then Some(InputText(args[0], args[1])) else None
    case "inputtextmultiline" => if |args| == 2 then Some(InputTextMultiline(args[0], args[1])) else None
    case "inputint" => if |args| == 2 then Some(InputInt(args[0], args[1])) else None
    case "inputfloat" => if |args| == 2 then Some(InputFloat(args[0], args[1])) else None
    case "inputdouble" => if |args| == 2 then Some(InputDouble(args[0], args[1])) else None
    case "inputint2" => if |args| == 3 then Some(InputInt2(args[0], args[1], args[2])) else None
    case "inputfloat2" => if |args| == 3 then Some(InputFloat2(args[0], args[1], args[2])) else None
    case "inputint3" => if |args| == 4 then Some(InputInt3(args[0], args[1], args[2], args[3])) else None
    case "inputfloat3" => if |args| == 4 then Some(InputFloat3(args[0], args[1], args[2], args[3])) else None
    case "inputint4" => if |args| == 5 then Some(InputInt4(args[0], args[1], args[2], args[3], args[4])) else None
    case "inputfloat4" => if |args| == 5 then Some(InputFloat4(args[0], args[1], args[2], args[3], args[4])) else None
    case _ => None
  }

  lemma InputsComeBack<A>(c: Input<A>)
    ensures InputOf(InputRow(c).kind, InputRow(c).args) == Some(c)
    ensures FamilyOf(InputRow(c).kind) == Some(Inputs)
  {
  }

  function ColourOf<A>(kind: string, args: seq<A>): Option<Colour<A>> {
    match kind
    case "coloredit3" => if |args| == 4 then Some(ColorEdit3(args[0], args[1], args[2], args[3])) else None
    case "coloredit4" => if |args| == 5 then Some(ColorEdit4(args[0], args[1], args[2], args[3], args[4])) else None
    case "colorpicker3" => if |args| == 4 then Some(ColorPicker3(args[0], args[1], args[2], args[3])) else None
    case "colorpicker4" => if |args| == 5 then Some(ColorPicker4(args[0], args[1], args[2], args[3], args[4])) else None
    case "colorbutton" => if |args| == 8 then Some(ColorButton(args[0], args[1], args[2], args[3], args[4], args[5], args[6], args[7])) else None
    case _ => None
  }

  lemma ColoursComeBack<A>(c: Colour<A>)
    ensures ColourOf(ColourRow(c).kind, ColourRow(c).args) == Some(c)
    ensures FamilyOf(ColourRow(c).kind) == Some(Colours)
  {
  }

  datatype Family = Widgets | Trees | Layouts | Groups | Drags | Sliders | Inputs | Colours

  /** The part of the library a type belongs to. */
  function FamilyOf(kind: string): Option<Family> {
    match kind
    case "dragfloat" | "dragfloat2" | "dragfloat3" | "dragfloat4" | "dragint" | "dragint2" | "dragint3"
      | "dragint4" => Some(Drags)
    case "sliderfloat" | "sliderfloat2" | "sliderfloat3" | "sliderfloat4" | "sliderangle" | "sliderint"
      | "sliderint2" | "sliderint3" | "sliderint4" => Some(Sliders)
    case "treenode" | "treepush" | "treepop" | "collapsingheader" | "setnextitemopen" | "selectable"
      | "listbox" | "plotlines" | "plothistogram" => Some(Trees)
    case "coloredit3" | "coloredit4" | "colorpicker3" | "colorpicker4" | "colorbutton" => Some(Colours)
    case "inputtext" | "inputtextmultiline" | "inputint" | "inputfloat" | "inputdouble" | "inputint2"
      | "inputfloat2" | "inputint3" | "inputfloat3" | "inputint4" | "inputfloat4" => Some(Inputs)
    case "text" | "textcolored" | "textdisabled" | "bullettext" | "smallbutton" | "invisiblebutton"
      | "arrowbutton" | "button" | "checkbox" | "radiobutton" | "progressbar" | "bullet" => Some(Widgets)
    case "pushstylecolor" | "popstylecolor" | "pushitemwidth" | "popitemwidth" | "setnextitemwidth"
      | "separator" | "sameline" | "newline" | "spacing" | "dummy" | "indent" | "unindent" => Some(Layouts)
    case "begingroup" | "endgroup" | "begindragdropsource" | "setdragdroppayload" | "enddragdropsource"
      | "begindragdroptarget" | "acceptdragdroppayload" | "enddragdroptarget" => Some(Groups)
    case _ => None
  }

  /** The call that a row came from. */
  function CallOf<A>(r: Row<A>): Option<Call<A>> {
    match FamilyOf(r.kind)
    case None => None
    case Some(Widgets) => var widget := WidgetOf(r.kind, r.args); if widget.None? then None else Some(OnWidget(widget.value))
    case Some(Trees) => var tree := TreeOf(r.kind, r.args); if tree.None? then None else Some(OnTree(tree.value))
    case Some(Layouts) => var layout := LayoutOf(r.kind, r.args); if layout.None? then None else Some(OnLayout(layout.value))
    case Some(Groups) => var group := GroupOf(r.kind, r.args); if group.None? then None else Some(OnGroup(group.value))
    case Some(Drags) => var drag := DragOf(r.kind, r.args); if drag.None? then None else Some(OnDrag(drag.value))
    case Some(Sliders) => var slider := SliderOf(r.kind, r.args); if slider.None? then None else Some(OnSlider(slider.value))
    case Some(Inputs) => var input := InputOf(r.kind, r.args); if input.None? then None else Some(OnInput(input.value))
    case Some(Colours) => var colour := ColourOf(r.kind, r.args); if colour.None? then None else Some(OnColour(colour.value))
  }

  /** Every call is told by its row: its type, and each parameter in its place. */
  lemma CallsComeBack<A>(c: Call<A>)
    ensures CallOf(RowOf(c)) == Some(c)
  {
    hide FamilyOf, WidgetOf, WidgetRow, TreeOf, TreeRow, LayoutOf, LayoutRow, GroupOf, GroupRow, DragOf, DragRow, SliderOf, SliderRow, InputOf, InputRow, ColourOf, ColourRow;
    match c
    case OnWidget(widget) => WidgetsComeBack(widget);
    case OnTree(tree) => TreesComeBack(tree);
    case OnLayout(layout) => LayoutsComeBack(layout);
    case OnGroup(group) => GroupsComeBack(group);
    case OnDrag(drag) => DragsComeBack(drag);
    case OnSlider(slider) => SlidersComeBack(slider);
    case OnInput(input) => InputsComeBack(input);
    case OnColour(colour) => ColoursComeBack(colour);
  }

  /** The calls that put their element on the stack: all of them until the stack is too large. */
  function Accepted<A>(calls: seq<Emission<A>>): seq<Emission<A>> {
    if calls == [] then []
    else
      var before := calls[..|calls| - 1];
      Accepted(before) + (if TooLarge(Run(before)) then [] else [calls[|calls| - 1]])
  }

  /**
   From the packet of a script's stack the client reads exactly the calls that the script made, with
   their parameters and in order, as far as the stack took them.
   */
  lemma {:induction false} PacketsTellCalls<A>(calls: seq<Emission<A>>, p: Packet<A>)
    requires Encodes(p, Run(calls))
    ensures Decode(p).Some? && |Decode(p).value| == |Accepted(calls)|
    ensures forall i :: 0 <= i < |Accepted(calls)| ==> CallOf(Decode(p).value[i]) == Some(Accepted(calls)[i].call)
  {
    hide Run, Encodes, Decode, CallOf, Accepted;
    RunsAreLossless(calls, p);
    AcceptedLength(calls);
    forall i | 0 <= i < |Accepted(calls)|
      ensures CallOf(Decode(p).value[i]) == Some(Accepted(calls)[i].call)
    {
      RunOfAccepted(calls, i);
    }
  }

  lemma {:induction false} RunOfAccepted<A>(calls: seq<Emission<A>>, i: nat)
    requires i < |Accepted(calls)|
    ensures |Run(calls)| == |Accepted(calls)|
    ensures CallOf(Rows(Run(calls))[i]) == Some(Accepted(calls)[i].call)
    decreases |calls|
  {
    hide CallOf, RowOf, TooLarge;
    AcceptedLength(calls);
    var before, last := calls[..|calls| - 1], calls[|calls| - 1];
    AcceptedLength(before);
    if i < |Accepted(before)| {
      RunOfAccepted(before, i);
    } else {
      CallsComeBack(last.call);
      RowIs(last.call);
    }
  }

  lemma RowIs<A>(c: Call<A>)
    ensures Row(RowOf(c).kind, RowOf(c).args) == RowOf(c)
  {
    hide RowOf;
  }

  lemma {:induction false} AcceptedLength<A>(calls: seq<Emission<A>>)
    ensures |Run(calls)| == |Accepted(calls)|
  {
    hide RowOf, TooLarge;
    if calls != [] {
      AcceptedLength(calls[..|calls| - 1]);
    }
  }
}
