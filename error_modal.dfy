/** The failure overlay: a view model of `ErrorModal`, mapping its props to what it
    renders (theme, title and message, the action row) and to where each click goes.
    It has no detail panel. */
module ErrorModal {
  import opened Js
  import opened Overlay

  /** The props; `kind` is the `type` prop, `None` when the caller leaves it out. */
  datatype Props = Props(
    isOpen: bool,
    onClose: Callback,
    title: string,
    message: string,
    kind: Option<string>,
    actionButtons: Option<ActionButtons>)

  /** The tag `getTypeConfig` switches on: `type` defaults to `'error'`. */
  function TypeTag(kind: Option<string>): (tag: string)
    ensures kind.Some? ==> tag == kind.value
    ensures kind.None? ==> tag == "error"
  {
    if kind.Some? then kind.value else "error"
  }

  /** `getTypeConfig`: a warning theme, and the red error theme for every other tag. */
  function TypeConfig(tag: string): (t: Theme)
    ensures t.icon == AlertTriangle
    ensures t.color == if tag == "warning" then "from-yellow-500 to-orange-500" else "from-red-500 to-red-600"
  {
    match tag
    case "warning" => Theme(AlertTriangle, "from-yellow-500 to-orange-500", "text-yellow-500", "bg-yellow-500/10")
    case _ => Theme(AlertTriangle, "from-red-500 to-red-600", "text-red-500", "bg-red-500/10")
  }

  /** The theme table: the warning triangle in both rows, on the yellow-to-orange
      gradient for a warning and on the red gradient for every other tag, the default
      `'error'` included. */
  lemma ThemeTable(kind: Option<string>)
    ensures var t := TypeConfig(TypeTag(kind));
      && t.icon == AlertTriangle
      && (kind == Some("warning") ==> t.color == "from-yellow-500 to-orange-500")
      && (kind != Some("warning") ==> t.color == "from-red-500 to-red-600")
      && (kind.None? ==> t == TypeConfig("error"))
  {
  }

  /** The action row of this overlay: plain caller buttons, and an outlined "Close"
      button when `actionButtons` is absent. */
  const Style := RowStyle("w-full", "Close", Outlined, "w-full")

  /** The rendered overlay while it is open: no slot beyond the title and the message.
      `dismiss` is the handler the backdrop and the close icon are bound to. */
  datatype View = View(
    theme: Theme,
    dismiss: Callback,
    title: string,
    message: string,
    actions: seq<Button>)

  /** The whole component: nothing while closed, the themed overlay while open. */
  function Render(p: Props): (v: Option<View>)
    ensures v.Some? <==> p.isOpen
    ensures v.Some? ==> v.value.dismiss == p.onClose
    ensures v.Some? ==> v.value.title == p.title && v.value.message == p.message
    ensures v.Some? ==> v.value.theme == TypeConfig(TypeTag(p.kind))
    ensures v.Some? ==> v.value.actions == ActionRow(p.actionButtons, p.onClose, Style)
  {
    if p.isOpen then
      Some(View(TypeConfig(TypeTag(p.kind)), p.onClose, p.title, p.message, ActionRow(p.actionButtons, p.onClose, Style)))
    else None
  }

  /** The texts of the action row, in order. */
  function ButtonTexts(row: seq<Button>): (ts: seq<string>)
    ensures |ts| == |row|
    ensures forall i :: 0 <= i < |row| ==> ts[i] == row[i].text
  {
    if row == [] then [] else [row[0].text] + ButtonTexts(row[1..])
  }

  /** The text the overlay shows, in document order (button icons aside). */
  function Texts(v: View): seq<string> {
    [v.title, v.message] + ButtonTexts(v.actions)
  }

  /** The content is the title and the message and nothing else: what follows them is
      the caller's button texts, or the single word "Close" when `actionButtons` is
      absent. */
  lemma ContentIsTitleAndMessage(p: Props)
    requires p.isOpen
    ensures var ts := Texts(Render(p).value);
      && ts[..2] == [p.title, p.message]
      && (p.actionButtons.None? ==> ts == [p.title, p.message, "Close"])
      && (p.actionButtons.Some? ==>
            |ts| == 2 + |Supplied(p.actionButtons.value)| &&
            forall i :: 2 <= i < |ts| ==> ts[i] == Supplied(p.actionButtons.value)[i - 2].text)
  {
  }

  /** The theme depends on `type` alone: two open overlays with the same `type` have
      the same theme whatever their other props. */
  lemma ThemeOnlyFromType(p: Props, q: Props)
    requires p.isOpen && q.isOpen && p.kind == q.kind
    ensures Render(p).value.theme == Render(q).value.theme
  {
  }

  /** The action row of an open overlay: the caller's buttons in order when
      `actionButtons` is given (never more than two, primary first and plain, secondary
      outlined), none at all for `{}`, and a single outlined "Close" button bound to
      `onClose` when it is absent. */
  lemma ActionRowOfProps(p: Props)
    requires p.isOpen
    ensures var row := Render(p).value.actions;
      && |row| <= 2
      && (row == [] <==> p.actionButtons == Some(ActionButtons(None, None)))
      && (p.actionButtons.None? ==> row == [Button(None, "Close", p.onClose, Outlined, "w-full")])
      && (p.actionButtons.Some? ==>
            var ds := Supplied(p.actionButtons.value);
            |row| == |ds| &&
            forall i :: 0 <= i < |row| ==> row[i].text == ds[i].text && row[i].onClick == ds[i].onClick)
      && (p.actionButtons.Some? && p.actionButtons.value.primary.Some? ==>
            row[0].text == p.actionButtons.value.primary.value.text &&
            row[0].onClick == p.actionButtons.value.primary.value.onClick &&
            row[0].variant == Filled && row[0].className == "w-full")
      && (p.actionButtons.Some? && p.actionButtons.value.secondary.Some? ==>
            row[|row| - 1].text == p.actionButtons.value.secondary.value.text &&
            row[|row| - 1].onClick == p.actionButtons.value.secondary.value.onClick &&
            row[|row| - 1].variant == Outlined && row[|row| - 1].className == "w-full")
  {
    EmptyRecordGivesNoButtons(p.actionButtons, p.onClose, Style);
  }

  /** Whether a control is on screen: the close icon always, an action button when the
      row has that many buttons, and nothing else. */
  predicate HasControl(v: View, c: Control)
    ensures HasControl(v, c) ==> c.CloseIcon? || c.ActionButton?
    ensures c.CloseIcon? ==> HasControl(v, c)
    ensures c.ActionButton? ==> (HasControl(v, c) <==> c.index < |v.actions|)
  {
    match c
    case CloseIcon => true
    case ActionButton(i) => i < |v.actions|
    case CopyHash => false
    case OpenExplorer => false
  }

  /** What a control's own listener does: every control calls one of the caller's
      functions, `onClose` for the close icon and its own handler for a button. */
  function ControlAction(v: View, c: Control): (a: Action)
    requires HasControl(v, c)
    ensures a.Invoke?
    ensures c.CloseIcon? ==> a.callback == v.dismiss
    ensures c.ActionButton? ==> a.callback == v.actions[c.index].onClick
  {
    match c
    case CloseIcon => Invoke(v.dismiss)
    case ActionButton(i) => Invoke(v.actions[i].onClick)
  }

  /** The listeners a click on `target` runs, innermost first. */
  function Click(v: View, target: Target): (fired: seq<Fired>)
    requires target.InContainer? && target.control.Some? ==> HasControl(v, target.control.value)
    ensures target.OnBackdrop? ==> fired == [Fired(Backdrop, Invoke(v.dismiss))]
    ensures target == InContainer(None) ==> fired == []
    ensures target.InContainer? && target.control.Some? ==>
      fired == [Fired(At(target.control.value), ControlAction(v, target.control.value))]
  {
    var own := if target.InContainer? && target.control.Some? then Some(ControlAction(v, target.control.value)) else None;
    Dispatch(target, own, v.dismiss)
  }

  /** Dismissal: the backdrop, the close icon and (when `actionButtons` is absent) the
      "Close" button each call `onClose`, once; a caller's button calls its own
      `onClick`; content without a listener does nothing. */
  lemma DismissRouting(p: Props)
    requires p.isOpen
    ensures var v := Render(p).value;
      && Click(v, OnBackdrop) == [Fired(Backdrop, Invoke(p.onClose))]
      && Click(v, InContainer(Some(CloseIcon))) == [Fired(At(CloseIcon), Invoke(p.onClose))]
      && Click(v, InContainer(None)) == []
      && (p.actionButtons.None? ==>
            Click(v, InContainer(Some(ActionButton(0)))) == [Fired(At(ActionButton(0)), Invoke(p.onClose))])
      && (forall i :: 0 <= i < |v.actions| ==>
            Click(v, InContainer(Some(ActionButton(i)))) == [Fired(At(ActionButton(i)), Invoke(v.actions[i].onClick))])
  {
  }

  /** A warning with no `actionButtons` renders the warning theme and one "Close"
      button whose click calls `onClose`. */
  lemma WarningExample(onClose: Callback)
    ensures var v := Render(Props(true, onClose, "Careful", "Check the input", Some("warning"), None)).value;
      && v.theme.color == "from-yellow-500 to-orange-500"
      && |v.actions| == 1 && v.actions[0].text == "Close"
      && Click(v, InContainer(Some(ActionButton(0)))) == [Fired(At(ActionButton(0)), Invoke(onClose))]
  {
  }
}
