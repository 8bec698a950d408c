/** What the success and the error overlay have in common: the caller's callbacks,
    the themed icon badge, the action row composed from the optional `actionButtons`
    record, and the routing of clicks through the backdrop and the container. */
module Overlay {
  import opened Js

  /** The identity of a function the caller passes in (`onClose`, a button's `onClick`).
      The overlay never calls into it here; it only decides which one a click reaches. */
  datatype Callback = Callback(id: nat)

  /** The icons the theme table can pick. */
  datatype Icon = Gift | CheckCircle | AlertTriangle

  /** The result of `getTypeConfig`: the badge icon and three colour-class tokens. */
  datatype Theme = Theme(icon: Icon, color: string, accentColor: string, bgColor: string)

  /** One entry of `actionButtons`; `icon` is an opaque renderable node. */
  datatype ActionDescriptor = ActionDescriptor(text: string, onClick: Callback, icon: Option<string>)

  /** The `actionButtons` record; each of its two keys may be left out. */
  datatype ActionButtons = ActionButtons(primary: Option<ActionDescriptor>, secondary: Option<ActionDescriptor>)

  /** The `variant` prop of a rendered button: left out (the filled default) or `"outline"`. */
  datatype Variant = Filled | Outlined

  /** A rendered button of the action row. */
  datatype Button = Button(icon: Option<string>, text: string, onClick: Callback, variant: Variant, className: string)

  /** The styling in which the two components' action rows differ. */
  datatype RowStyle = RowStyle(primaryClass: string, defaultText: string, defaultVariant: Variant, defaultClass: string)

  /** The secondary button's class, the same in both components. */
  const SecondaryClass := "w-full"

  /** The descriptors the caller supplied, primary first. */
  function Supplied(actions: ActionButtons): (ds: seq<ActionDescriptor>)
    ensures |ds| == (if actions.primary.Some? then 1 else 0) + (if actions.secondary.Some? then 1 else 0)
    ensures actions.primary.Some? ==> ds[0] == actions.primary.value
    ensures actions.secondary.Some? ==> ds[|ds| - 1] == actions.secondary.value
  {
    (if actions.primary.Some? then [actions.primary.value] else [])
    + (if actions.secondary.Some? then [actions.secondary.value] else [])
  }

  /** The button the row falls back to, bound to the overlay's own `onClose`. */
  function DefaultButton(onClose: Callback, style: RowStyle): Button {
    Button(None, style.defaultText, onClose, style.defaultVariant, style.defaultClass)
  }

  /** The action row: the primary button if supplied, then the secondary button if
      supplied, then the default button only when `actionButtons` itself is absent. */
  function ActionRow(actions: Option<ActionButtons>, onClose: Callback, style: RowStyle): (row: seq<Button>)
    ensures |row| <= 2
    ensures actions.None? ==> row == [DefaultButton(onClose, style)]
    ensures actions.Some? ==>
      var ds := Supplied(actions.value);
      |row| == |ds| &&
      forall i :: 0 <= i < |row| ==>
        row[i].text == ds[i].text && row[i].onClick == ds[i].onClick && row[i].icon == ds[i].icon
    ensures actions.Some? ==>
      forall i :: 0 <= i < |row| ==>
        var asPrimary := i == 0 && actions.value.primary.Some?;
        row[i].variant == (if asPrimary then Filled else Outlined) &&
        row[i].className == (if asPrimary then style.primaryClass else SecondaryClass)
  {
    var primary :=
      if actions.Some? && actions.value.primary.Some? then
        var d := actions.value.primary.value;
        [Button(d.icon, d.text, d.onClick, Filled, style.primaryClass)]
      else [];
    var secondary :=
      if actions.Some? && actions.value.secondary.Some? then
        var d := actions.value.secondary.value;
        [Button(d.icon, d.text, d.onClick, Outlined, SecondaryClass)]
      else [];
    var fallback := if actions.None? then [DefaultButton(onClose, style)] else [];
    primary + secondary + fallback
  }

  /** An empty record `{}` is not the same as leaving `actionButtons` out: it renders
      no button at all, and the row is empty for no other input. */
  lemma EmptyRecordGivesNoButtons(actions: Option<ActionButtons>, onClose: Callback, style: RowStyle)
    ensures ActionRow(actions, onClose, style) == [] <==> actions == Some(ActionButtons(None, None))
  {
    if actions.Some? && actions.value != ActionButtons(None, None) {
      assert |Supplied(actions.value)| > 0;
    }
  }

  /** The row reaches `onClose` exactly when `actionButtons` is absent, unless the caller
      passed `onClose` itself as one of the buttons' handlers. */
  lemma DefaultOnlyWhenAbsent(actions: Option<ActionButtons>, onClose: Callback, style: RowStyle)
    requires actions.Some? ==> forall d :: d in Supplied(actions.value) ==> d.onClick != onClose
    ensures (exists b :: b in ActionRow(actions, onClose, style) && b.onClick == onClose) <==> actions.None?
  {
    var row := ActionRow(actions, onClose, style);
    if actions.None? {
      assert row[0] in row;
    } else {
      var ds := Supplied(actions.value);
      forall b | b in row ensures b.onClick != onClose {
        var i :| 0 <= i < |row| && row[i] == b;
        assert ds[i] in ds;
      }
    }
  }

  /** With both keys supplied, the row is exactly primary then secondary, styled
      filled and outlined. */
  lemma PrimaryBeforeSecondary(p: ActionDescriptor, s: ActionDescriptor, onClose: Callback, style: RowStyle)
    ensures ActionRow(Some(ActionButtons(Some(p), Some(s))), onClose, style)
         == [Button(p.icon, p.text, p.onClick, Filled, style.primaryClass),
             Button(s.icon, s.text, s.onClick, Outlined, SecondaryClass)]
  {
  }

  /** With the primary key alone, the row is the single filled primary button. */
  lemma PrimaryOnly(p: ActionDescriptor, onClose: Callback, style: RowStyle)
    ensures ActionRow(Some(ActionButtons(Some(p), None)), onClose, style)
         == [Button(p.icon, p.text, p.onClick, Filled, style.primaryClass)]
  {
  }

  /** The elements of the overlay that own a click listener, in the order a click
      bubbles through them from the inside out. */
  datatype Control = CloseIcon | ActionButton(index: nat) | CopyHash | OpenExplorer
  datatype Element = Backdrop | Container | At(control: Control)

  /** What a listener does: call a caller's function, or make one of the two platform
      calls (left out here but for the argument each receives). */
  datatype Action = Invoke(callback: Callback) | WriteClipboard(text: string) | OpenWindow(url: string, target: string)

  /** A listener on the way of a bubbling click; `action` is `None` for a listener
      that only stops propagation. */
  datatype Listener = Listener(at: Element, action: Option<Action>, stopsPropagation: bool)

  /** A listener that ran, with what it did. */
  datatype Fired = Fired(at: Element, action: Action)

  /** Where a click lands: the backdrop around the container, or inside the container,
      on one of its controls or on content that has no listener of its own. */
  datatype Target = OnBackdrop | InContainer(control: Option<Control>)

  /** DOM bubbling along `path`, innermost listener first, stopping after the first one
      that calls `stopPropagation`. No more listeners run than the path holds, what runs
      is a listener of the path doing its own action, and every listener with an action
      up to and including the first one that stops propagation runs. */
  function Bubble(path: seq<Listener>): (fired: seq<Fired>)
    ensures |fired| <= |path|
    ensures forall f :: f in fired ==> exists l :: l in path && l.at == f.at && l.action == Some(f.action)
    ensures forall i :: 0 <= i < |path| && path[i].action.Some? && NoStopBefore(path, i) ==>
      Fired(path[i].at, path[i].action.value) in fired
  {
    if path == [] then []
    else
      var l := path[0];
      var here := if l.action.Some? then [Fired(l.at, l.action.value)] else [];
      if l.stopsPropagation then here
      else
        var rest := Bubble(path[1..]);
        assert forall f :: f in rest ==> exists l' :: l' in path[1..] && l'.at == f.at && l'.action == Some(f.action);
        here + rest
  }

  /** No listener before position `i` stops propagation. */
  predicate NoStopBefore(path: seq<Listener>, i: nat)
    requires i <= |path|
  {
    forall j :: 0 <= j < i ==> !path[j].stopsPropagation
  }

  /** Nothing outside the first listener that stops propagation ever runs. */
  lemma {:induction false} BubbleStopsAt(path: seq<Listener>, k: nat)
    requires k < |path| && path[k].stopsPropagation
    ensures Bubble(path) == Bubble(path[..k + 1])
  {
    if k > 0 && !path[0].stopsPropagation {
      BubbleStopsAt(path[1..], k - 1);
      assert path[1..][..k] == path[..k + 1][1..];
    }
  }

  /** The backdrop calls `onClose` and lets the click go on. */
  function BackdropListener(onClose: Callback): (l: Listener)
    ensures l.at == Backdrop && l.action == Some(Invoke(onClose)) && !l.stopsPropagation
  {
    Listener(Backdrop, Some(Invoke(onClose)), false)
  }

  /** The container does nothing but stop the click from bubbling further. */
  function ContainerListener(): (l: Listener)
    ensures l.at == Container && l.action.None? && l.stopsPropagation
  {
    Listener(Container, None, true)
  }

  /** The listeners a click on `target` meets, innermost first, where `own` is the
      action of the control it lands on: the backdrop is always the outermost, the
      container (inside the backdrop) is met by every click inside it, and a control's
      own listener comes first and does not stop propagation. */
  function ClickPath(target: Target, own: Option<Action>, onClose: Callback): (path: seq<Listener>)
    ensures |path| >= 1 && path[|path| - 1] == BackdropListener(onClose)
    ensures target.OnBackdrop? ==> |path| == 1
    ensures target.InContainer? ==>
      |path| == (if target.control.Some? then 3 else 2) && path[|path| - 2] == ContainerListener()
    ensures target.InContainer? && target.control.Some? ==>
      path[0].at == At(target.control.value) && path[0].action == own && !path[0].stopsPropagation
  {
    match target
    case OnBackdrop => [BackdropListener(onClose)]
    case InContainer(None) => [ContainerListener(), BackdropListener(onClose)]
    case InContainer(Some(c)) => [Listener(At(c), own, false), ContainerListener(), BackdropListener(onClose)]
  }

  /** A click on the backdrop calls `onClose`, once. */
  lemma BackdropClickDismisses(own: Option<Action>, onClose: Callback)
    ensures Bubble(ClickPath(OnBackdrop, own, onClose)) == [Fired(Backdrop, Invoke(onClose))]
  {
  }

  /** A click inside the container never reaches the backdrop: at most the control it
      lands on acts, and content without a listener does nothing. */
  lemma InsideNeverReachesBackdrop(control: Option<Control>, own: Option<Action>, onClose: Callback)
    ensures var fired := Bubble(ClickPath(InContainer(control), own, onClose));
            && (forall f :: f in fired ==> f.at != Backdrop)
            && fired == if control.Some? && own.Some? then [Fired(At(control.value), own.value)] else []
  {
    var path := ClickPath(InContainer(control), own, onClose);
    var k := if control.Some? then 1 else 0;
    BubbleStopsAt(path, k);
  }

  /** Where a click goes: a click on the backdrop calls `onClose` once, and a click
      inside the container runs the listener of the control it lands on (`own`) and
      nothing else. */
  function Dispatch(target: Target, own: Option<Action>, onClose: Callback): (fired: seq<Fired>)
    ensures |fired| <= 1
    ensures target.OnBackdrop? ==> fired == [Fired(Backdrop, Invoke(onClose))]
    ensures target.InContainer? ==> forall f :: f in fired ==> f.at != Backdrop
    ensures target.InContainer? ==>
      fired == if target.control.Some? && own.Some? then [Fired(At(target.control.value), own.value)] else []
  {
    if target.OnBackdrop? then
      BackdropClickDismisses(own, onClose);
      Bubble(ClickPath(target, own, onClose))
    else
      InsideNeverReachesBackdrop(target.control, own, onClose);
      Bubble(ClickPath(target, own, onClose))
  }
}
