/** The success overlay: a view model of `SuccessModal`, mapping its props to what it
    renders (theme, title and message, the optional NFT detail panel, the action row)
    and to where each click goes. */
module SuccessModal {
  import opened Js
  import opened Overlay

  /** The optional `nft` prop; every field but `name` may be left out. */
  datatype Nft = Nft(
    name: string,
    image: Option<string>,
    price: Option<string>,
    currency: Option<string>,
    id: Option<string>,
    transactionHash: Option<string>)

  /** The props; `kind` is the `type` prop, `None` when the caller leaves it out. */
  datatype Props = Props(
    isOpen: bool,
    onClose: Callback,
    title: string,
    message: string,
    nft: Option<Nft>,
    kind: Option<string>,
    actionButtons: Option<ActionButtons>)

  /** The tag `getTypeConfig` switches on: `type` defaults to `'general'`. */
  function TypeTag(kind: Option<string>): (tag: string)
    ensures kind.Some? ==> tag == kind.value
    ensures kind.None? ==> tag == "general"
  {
    if kind.Some? then kind.value else "general"
  }

  /** `getTypeConfig`: the theme table, with the default branch for every other tag. */
  function TypeConfig(tag: string): (t: Theme)
    ensures t.icon == if tag == "purchase" then Gift else CheckCircle
    ensures t.color == if tag == "verification" then "from-primary to-accent" else "from-chart-3 to-chart-3/70"
    ensures t.bgColor == if tag == "verification" then "bg-primary/10" else "bg-chart-3/10"
  {
    match tag
    case "purchase" => Theme(Gift, "from-chart-3 to-chart-3/70", "text-chart-3", "bg-chart-3/10")
    case "verification" => Theme(CheckCircle, "from-primary to-accent", "text-primary", "bg-primary/10")
    case _ => Theme(CheckCircle, "from-chart-3 to-chart-3/70", "text-chart-3", "bg-chart-3/10")
  }

  /** The theme table, row by row: a purchase gets the gift icon on the chart-3 gradient,
      a verification the check mark on the primary-to-accent gradient, any other tag
      (and an omitted type) the check mark on the chart-3 gradient. The purchase and the
      default theme differ in the icon alone. */
  lemma ThemeTable(kind: Option<string>)
    ensures var t := TypeConfig(TypeTag(kind));
      && (kind == Some("purchase") ==> t.icon == Gift && t.color == "from-chart-3 to-chart-3/70")
      && (kind == Some("verification") ==> t.icon == CheckCircle && t.color == "from-primary to-accent")
      && (kind != Some("purchase") && kind != Some("verification") ==>
            t.icon == CheckCircle && t.color == "from-chart-3 to-chart-3/70")
      && (kind.None? ==> t == TypeConfig("general"))
      && TypeConfig("purchase") == TypeConfig("general").(icon := Gift)
  {
  }

  /** The action row of this overlay: the caller's primary button on the gradient,
      and a gradient "Continue" button when `actionButtons` is absent. */
  const Style := RowStyle(
    "w-full bg-gradient-to-r from-primary to-accent hover:shadow-lg",
    "Continue", Filled,
    "w-full bg-gradient-to-r from-primary to-accent hover:shadow-lg")

  /** The currency `nft.currency || 'SOL'` falls back to. */
  const DefaultCurrency := "SOL"

  /** The block explorer a transaction links to. */
  const ExplorerPrefix := "https://explorer.solana.com/tx/"

  /** The price line: `{nft.price} {nft.currency || 'SOL'}`. */
  function PriceLine(price: string, currency: Option<string>): (line: string)
    ensures |line| > |price| + 1
    ensures line[..|price|] == price && line[|price|] == ' '
    ensures Truthy(currency) ==> line[|price| + 1..] == currency.value
    ensures !Truthy(currency) ==> line[|price| + 1..] == DefaultCurrency
  {
    price + " " + OrElse(currency, DefaultCurrency)
  }

  /** The text of the ID badge: `ID: {nft.id}`. */
  function IdBadge(id: string): (text: string)
    ensures |text| == |id| + 4
    ensures text[..4] == "ID: " && text[4..] == id
  {
    "ID: " + id
  }

  /** `hash.slice(0, 6)...hash.slice(-4)`. */
  function TruncateHash(hash: string): (r: string)
    ensures var head := if |hash| < 6 then |hash| else 6;
            var tail := if |hash| < 4 then 0 else |hash| - 4;
            && |r| == head + 3 + (|hash| - tail)
            && r[..head] == hash[..head]
            && r[head..head + 3] == "..."
            && r[head + 3..] == hash[tail..]
  {
    SliceHead(hash, 6);
    SliceTail(hash, 4);
    Slice(hash, 0, Some(6)) + "..." + Slice(hash, -4, None)
  }

  /** The link the external-link button opens. */
  function ExplorerUrl(hash: string): (url: string)
    ensures |url| == |ExplorerPrefix| + |hash|
    ensures url[..|ExplorerPrefix|] == ExplorerPrefix && url[|ExplorerPrefix|..] == hash
  {
    ExplorerPrefix + hash
  }

  /** What the transaction block shows and what its two buttons receive. */
  datatype TransactionBlock = TransactionBlock(display: string, copyText: string, url: string)

  /** The detail panel: its tint, whether the placeholder image tile is shown, and the
      optional lines below the name. */
  datatype Detail = Detail(
    tint: string,
    imageTile: bool,
    name: string,
    priceLine: Option<string>,
    idBadge: Option<string>,
    transaction: Option<TransactionBlock>)

  /** The rendered overlay while it is open. `dismiss` is the handler the backdrop and
      the close icon are bound to. */
  datatype View = View(
    theme: Theme,
    dismiss: Callback,
    title: string,
    message: string,
    detail: Option<Detail>,
    actions: seq<Button>)

  /** The panel rendered for `nft`: each optional line appears when its field is truthy. */
  function DetailPanel(nft: Nft, theme: Theme): (d: Detail)
    ensures d.name == nft.name && d.tint == theme.bgColor
    ensures d.imageTile <==> Truthy(nft.image)
    ensures d.priceLine.Some? <==> Truthy(nft.price)
    ensures d.idBadge.Some? <==> Truthy(nft.id)
    ensures d.transaction.Some? <==> Truthy(nft.transactionHash)
  {
    Detail(
      theme.bgColor,
      Truthy(nft.image),
      nft.name,
      if Truthy(nft.price) then Some(PriceLine(nft.price.value, nft.currency)) else None,
      if Truthy(nft.id) then Some(IdBadge(nft.id.value)) else None,
      if Truthy(nft.transactionHash) then
        var h := nft.transactionHash.value;
        Some(TransactionBlock(TruncateHash(h), h, ExplorerUrl(h)))
      else None)
  }

  /** The whole component: nothing while closed, the themed overlay while open. */
  function Render(p: Props): (v: Option<View>)
    ensures v.Some? <==> p.isOpen
    ensures v.Some? ==> v.value.dismiss == p.onClose
    ensures v.Some? ==> v.value.title == p.title && v.value.message == p.message
    ensures v.Some? ==> (v.value.detail.Some? <==> p.nft.Some?)
    ensures v.Some? ==> v.value.theme == TypeConfig(TypeTag(p.kind))
    ensures v.Some? && p.nft.Some? ==> v.value.detail == Some(DetailPanel(p.nft.value, v.value.theme))
    ensures v.Some? ==> v.value.actions == ActionRow(p.actionButtons, p.onClose, Style)
  {
    if p.isOpen then
      var theme := TypeConfig(TypeTag(p.kind));
      Some(View(
        theme,
        p.onClose,
        p.title,
        p.message,
        if p.nft.Some? then Some(DetailPanel(p.nft.value, theme)) else None,
        ActionRow(p.actionButtons, p.onClose, Style)))
    else None
  }

  // ---------------------------------------------------------------------------
  // The price line and the ID badge

  /** The position of the first space in `s`, or `|s|` when there is none. */
  function FirstSpace(s: string): (i: nat)
    ensures i <= |s|
    ensures i < |s| ==> s[i] == ' '
    ensures forall j :: 0 <= j < i ==> s[j] != ' '
  {
    if s == [] then 0
    else if s[0] == ' ' then 0
    else 1 + FirstSpace(s[1..])
  }

  /** Reads a price line back into its price and currency. */
  function SplitPriceLine(line: string): (string, string) {
    var i := FirstSpace(line);
    if i < |line| then (line[..i], line[i + 1..]) else (line, "")
  }

  /** The currency shown is never blank: it is `currency` when that is non-empty and
      `SOL` otherwise; a price without spaces is read back from the line unchanged. */
  lemma PriceLineRoundTrip(price: string, currency: Option<string>)
    requires ' ' !in price
    ensures var (p, c) := SplitPriceLine(PriceLine(price, currency));
      && p == price
      && c != ""
      && (Truthy(currency) ==> c == currency.value)
      && (!Truthy(currency) ==> c == "SOL")
  {
    var line := PriceLine(price, currency);
    var i := FirstSpace(line);
    assert line[|price|] == ' ';
    assert line[..|price|] == price;
    assert line[|price| + 1..] == OrElse(currency, DefaultCurrency);
  }

  /** Reads the badge text back into the identifier, if it is a badge. */
  function IdOfBadge(text: string): Option<string> {
    if |text| >= 4 && text[..4] == "ID: " then Some(text[4..]) else None
  }

  /** The badge shows the identifier verbatim after the `ID: ` prefix. */
  lemma IdBadgeRoundTrip(id: string)
    ensures IdOfBadge(IdBadge(id)) == Some(id)
  {
    var t := IdBadge(id);
    assert t[..4] == "ID: ";
    assert t[4..] == id;
  }

  // ---------------------------------------------------------------------------
  // The transaction block

  /** The display is the first six characters (or fewer), three dots and the last
      four characters (or fewer), following JavaScript's `slice`. */
  lemma TruncateHashShape(hash: string)
    ensures var head := if |hash| < 6 then |hash| else 6;
            var tail := if |hash| < 4 then 0 else |hash| - 4;
            TruncateHash(hash) == hash[..head] + "..." + hash[tail..]
  {
    SliceHead(hash, 6);
    SliceTail(hash, 4);
  }

  /** A hash of ten characters or more shows as 13 characters: its first six, the
      three dots and its last four; putting the hidden middle back gives the hash. */
  lemma TruncateLongHash(hash: string)
    requires |hash| >= 10
    ensures var r := TruncateHash(hash);
      && |r| == 13
      && r[..6] == hash[..6]
      && r[6..9] == "..."
      && r[9..] == hash[|hash| - 4..]
      && hash == r[..6] + hash[6..|hash| - 4] + r[9..]
  {
    TruncateHashShape(hash);
    var r := TruncateHash(hash);
    assert r == hash[..6] + "..." + hash[|hash| - 4..];
    assert r[..6] == hash[..6];
    assert r[9..] == hash[|hash| - 4..];
    assert hash == hash[..6] + hash[6..|hash| - 4] + hash[|hash| - 4..];
  }

  /** A hash of four characters or fewer shows twice around the dots: the two slices
      overlap, so `"abc"` shows as `"abc...abc"`. */
  lemma TruncateShortHash(hash: string)
    requires |hash| <= 4
    ensures TruncateHash(hash) == hash + "..." + hash
  {
    TruncateHashShape(hash);
    assert hash[..|hash|] == hash;
  }

  /** Reads the transaction hash back out of an explorer link, if it is one. */
  function HashOfExplorerUrl(url: string): Option<string> {
    var n := |ExplorerPrefix|;
    if |url| >= n && url[..n] == ExplorerPrefix then Some(url[n..]) else None
  }

  /** The link carries the hash verbatim: reading it back gives the hash, so two
      different hashes never share a link. */
  lemma ExplorerUrlRoundTrip(hash: string, other: string)
    ensures HashOfExplorerUrl(ExplorerUrl(hash)) == Some(hash)
    ensures ExplorerUrl(hash) == ExplorerUrl(other) ==> hash == other
  {
    var n := |ExplorerPrefix|;
    var u := ExplorerUrl(hash);
    assert u[..n] == ExplorerPrefix;
    assert u[n..] == hash;
    if ExplorerUrl(hash) == ExplorerUrl(other) {
      assert ExplorerUrl(other)[n..] == other;
    }
  }

  /** The transaction block appears when the hash is non-empty; its copy button gets
      the full hash, its link the explorer URL of the full hash, and its display the
      truncated hash. */
  lemma TransactionBlockOfHash(nft: Nft, theme: Theme)
    ensures var t := DetailPanel(nft, theme).transaction;
      && (t.Some? <==> Truthy(nft.transactionHash))
      && (t.Some? ==>
            && t.value.copyText == nft.transactionHash.value
            && HashOfExplorerUrl(t.value.url) == Some(nft.transactionHash.value)
            && t.value.display == TruncateHash(nft.transactionHash.value))
  {
    if Truthy(nft.transactionHash) {
      ExplorerUrlRoundTrip(nft.transactionHash.value, nft.transactionHash.value);
    }
  }

  /** The image reference is never shown: two NFTs that differ only in their image
      render the same panel as long as both images are set (or both are not). */
  lemma ImageOnlyTogglesTile(nft: Nft, image: Option<string>, theme: Theme)
    requires Truthy(image) == Truthy(nft.image)
    ensures DetailPanel(nft.(image := image), theme) == DetailPanel(nft, theme)
  {
  }

  /** The price line and the badge of an open overlay, from the props. */
  lemma DetailLines(p: Props)
    requires p.isOpen && p.nft.Some?
    ensures var d := Render(p).value.detail.value;
            var nft := p.nft.value;
      && d.name == nft.name
      && (d.priceLine.Some? <==> Truthy(nft.price))
      && (d.priceLine.Some? ==> d.priceLine.value == nft.price.value + " " + OrElse(nft.currency, "SOL"))
      && (d.idBadge.Some? <==> Truthy(nft.id))
      && (d.idBadge.Some? ==> IdOfBadge(d.idBadge.value) == Some(nft.id.value))
  {
    if Truthy(p.nft.value.id) {
      IdBadgeRoundTrip(p.nft.value.id.value);
    }
  }

  // ---------------------------------------------------------------------------
  // Action row

  /** The action row of an open overlay: the caller's buttons in order when
      `actionButtons` is given (the primary filled on the gradient, the secondary
      outlined), none at all for `{}`, and a single gradient "Continue" button bound to
      `onClose` when it is absent. */
  lemma ActionRowOfProps(p: Props)
    requires p.isOpen
    ensures var row := Render(p).value.actions;
      && |row| <= 2
      && (row == [] <==> p.actionButtons == Some(ActionButtons(None, None)))
      && (p.actionButtons.None? ==>
            row == [Button(None, "Continue", p.onClose, Filled, "w-full bg-gradient-to-r from-primary to-accent hover:shadow-lg")])
      && (p.actionButtons.Some? ==>
            var ds := Supplied(p.actionButtons.value);
            |row| == |ds| &&
            forall i :: 0 <= i < |row| ==> row[i].text == ds[i].text && row[i].onClick == ds[i].onClick)
      && (p.actionButtons.Some? && p.actionButtons.value.primary.Some? ==>
            row[0].text == p.actionButtons.value.primary.value.text &&
            row[0].onClick == p.actionButtons.value.primary.value.onClick &&
            row[0].variant == Filled && row[0].className == "w-full bg-gradient-to-r from-primary to-accent hover:shadow-lg")
      && (p.actionButtons.Some? && p.actionButtons.value.secondary.Some? ==>
            row[|row| - 1].text == p.actionButtons.value.secondary.value.text &&
            row[|row| - 1].onClick == p.actionButtons.value.secondary.value.onClick &&
            row[|row| - 1].variant == Outlined && row[|row| - 1].className == "w-full")
  {
    EmptyRecordGivesNoButtons(p.actionButtons, p.onClose, Style);
  }

  // ---------------------------------------------------------------------------
  // Clicks

  /** Whether a control is on screen: the close icon always, an action button when the
      row has that many buttons, and the copy and link buttons exactly when the detail
      panel shows a transaction block. */
  predicate HasControl(v: View, c: Control)
    ensures c.CloseIcon? ==> HasControl(v, c)
    ensures c.ActionButton? ==> (HasControl(v, c) <==> c.index < |v.actions|)
    ensures c.CopyHash? || c.OpenExplorer? ==>
      (HasControl(v, c) <==> v.detail.Some? && v.detail.value.transaction.Some?)
  {
    match c
    case CloseIcon => true
    case ActionButton(i) => i < |v.actions|
    case CopyHash => v.detail.Some? && v.detail.value.transaction.Some?
    case OpenExplorer => v.detail.Some? && v.detail.value.transaction.Some?
  }

  /** What a control's own listener does: the close icon calls `onClose`, a button its
      own handler, the copy button writes the block's copy text to the clipboard and the
      link opens the block's URL in a new tab. */
  function ControlAction(v: View, c: Control): (a: Action)
    requires HasControl(v, c)
    ensures a.Invoke? <==> c.CloseIcon? || c.ActionButton?
    ensures c.CloseIcon? ==> a.callback == v.dismiss
    ensures c.ActionButton? ==> a.callback == v.actions[c.index].onClick
    ensures c.CopyHash? ==> a.WriteClipboard? && a.text == v.detail.value.transaction.value.copyText
    ensures c.OpenExplorer? ==> a.OpenWindow? && a.url == v.detail.value.transaction.value.url && a.target == "_blank"
  {
    match c
    case CloseIcon => Invoke(v.dismiss)
    case ActionButton(i) => Invoke(v.actions[i].onClick)
    case CopyHash => WriteClipboard(v.detail.value.transaction.value.copyText)
    case OpenExplorer => OpenWindow(v.detail.value.transaction.value.url, "_blank")
  }

  /** The listeners a click on `target` runs, innermost first. */
  function Click(v: View, target: Target): (fired: seq<Fired>)
    requires target.InContainer? && target.control.Some? ==> HasControl(v, target.control.value)
    ensures target.OnBackdrop? ==> fired == [Fired(Backdrop, Invoke(v.dismiss))]
    ensures target == InContainer(None) ==> fired == []
    ensures target.InContainer? && target.control.Some? ==>
      fired == [Fired(At(target.control.value), ControlAction(v, target.control.value))]
  {
    var own := if target.InContainer? && target.control.Some? then Some(ControlAction(v, target.control.value)) else None;
    Dispatch(target, own, v.dismiss)
  }

  /** The copy and link buttons are on screen exactly when `nft` is given with a
      non-empty `transactionHash`, and the buttons of the row are those of the action row. */
  lemma ControlsOfProps(p: Props)
    requires p.isOpen
    ensures var v := Render(p).value;
      && HasControl(v, CloseIcon)
      && (HasControl(v, CopyHash) <==> p.nft.Some? && Truthy(p.nft.value.transactionHash))
      && (HasControl(v, OpenExplorer) <==> p.nft.Some? && Truthy(p.nft.value.transactionHash))
      && (forall i: nat :: HasControl(v, ActionButton(i)) <==> i < |ActionRow(p.actionButtons, p.onClose, Style)|)
  {
  }

  /** Dismissal: the backdrop, the close icon and (when `actionButtons` is absent) the
      default button each call `onClose`, once; content without a listener does nothing. */
  lemma DismissRouting(p: Props)
    requires p.isOpen
    ensures var v := Render(p).value;
      && Click(v, OnBackdrop) == [Fired(Backdrop, Invoke(p.onClose))]
      && Click(v, InContainer(Some(CloseIcon))) == [Fired(At(CloseIcon), Invoke(p.onClose))]
      && Click(v, InContainer(None)) == []
      && (p.actionButtons.None? ==>
            Click(v, InContainer(Some(ActionButton(0)))) == [Fired(At(ActionButton(0)), Invoke(p.onClose))])
  {
  }

  /** A caller's button calls its own `onClick`, and the copy and link buttons hand
      the full hash to the clipboard and its explorer URL to a new tab. */
  lemma ControlRouting(p: Props, c: Control)
    requires p.isOpen && HasControl(Render(p).value, c) && c != CloseIcon
    ensures var v := Render(p).value;
      && Click(v, InContainer(Some(c))) == [Fired(At(c), ControlAction(v, c))]
      && (c.CopyHash? ==> ControlAction(v, c) == WriteClipboard(p.nft.value.transactionHash.value))
      && (c.OpenExplorer? ==> ControlAction(v, c) == OpenWindow(ExplorerUrl(p.nft.value.transactionHash.value), "_blank"))
      && (c.ActionButton? && p.actionButtons.Some? ==>
            ControlAction(v, c) == Invoke(Supplied(p.actionButtons.value)[c.index].onClick))
  {
  }

  // ---------------------------------------------------------------------------
  // A worked example

  /** The example's hash shows as its first six and last four characters. */
  lemma ExampleDisplay()
    ensures TruncateHash("abcdef1234567890") == "abcdef...7890"
  {
    var h := "abcdef1234567890";
    TruncateLongHash(h);
    assert TruncateHash(h)[..6] == "abcdef";
    assert TruncateHash(h)[9..] == "7890";
    assert TruncateHash(h) == TruncateHash(h)[..6] + "..." + TruncateHash(h)[9..];
  }

  /** A purchase of "Art #12" with a price, an identifier, a transaction hash and one
      primary button renders the purchase theme, "2.5 SOL", "ID: NFT-12",
      "abcdef...7890" and the single button "View Collection". */
  lemma PurchaseExample(onClose: Callback, viewCollection: Callback)
    ensures var p := Props(
              true, onClose, "Purchased", "Enjoy",
              Some(Nft("Art #12", None, Some("2.5"), None, Some("NFT-12"), Some("abcdef1234567890"))),
              Some("purchase"),
              Some(ActionButtons(Some(ActionDescriptor("View Collection", viewCollection, None)), None)));
            var v := Render(p).value;
      && v.theme.icon == Gift
      && v.detail.value.priceLine == Some("2.5 SOL")
      && v.detail.value.idBadge == Some("ID: NFT-12")
      && v.detail.value.transaction.value.display == "abcdef...7890"
      && |v.actions| == 1 && v.actions[0].text == "View Collection"
      && Click(v, InContainer(Some(ActionButton(0)))) == [Fired(At(ActionButton(0)), Invoke(viewCollection))]
  {
    var nft := Nft("Art #12", None, Some("2.5"), None, Some("NFT-12"), Some("abcdef1234567890"));
    var primary := ActionDescriptor("View Collection", viewCollection, None);
    var p := Props(true, onClose, "Purchased", "Enjoy", Some(nft), Some("purchase"), Some(ActionButtons(Some(primary), None)));
    var v := Render(p).value;
    var d := DetailPanel(nft, v.theme);
    assert v.detail == Some(d);
    assert d.priceLine == Some("2.5 SOL") by {
      assert PriceLine("2.5", None) == "2.5" + " " + "SOL" == "2.5 SOL";
    }
    assert d.idBadge == Some("ID: NFT-12") by {
      assert IdBadge("NFT-12") == "ID: " + "NFT-12" == "ID: NFT-12";
    }
    assert d.transaction.value.display == "abcdef...7890" by {
      ExampleDisplay();
    }
    assert v.actions == [Button(None, "View Collection", viewCollection, Filled, Style.primaryClass)] by {
      PrimaryOnly(primary, onClose, Style);
    }
  }
}
