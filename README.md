# Success and error overlays: a verified view model

This project models the two modal overlays of the client application, `SuccessModal`
and `ErrorModal`. Each is a React function component that maps its props to a themed
modal: a backdrop, a container with a close icon, an icon badge, the title and the
message, an action row of up to two buttons and, for the success overlay only, a
detail panel for a purchased NFT. The model keeps the decisions these components make:

- the theme table (`getTypeConfig`), including its default branch;
- which buttons the action row holds, in what order and bound to what;
- which lines of the detail panel appear, with what text, and what the copy and
  explorer-link buttons receive;
- that the overlay exists only while `isOpen` holds, and where each click goes.

Both components are pure, so the model is datatypes, functions and lemmas. There are
four modules:

- `Js` holds the JavaScript semantics the components rely on: optional values,
  the truthiness of an optional string, and `String.prototype.slice`.
- `Overlay` holds what both components share: callbacks as opaque identities, the
  theme descriptor, the action row, and click bubbling through the container
  (which stops propagation) to the backdrop.
- `SuccessModal` models `frontend/components/ui/success-modal.tsx`.
- `ErrorModal` models `frontend/components/ui/error-modal.tsx`.

Each component is modelled as `Render(props)`. It returns `None` while the overlay is
closed and the rendered `View` while it is open. `Click(view, target)` lists the click
listeners that run, innermost first.

Two consequences of the code are easy to miss:

- `!actionButtons` tests the prop itself. So an empty record `{}` renders no button
  at all, and the default button appears only when the prop is absent
  (`Overlay.EmptyRecordGivesNoButtons`).
- Each detail line is gated on its string's truthiness. So an empty hash, price, id
  or image hides its element, just as a missing one does.

## Model

| member | source | states |
|---|---|---|
| `Js.Slice` | frontend/components/ui/success-modal.tsx:180 | `slice` returns the contiguous piece of the string from where the relative start index lands, as long as the distance to the relative end index (the end of the string when it is left out), and empty when the end lands at or before the start |
| `Js.SliceHead` | frontend/components/ui/success-modal.tsx:180 | `slice(0, k)` is the first `k` characters, or the whole of a shorter string |
| `Js.SliceTail` | frontend/components/ui/success-modal.tsx:180 | `slice(-k)` is the last `k` characters, or the whole of a shorter string |
| `Js.Truthy` | frontend/components/ui/success-modal.tsx:151-174 | a string condition in JSX holds iff the string is present and non-empty |
| `Js.OrElse` | frontend/components/ui/success-modal.tsx:160 | `a || fallback` is `a` when it is non-empty and the fallback otherwise, so it is never blank when the fallback is not |
| `SuccessModal.TypeTag` | frontend/components/ui/success-modal.tsx:44 | an omitted `type` resolves as `'general'`; a given one is kept |
| `SuccessModal.TypeConfig` | frontend/components/ui/success-modal.tsx:51-75 | Gift only for `'purchase'`; the primary-to-accent gradient and tint only for `'verification'`; the chart-3 gradient and tint for every other tag |
| `SuccessModal.PriceLine` | frontend/components/ui/success-modal.tsx:158-162 | the line is the price, one space, then the currency if non-empty or `SOL` |
| `SuccessModal.IdBadge` | frontend/components/ui/success-modal.tsx:163-169 | the badge is `ID: ` followed by the identifier verbatim |
| `SuccessModal.TruncateHash` | frontend/components/ui/success-modal.tsx:180 | the display is the first `min(6,n)` characters, three dots, then the characters from `max(0,n-4)` on |
| `SuccessModal.ExplorerUrl` | frontend/components/ui/success-modal.tsx:189 | the link is the explorer prefix followed by the hash verbatim |
| `SuccessModal.Click` | frontend/components/ui/success-modal.tsx:83-193 | a backdrop click calls `onClose`; a click on a control runs that control's own action alone; a click on bare content does nothing |
| `ErrorModal.TypeTag` | frontend/components/ui/error-modal.tsx:34 | an omitted `type` resolves as `'error'`; a given one is kept |
| `ErrorModal.TypeConfig` | frontend/components/ui/error-modal.tsx:37-54 | AlertTriangle always; the yellow-to-orange gradient iff the tag is `'warning'`, the red gradient otherwise |
| `ErrorModal.Click` | frontend/components/ui/error-modal.tsx:62-152 | a backdrop click calls `onClose`; a click on the close icon or a button runs that control's own action alone; a click on bare content does nothing |
| `Overlay.ActionRow` | frontend/components/ui/success-modal.tsx:209-240 | at most two buttons; the default button alone when `actionButtons` is absent; otherwise one button per supplied descriptor, in primary-then-secondary order, carrying its label, icon and handler; the primary button is filled with the row's primary class, the secondary outlined with class `w-full` |
| `Overlay.EmptyRecordGivesNoButtons` | frontend/components/ui/error-modal.tsx:120-152 | the row is empty exactly when `actionButtons` is the empty record `{}` |
| `Overlay.DefaultOnlyWhenAbsent` | frontend/components/ui/success-modal.tsx:232-240 | if the caller's handlers differ from `onClose`, a button bound to `onClose` is in the row iff `actionButtons` is absent |
| `Overlay.PrimaryBeforeSecondary` | frontend/components/ui/error-modal.tsx:120-141 | with both descriptors, the row is the filled primary button, then the outlined secondary button |
| `Overlay.Bubble` | frontend/components/ui/success-modal.tsx:83-95 | no more entries run than there are listeners on the path; each entry is a listener of the path doing its own action; every listener with an action up to and including the first that stops propagation runs |
| `Overlay.BubbleStopsAt` | frontend/components/ui/success-modal.tsx:95 | no listener beyond the first one that stops propagation runs |
| `Overlay.BackdropClickDismisses` | frontend/components/ui/success-modal.tsx:88 | a click on the backdrop calls `onClose`, once |
| `Overlay.InsideNeverReachesBackdrop` | frontend/components/ui/error-modal.tsx:74 | a click inside the container never reaches the backdrop; only the clicked control's own listener runs |
| `Overlay.BackdropListener` | frontend/components/ui/success-modal.tsx:88 | the backdrop's listener calls `onClose` and does not stop propagation |
| `Overlay.ContainerListener` | frontend/components/ui/success-modal.tsx:95 | the container's listener has no action of its own and stops propagation |
| `Overlay.ClickPath` | frontend/components/ui/error-modal.tsx:67-87 | the backdrop is the outermost listener of every path; a click inside the container meets the container just inside it; a click on a control meets that control's own listener first, which does not stop propagation |
| `Overlay.Dispatch` | frontend/components/ui/success-modal.tsx:83-108 | a backdrop click calls `onClose` once; a click inside the container runs exactly the clicked control's listener, and on bare content nothing |
| `SuccessModal.ThemeTable` | frontend/components/ui/success-modal.tsx:44-75 | purchase gives Gift on chart-3; verification gives CheckCircle on primary-to-accent; every other tag gives CheckCircle on chart-3; an omitted type resolves as `'general'` |
| `SuccessModal.Render` | frontend/components/ui/success-modal.tsx:77-240 | a view exists iff `isOpen`; it is dismissed through `onClose` and shows the title and message; its theme is `TypeConfig` of the (defaulted) type, its detail panel is `DetailPanel` of `nft` in that theme iff `nft` is given, and its buttons are `ActionRow` of `actionButtons` |
| `SuccessModal.DetailPanel` | frontend/components/ui/success-modal.tsx:143-199 | the panel shows the name and the theme's tint; the image tile, price line, ID badge and transaction block each appear iff their field is a non-empty string |
| `SuccessModal.DetailLines` | frontend/components/ui/success-modal.tsx:157-169 | the price line is `price + " " + (currency or "SOL")`, and the ID badge reads back as the identifier |
| `SuccessModal.PriceLineRoundTrip` | frontend/components/ui/success-modal.tsx:158-162 | the shown currency is never blank: `currency` if non-empty, else `SOL`; a price without spaces is read back from the line unchanged |
| `SuccessModal.IdBadgeRoundTrip` | frontend/components/ui/success-modal.tsx:163-169 | the badge text is `ID: ` followed by the identifier verbatim |
| `SuccessModal.TruncateHashShape` | frontend/components/ui/success-modal.tsx:180 | the display is `hash[..min(6,n)] + "..." + hash[max(0,n-4)..]` |
| `SuccessModal.TruncateLongHash` | frontend/components/ui/success-modal.tsx:180 | a hash of 10 or more characters shows as 13 characters: its first 6, three dots, its last 4; putting back the hidden middle restores the hash |
| `SuccessModal.TruncateShortHash` | frontend/components/ui/success-modal.tsx:180 | a hash of at most 4 characters shows twice around the dots (`"abc"` shows as `"abc...abc"`) |
| `SuccessModal.ExplorerUrlRoundTrip` | frontend/components/ui/success-modal.tsx:189 | the explorer link is the fixed prefix plus the hash verbatim; it reads back as the hash, so distinct hashes get distinct links |
| `SuccessModal.TransactionBlockOfHash` | frontend/components/ui/success-modal.tsx:174-197 | the block exists iff the hash is non-empty; the copy button gets the full hash, the link reads back as the full hash, and the display is its truncation |
| `SuccessModal.ImageOnlyTogglesTile` | frontend/components/ui/success-modal.tsx:151-155 | the image reference is never shown; only whether it is set changes the panel |
| `SuccessModal.ActionRowOfProps` | frontend/components/ui/success-modal.tsx:209-240 | at most two buttons; none for `{}`; one gradient "Continue" bound to `onClose` when `actionButtons` is absent; otherwise one per supplied descriptor, in primary-then-secondary order, carrying its label and handler; the primary is filled on the gradient class, the secondary outlined with `w-full` |
| `SuccessModal.HasControl` | frontend/components/ui/success-modal.tsx:174-193 | the close icon is always there; button `i` is there iff the row has more than `i` buttons; the copy and link buttons are there iff the panel shows a transaction block |
| `SuccessModal.ControlAction` | frontend/components/ui/success-modal.tsx:104-234 | a control calls a caller's function iff it is the close icon or a row button: the close icon `onClose` (line 104) and a button its own handler (lines 211, 222 and 234); the copy button writes the block's copy text to the clipboard (line 183); the link opens the block's URL in `_blank` (line 189) |
| `SuccessModal.ControlsOfProps` | frontend/components/ui/success-modal.tsx:174-197 | the copy and link buttons are on screen iff `nft` is given with a non-empty `transactionHash`; button `i` is on screen iff the action row has more than `i` buttons |
| `SuccessModal.DismissRouting` | frontend/components/ui/success-modal.tsx:82-240 | the backdrop, the close icon and the default button each call `onClose` once; a click on bare content does nothing |
| `SuccessModal.ControlRouting` | frontend/components/ui/success-modal.tsx:182-193 | a caller's button calls its own `onClick`; copy writes the full hash; the link opens the explorer URL in `_blank`; nothing reaches the backdrop |
| `SuccessModal.PurchaseExample` | frontend/components/ui/success-modal.tsx:143-218 | a purchase shows the Gift theme, `2.5 SOL`, `ID: NFT-12`, `abcdef...7890` and one "View Collection" button that calls its handler |
| `ErrorModal.ThemeTable` | frontend/components/ui/error-modal.tsx:34-54 | AlertTriangle always; yellow-500 to orange-500 for `'warning'`; red-500 to red-600 for every other tag, including the default `'error'` |
| `ErrorModal.Render` | frontend/components/ui/error-modal.tsx:56-152 | a view exists iff `isOpen`; it is dismissed through `onClose` and shows the title and message; its theme is `TypeConfig` of the (defaulted) type and its buttons are `ActionRow` of `actionButtons` |
| `ErrorModal.ContentIsTitleAndMessage` | frontend/components/ui/error-modal.tsx:103-111 | the shown text is the title, the message and the button labels, with no detail slot |
| `ErrorModal.ThemeOnlyFromType` | frontend/components/ui/error-modal.tsx:37-57 | two open overlays with the same `type` have the same theme, whatever their other props |
| `ErrorModal.ActionRowOfProps` | frontend/components/ui/error-modal.tsx:120-152 | at most two buttons, one per supplied descriptor with its label and handler, primary first; the primary is filled (no variant) with `w-full`, the secondary outlined with `w-full`; none for `{}`; one outlined "Close" bound to `onClose` when `actionButtons` is absent |
| `ErrorModal.HasControl` | frontend/components/ui/error-modal.tsx:82-152 | only the close icon and the row buttons exist; the close icon always, button `i` iff the row has more than `i` buttons |
| `ErrorModal.ControlAction` | frontend/components/ui/error-modal.tsx:83-145 | every control calls a caller's function: the close icon `onClose` (line 83), a button its own handler (lines 122, 133, 145) |
| `ErrorModal.DismissRouting` | frontend/components/ui/error-modal.tsx:61-152 | the backdrop, the close icon and the "Close" button call `onClose` once; every caller button calls its own `onClick`; a click on bare content does nothing |
| `ErrorModal.WarningExample` | frontend/components/ui/error-modal.tsx:143-152 | a warning without `actionButtons` shows the yellow theme and one "Close" button that calls `onClose` |

## Left out

- Animation (`motion.div`, `AnimatePresence`): the staggered entrance, the springs, the sparkle rotation and the exit transition. These are floating-point timing inside an external library. The model has only the logical presence of the overlay.
- The rendering primitives (`Card`, `Button`, `Badge`) and the lucide icons. Icons are enum tokens. A caller's button icon is an opaque string. Class strings are kept only where they are themed: the theme colours and the action row's button classes.
- `navigator.clipboard.writeText` and `window.open`: these are platform calls. The model records only the argument each receives.
- DOM event propagation is reduced to a path of listeners from the clicked element out to the backdrop. A click lands either on the backdrop or inside the container.
- The callbacks themselves: `onClose` and the buttons' `onClick` are opaque identities. The model says which one a click reaches, not what it does.
- Fixed text and decoration that depend on no prop are not modelled: the "Transaction:" caption, the `Sparkles` badge and the `Gift` tile icon.
- `accentColor` is computed by both theme tables but used by neither component. `ErrorModal` also never uses `bgColor`: it reads only the icon and `color`. Both fields are kept in the theme descriptor. No other part of the error view uses them, and `ErrorModal.ThemeTable` states nothing about them.
- `Js.Slice` covers only the integer arguments the components pass. It does not model `NaN`, `Infinity` or non-number arguments.
- `Js.Slice`: strings are modelled as sequences of Unicode code points, while JavaScript's `length` and `slice` count UTF-16 code units. For characters beyond the Basic Multilingual Plane, the positions `slice` cuts at differ from JavaScript's, and so do the lengths stated in `SuccessModal.TruncateHash` and `SuccessModal.TruncateLongHash`. A cut through a surrogate pair cannot be expressed.
