# Blog front-end scripts, modelled in Dafny

This project models the client-side behaviour of the blog's two Hugo themes:

- the yaub theme's quick-search dialog: recent searches, section filter pills and keyboard navigation;
- the yaub theme's reader mode: its layout switch, the one-time hint and the keyboard shortcuts;
- the yaub theme's dark/light theme toggle;
- the yaub theme's keyboard-shortcuts help dialog and its sidebar shortcut;
- the yaub theme's WebP upgrade of content images;
- the stderr-ocp theme's helpers: external-link decoration, the back-to-top button and the tag-list sort.

Each script becomes one module:

| module | file | script |
|---|---|---|
| `Search` | search.dfy | themes/yaub/static/js/search-modal.js |
| `Reader` | reader.dfy | themes/yaub/static/js/reader-mode.js |
| `Theme` | theme.dfy | themes/yaub/static/js/theme-toggle.js |
| `Shortcuts` | shortcuts.dfy | themes/yaub/static/js/shortcuts-modal.js |
| `Scripts` | scripts.dfy | themes/stderr-ocp/js/scripts.js |
| `Webp` | webp.dfy | themes/yaub/static/js/webp-upgrade.js |

Four modules are shared by these six:

- `Wrappers` holds `Option`.
- `Text` holds the string operations the scripts use:
  - `toLowerCase`, `includes`, `split` and `join`;
  - `trim`;
  - `length`, counted in UTF-16 code units as JavaScript counts it;
  - decimal printing;
  - the `>` on strings.
- `Storage` models `localStorage` as a value. It is a map plus two flags that say whether reading and writing work. `getItem`, `setItem` and `removeItem` either complete or throw (`Access.Throws`).
- `Dom` holds a key event and its target element.

## Modelling approach

### Scripts that keep state

A script whose state lives in module variables and DOM elements becomes a class. This covers the search dialog, the theme toggle and the shortcuts dialog.

- The class's fields are the variables and the element properties the script writes.
- Every function of the script is a method.
- Each method's `modifies` clause names the fields the script writes.
- Each method's `ensures` states the whole new state, except where a line under "## Left out" names the method.
- Timers are modelled as counters or pending values. Each has a method for the timer firing.

### Reader mode

Reader mode is modelled twice:

- as pure functions over a `ReaderState` snapshot;
- as a class `ReaderMode`, each of whose methods is proved to move `State()` exactly as the matching function does.

The lemmas about the functions state the script's guarantees:

- idempotent enable and disable;
- toggle parity;
- the stored mode mirrors the layout;
- the hint appears at most once across any sequence of operations;
- an invariant every operation keeps.

### Scripts that transform the page

The scripts that transform the page once, in place, are methods over an `array` of nodes. Each is proved equal to a pure function on the array's contents:

- `Webp.UpgradeImages`;
- `Scripts.ExternalLinks`;
- `Scripts.SortList`.

`SortList` keeps the script's algorithm: repeatedly find the first adjacent pair that is out of order and swap it. It is proved to:

- leave the list sorted;
- permute the items;
- keep items whose keys are equal in their original order. It is a stable bubble sort.

Its termination is proved by the inversion count.

### Storage errors that escape

reader-mode.js calls `localStorage.getItem` and `localStorage.setItem` without a `try`, and so does `toggleSidebar` in shortcuts-modal.js. The model lets such a call throw: the operation stops at the call, and what it changed before the call stays changed. The other scripts catch their storage errors, and the model swallows those.

### Keys listed without a feature

reader-mode.js has no font-size control and no reading-progress indicator, although the shortcuts dialog lists font-size keys (themes/yaub/static/js/shortcuts-modal.js:46). Neither feature is modelled.

### Keyboard navigation over filtered results

The search dialog's arrow keys walk the `.pagefind-ui__result-link` elements, hidden ones included. `focus()` on a link whose result the section filter hides does nothing. So while a filter hides the first link, Down from the input does nothing, even when later results are shown (`Search.HiddenFirstLinkBlocksDown`).

### A saved original message outlives its search

updateFilteredMessage saves the message text in `data-original-text` only when none is saved, and nothing clears it (themes/yaub/static/js/search-modal.js:366-368). The model takes the message element to survive a new search with its dataset. Then after a search, a filter, a second search and the filter again, choosing "all" shows the first search's text (`Search.StaleOriginalRestored`). Whether the search engine's UI replaces the element between searches is outside this model, so this is stated as the model's behaviour and not as a defect.

## Model

| member | source | states |
|---|---|---|
| Text.LowerMeaning | themes/yaub/static/js/theme-toggle.js:250 | `toLowerCase` keeps the length, leaves no ASCII capital letter, and changes a character only by turning a capital into its small letter |
| Text.LowerIdempotent | themes/yaub/static/js/search-modal.js:402 | lower-casing twice is lower-casing once, so a lower-cased key compares consistently |
| Text.LowerAppend | themes/yaub/static/js/search-modal.js:328 | lower-casing distributes over concatenation (the `'/' + filter + '/'` pattern) |
| Text.ContainsAt | themes/yaub/static/js/search-modal.js:328 | `includes` holds exactly when the pattern occurs at some position |
| Text.Split | themes/yaub/static/js/shortcuts-modal.js:105 | `split(' ')` yields at least one piece |
| Text.JoinSplit | themes/yaub/static/js/shortcuts-modal.js:105 | joining the pieces of a split with the separator gives back the string |
| Text.SplitPiecesFree | themes/yaub/static/js/shortcuts-modal.js:105 | no piece of a split contains the separator |
| Text.SplitAtSeparator | themes/yaub/static/js/shortcuts-modal.js:105 | splitting `a + sep + b` splits `a` and `b` and puts the pieces side by side |
| Text.SplitWithoutSeparator | themes/yaub/static/js/shortcuts-modal.js:105 | a string without the separator splits into itself alone |
| Text.ConcatAppend | themes/yaub/static/js/shortcuts-modal.js:108 | `join('')` distributes over concatenation of the piece lists |
| Text.Trim | themes/yaub/static/js/search-modal.js:213 | `trim` gives a slice of the string with only white space cut off on either side, and the slice neither starts nor ends with white space |
| Text.Utf16Length | themes/yaub/static/js/search-modal.js:224 | `length` counts UTF-16 units: at least one and at most two per character, and 0 exactly for the empty string |
| Text.Utf16LengthBmp | themes/yaub/static/js/search-modal.js:224 | on the Basic Multilingual Plane `length` is the number of characters |
| Text.Utf16LengthAstral | themes/yaub/static/js/search-modal.js:397 | a single character above U+FFFF already has length 2 |
| Text.TrimStartBounds | themes/yaub/static/js/search-modal.js:213 | the leading trim removes a prefix, and every removed character is white space |
| Text.TrimEndBounds | themes/yaub/static/js/search-modal.js:213 | the trailing trim removes a suffix, and every removed character is white space |
| Text.DecimalString | themes/yaub/static/js/search-modal.js:376 | a count prints as non-empty decimal digits without a leading zero |
| Text.DecimalStringValue | themes/yaub/static/js/search-modal.js:376 | the printed digits denote the count |
| Text.DecimalStringInjective | themes/yaub/static/js/search-modal.js:376 | different counts print differently |
| Text.LeadingDigitsOf | themes/yaub/static/js/search-modal.js:376 | the digits in front of a non-digit are recovered exactly |
| Text.LessIrreflexive | themes/stderr-ocp/js/scripts.js:87 | no key is `>` itself |
| Text.LessAsymmetric | themes/stderr-ocp/js/scripts.js:87 | string `>` is asymmetric |
| Text.LessTransitive | themes/stderr-ocp/js/scripts.js:87 | string `>` is transitive |
| Text.LessTotal | themes/stderr-ocp/js/scripts.js:87 | of two different keys one is `>` the other |
| Text.AtMostTransitive | themes/stderr-ocp/js/scripts.js:87 | "not greater" is transitive, so the adjacent checks order the whole list |
| Scripts.DecoratedIdempotent | themes/stderr-ocp/js/scripts.js:13 | decorating twice is decorating once |
| Scripts.ExternalLinks | themes/stderr-ocp/js/scripts.js:13 | an anchor with an `href` and `rel="noopener"` ends up with `target="_blank"`; every other anchor, and every other attribute, is left alone |
| Scripts.BackToTopMonotonic | themes/stderr-ocp/js/scripts.js:48-54 | once either scroll offset passes 20 pixels the button shows, and scrolling further down never hides it again; offsets are real numbers |
| Scripts.BackToTopFractional | themes/stderr-ocp/js/scripts.js:48-54 | a fractional offset of 20.5 pixels shows the button, while exactly 20 on both offsets hides it |
| Scripts.AdjacentInOrderSorted | themes/stderr-ocp/js/scripts.js:77-101 | once no adjacent pair is out of order, every item's key is at most every later item's key |
| Scripts.SwapAdjacentPermutes | themes/stderr-ocp/js/scripts.js:98 | `insertBefore(b[i+1], b[i])` exchanges the two neighbours and keeps the multiset of items |
| Scripts.CountBelowSwap | themes/stderr-ocp/js/scripts.js:98 | the swap does not change how many items lie below a given key |
| Scripts.InversionsSwap | themes/stderr-ocp/js/scripts.js:87-99 | swapping an out-of-order pair removes exactly one inversion, so the outer loop ends |
| Scripts.IdentityTracks | themes/stderr-ocp/js/scripts.js:68-71 | before sorting, each item sits where it started |
| Scripts.SwapTracks | themes/stderr-ocp/js/scripts.js:87-99 | swapping a strictly out-of-order pair keeps each item's origin and never reorders equal keys |
| Scripts.FindOutOfOrder | themes/stderr-ocp/js/scripts.js:82-94 | the inner loop finds the first out-of-order pair, or reports that none exists |
| Scripts.SortList | themes/stderr-ocp/js/scripts.js:68-102 | a missing list is left alone; otherwise the list ends sorted by lower-cased text, as a permutation, with equal keys in their original order |
| Webp.MatchLength | themes/yaub/static/js/webp-upgrade.js:35 | the rewrite pattern matches `.png`, `.jpeg` or `.jpg` before `?` or the end, in any case |
| Webp.FirstMatch | themes/yaub/static/js/webp-upgrade.js:35 | `replace` rewrites the leftmost match |
| Webp.MatchIffPngOrJpg | themes/yaub/static/js/webp-upgrade.js:29-35 | the rewrite finds a match exactly when one of the two format tests passes |
| Webp.WebpUrlShape | themes/yaub/static/js/webp-upgrade.js:35 | the WebP URL keeps what surrounds the extension and puts `.webp` in its place, still before the query or the end |
| Webp.WebpUrlDiffers | themes/yaub/static/js/webp-upgrade.js:35 | the WebP URL always differs from the original |
| Webp.UpgradedImg | themes/yaub/static/js/webp-upgrade.js:41-44 | the moved image keeps its URL, is marked upgraded and classed `no-animate`, loads lazily unless a mode was set, and would be skipped by a later run |
| Webp.UpgradeNodeSpec | themes/yaub/static/js/webp-upgrade.js:19-75 | an image becomes a picture exactly when it is unmarked, outside a picture, has a URL and is PNG or JPEG. The picture takes the image's classes and offers the WebP URL first, then the original URL with `image/png` or `image/jpeg`. Anything else is left unchanged |
| Webp.UpgradeNodeIdempotent | themes/yaub/static/js/webp-upgrade.js:21-23 | upgrading a second time changes nothing |
| Webp.UpgradeAllIdempotent | themes/yaub/static/js/webp-upgrade.js:21-23 | a second run over the page changes nothing |
| Webp.UpgradeAllComplete | themes/yaub/static/js/webp-upgrade.js:19-76 | after a run no slot holds an image still to upgrade |
| Webp.UpgradeImages | themes/yaub/static/js/webp-upgrade.js:15-77 | the in-place loop upgrades every slot on its own, leaving the page equal to the slot-by-slot upgrade; with `UpgradeAllComplete` and `UpgradeAllIdempotent`, no image to upgrade remains and a second run changes nothing |
| Theme.StoredTheme | themes/yaub/static/js/theme-toggle.js:66-73 | a value comes back exactly when storage is readable and holds the key |
| Theme.PreferredTheme | themes/yaub/static/js/theme-toggle.js:51-60 | the preference is a non-empty stored value, otherwise dark; it is never empty |
| Theme.CurrentTheme | themes/yaub/static/js/theme-toggle.js:127 | the current theme is a non-empty attribute value, otherwise dark |
| Theme.ButtonLabelNamesNext | themes/yaub/static/js/theme-toggle.js:169-179 | the label always names the theme a click would apply: "Switch to light mode" exactly while dark |
| Theme.NextThemeTwice | themes/yaub/static/js/theme-toggle.js:126-137 | a toggle gives light exactly after dark; two toggles return to dark or light, and from any other value they settle on light |
| Theme.ClearedPreferenceIsDark | themes/yaub/static/js/theme-toggle.js:231-239 | after a successful clearPreference the preference is dark |
| Theme.StoredThemeIsPreferred | themes/yaub/static/js/theme-toggle.js:79-85 | a stored theme is the next preference when storage works; a failed write keeps the old preference |
| Theme.ShortcutTogglesExactly | themes/yaub/static/js/theme-toggle.js:246-266 | T toggles exactly when the handler exists, the key is T or t with no modifier, no modal is open and the target is not an input, textarea, select or editable element |
| Theme.ThemeToggle.constructor | themes/yaub/static/js/theme-toggle.js:32-45 | script load applies the preferred theme and labels the button |
| Theme.ThemeToggle.UpdateButtonState | themes/yaub/static/js/theme-toggle.js:169-179 | the button, when present, is labelled after the theme |
| Theme.ThemeToggle.UpdateMetaThemeColor | themes/yaub/static/js/theme-toggle.js:185-195 | the meta tag exists afterwards and carries #303030 exactly while the theme is dark, #f7f8fa otherwise |
| Theme.ThemeToggle.ApplyTheme | themes/yaub/static/js/theme-toggle.js:92-113 | the attribute, colour and label follow the theme; a transition adds the class and schedules its removal |
| Theme.ThemeToggle.TransitionTimerFires | themes/yaub/static/js/theme-toggle.js:100-102 | the transition class is removed |
| Theme.ThemeToggle.ApplyInitialTheme | themes/yaub/static/js/theme-toggle.js:118-121 | the preferred theme is applied without a transition |
| Theme.ThemeToggle.SetupToggleButton | themes/yaub/static/js/theme-toggle.js:142-163 | the button is labelled after the current theme |
| Theme.ThemeToggle.StoreTheme | themes/yaub/static/js/theme-toggle.js:79-85 | the theme is stored, or a failing write is swallowed |
| Theme.ThemeToggle.GetCurrentTheme | themes/yaub/static/js/theme-toggle.js:211-213 | returns the applied theme |
| Theme.ThemeToggle.Toggle | themes/yaub/static/js/theme-toggle.js:126-137 | applies the next theme with a transition, stores it, and dispatches one `themechange` event for it |
| Theme.ThemeToggle.SetTheme | themes/yaub/static/js/theme-toggle.js:219-226 | a value other than dark or light changes nothing; a valid one is applied with a transition and stored |
| Theme.ThemeToggle.ClearPreference | themes/yaub/static/js/theme-toggle.js:231-239 | removes the key (a failure is swallowed) and applies dark with a transition, without an event |
| Theme.ThemeToggle.OnButtonActivate | themes/yaub/static/js/theme-toggle.js:147-160 | a click, Enter or Space toggles exactly as `Toggle` does: next theme applied with a transition, stored, one event; any other key changes nothing |
| Theme.ThemeToggle.OnKeyDown | themes/yaub/static/js/theme-toggle.js:247-265 | toggles exactly under the T-shortcut rule, with every effect of `Toggle`, and changes nothing otherwise |
| Shortcuts.GeneralItems | themes/yaub/static/js/shortcuts-modal.js:17-24 | the theme shortcut is listed exactly when the theme button exists; the help shortcut comes last |
| Shortcuts.ShortcutTable | themes/yaub/static/js/shortcuts-modal.js:26-54 | four sections; search opens with the platform's modifier and K; the last section holds the general items |
| Shortcuts.FormatKeysSingle | themes/yaub/static/js/shortcuts-modal.js:103-109 | a key without spaces is formatted as a single piece |
| Shortcuts.FormatKeysSpace | themes/yaub/static/js/shortcuts-modal.js:103-109 | formatting distributes over a space: each piece is formatted on its own, in order, "/" as the separator and any other piece as a `<kbd>` |
| Shortcuts.FormatAlternativeKeys | themes/yaub/static/js/shortcuts-modal.js:46 | "a / b" renders as two `<kbd>`s around the separator |
| Shortcuts.KeyCommand | themes/yaub/static/js/shortcuts-modal.js:178-203 | Escape closes an open dialog; `?` toggles unless typing; `[` toggles the sidebar unless typing or open, first rule first |
| Shortcuts.TypingIgnoresAllButEscape | themes/yaub/static/js/shortcuts-modal.js:180-195 | while typing only Escape on an open dialog does anything |
| Shortcuts.ShortcutsModal.constructor | themes/yaub/static/js/shortcuts-modal.js:9-10 | script load: no dialog, closed |
| Shortcuts.ShortcutsModal.CreateModal | themes/yaub/static/js/shortcuts-modal.js:56-101 | the dialog exists afterwards, inactive |
| Shortcuts.ShortcutsModal.Open | themes/yaub/static/js/shortcuts-modal.js:111-125 | the dialog exists and is active, scrolling is locked, a focus timer runs, and "opened" is announced |
| Shortcuts.ShortcutsModal.Close | themes/yaub/static/js/shortcuts-modal.js:127-135 | a closed dialog is left alone; an open one deactivates, unlocks scrolling and announces "closed" |
| Shortcuts.ShortcutsModal.Toggle | themes/yaub/static/js/shortcuts-modal.js:137-143 | flips the open state with the whole effect of opening or closing, and announces the new state |
| Shortcuts.ShortcutsModal.ToggleSidebar | themes/yaub/static/js/shortcuts-modal.js:156-176 | with both elements present, flips the collapsed classes, stores the new state (the store otherwise unchanged) and announces it, unless the store write throws |
| Shortcuts.ShortcutsModal.HandleKeyDown | themes/yaub/static/js/shortcuts-modal.js:178-203 | carries out exactly the command `KeyCommand` picks, with that command's whole effect: Escape closes and announces, ? opens or closes and announces, [ toggles the sidebar as `SidebarToggled` says; every other part of the state is kept |
| Reader.EnableDisableNoOps | themes/yaub/static/js/reader-mode.js:154 | enable in reader mode, and disable outside it, do nothing |
| Reader.EnableDisableIdempotent | themes/yaub/static/js/reader-mode.js:153-234 | enable always reaches reader mode and disable always leaves it, so doing either twice is doing it once |
| Reader.ToggleFlips | themes/yaub/static/js/reader-mode.js:141-147 | toggling flips the mode |
| Reader.ToggleParity | themes/yaub/static/js/reader-mode.js:141-147 | after n toggles from off, reader mode is on exactly for odd n |
| Reader.EnableDisableEffects | themes/yaub/static/js/reader-mode.js:153-234 | with working storage, enable adds the class, stores "true", turns the button to a pressed "Exit Reader" and announces; disable does the opposite, with an unpressed "Reader Mode", and hides the hint |
| Reader.StoredModeMirrors | themes/yaub/static/js/reader-mode.js:163 | after an enable or disable that could write, the stored flag says the mode |
| Reader.EnableShowsHintOnlyFirstTime | themes/yaub/static/js/reader-mode.js:173-177 | an animated enable shows the hint only when no hint was recorded, and records that it did |
| Reader.InitGuards | themes/yaub/static/js/reader-mode.js:19-38 | before init (nothing enabled or initialized), init does nothing off article pages, on chapter pages or without the toggle; it restores reader mode exactly from a stored "true", without animation: no hint, no transition class, no transition timer |
| Reader.ReaderKeyRules | themes/yaub/static/js/reader-mode.js:99-116 | typing targets are ignored; R or r without modifiers toggles; Escape leaves reader mode |
| Reader.ArrowKeyRules | themes/yaub/static/js/reader-mode.js:119-135 | the arrows navigate only in reader mode and only to an existing link, changing nothing else |
| Reader.EnablePreservesInv | themes/yaub/static/js/reader-mode.js:153-196 | enable keeps the body class equal to the mode and the hint visible exactly while its timer is pending |
| Reader.DisablePreservesInv | themes/yaub/static/js/reader-mode.js:202-234 | disable keeps the same invariant |
| Reader.KeyDownPreservesInv | themes/yaub/static/js/reader-mode.js:99-135 | key presses keep it |
| Reader.StepPreservesInv | themes/yaub/static/js/reader-mode.js:239-298 | every operation the page can trigger keeps it |
| Reader.EnableHintOnce | themes/yaub/static/js/reader-mode.js:173-177 | enable shows the hint at most once, and only when none was recorded |
| Reader.DisableHintOnce | themes/yaub/static/js/reader-mode.js:202-234 | disable never shows the hint and keeps its record |
| Reader.StepHintOnce | themes/yaub/static/js/reader-mode.js:239-263 | no single operation shows the hint after it was recorded |
| Reader.HintShownAtMostOnce | themes/yaub/static/js/reader-mode.js:173-177 | across any sequence of operations the hint appears at most once, and never once recorded |
| Reader.ReaderMode.constructor | themes/yaub/static/js/reader-mode.js:285-290 | script load runs init on the page |
| Reader.ReaderMode.Init | themes/yaub/static/js/reader-mode.js:19-38 | moves the state as init does |
| Reader.ReaderMode.ShowHint | themes/yaub/static/js/reader-mode.js:239-249 | shows the hint and starts its timer |
| Reader.ReaderMode.HideHint | themes/yaub/static/js/reader-mode.js:254-263 | hides the hint and clears its timer |
| Reader.ReaderMode.Enable | themes/yaub/static/js/reader-mode.js:153-196 | moves the state as enableReaderMode does |
| Reader.ReaderMode.FinishEnable | themes/yaub/static/js/reader-mode.js:173-195 | the hint, timer and announcement part of enabling |
| Reader.ReaderMode.Disable | themes/yaub/static/js/reader-mode.js:202-234 | moves the state as disableReaderMode does |
| Reader.ReaderMode.Toggle | themes/yaub/static/js/reader-mode.js:141-147 | moves the state as toggleReaderMode does |
| Reader.ReaderMode.IsEnabled | themes/yaub/static/js/reader-mode.js:297 | reports the mode |
| Reader.ReaderMode.KeyDown | themes/yaub/static/js/reader-mode.js:99-135 | runs both key handlers in order |
| Reader.ReaderMode.HintTimerFires | themes/yaub/static/js/reader-mode.js:245-247 | the hint timer hides the hint |
| Reader.ReaderMode.TransitionTimerFires | themes/yaub/static/js/reader-mode.js:181-183 | the transition timer removes the transition class |
| Search.WithoutQuery | themes/yaub/static/js/search-modal.js:402 | the filter drops every case-insensitive spelling of the query and keeps only entries of the list |
| Search.WithoutQuerySubsequence | themes/yaub/static/js/search-modal.js:402 | the filter keeps the remaining entries in their order |
| Search.SubsequenceOfTail | themes/yaub/static/js/search-modal.js:402 | (order helper) a subsequence of a tail is a subsequence of the whole |
| Search.SubsequenceStep | themes/yaub/static/js/search-modal.js:402 | (order helper) dropping the first element keeps a subsequence |
| Search.PrefixSubsequence | themes/yaub/static/js/search-modal.js:408 | (order helper) a prefix of a subsequence is one |
| Search.SavedSearches | themes/yaub/static/js/search-modal.js:396-415 | the new list has one to five entries, starts with the query, and continues with the first of the filtered old entries |
| Search.SavedSearchesOrder | themes/yaub/static/js/search-modal.js:402-408 | after the first entry no spelling of the query remains, and the older entries keep their relative order |
| Search.WithoutQueryKeepsDistinct | themes/yaub/static/js/search-modal.js:402 | filtering keeps a list free of case-insensitive duplicates |
| Search.SavedSearchesDistinct | themes/yaub/static/js/search-modal.js:396-415 | saving keeps the list free of case-insensitive duplicates |
| Search.WithoutQueryNoMatch | themes/yaub/static/js/search-modal.js:402 | filtering a list without the query leaves it unchanged |
| Search.SavedSearchesIdempotent | themes/yaub/static/js/search-modal.js:396-415 | saving the same query twice is saving it once |
| Search.RecentSearches | themes/yaub/static/js/search-modal.js:384-391 | the parsed stored list; empty when reading throws, nothing or "" is stored, or parsing fails |
| Search.StoreAfterSave | themes/yaub/static/js/search-modal.js:396-415 | a query shorter than two UTF-16 units, or an unwritable store, leaves the store as it was |
| Search.SaveThenRead | themes/yaub/static/js/search-modal.js:384-415 | with working storage and JSON, reading after a save of a query of two or more UTF-16 units gives the saved list |
| Search.AstralCharacterIsSaved | themes/yaub/static/js/search-modal.js:396-415 | a query of one character above U+FFFF passes the two-unit threshold and is saved |
| Search.CountShown | themes/yaub/static/js/search-modal.js:319-341 | the visible count never exceeds the number of results |
| Search.CountShownAppend | themes/yaub/static/js/search-modal.js:319-341 | counting distributes over the concatenation of result lists |
| Search.CountShownAll | themes/yaub/static/js/search-modal.js:319-341 | every result counts exactly when every result has a link in the section |
| Search.FindSection | themes/yaub/static/js/search-modal.js:370 | `SECTIONS.find` returns a section with that id, or finds none at all |
| Search.SectionLabel | themes/yaub/static/js/search-modal.js:370-371 | a known section is named by its label, an unknown one by its id |
| Search.FilteredMessageShape | themes/yaub/static/js/search-modal.js:373-377 | the message ends with the section's name and starts "No results" exactly for a count of 0; one result is singular |
| Search.MessageDeterminesCount | themes/yaub/static/js/search-modal.js:373-377 | different counts give different messages |
| Search.FocusIndex | themes/yaub/static/js/search-modal.js:519-523 | the index is the focused result's own position, or -1 exactly when focus is on no existing result |
| Search.LinkCount | themes/yaub/static/js/search-modal.js:516-517 | one link per result that has one; none exactly when no result has a link, which makes the handler return early |
| Search.LinkHidden | themes/yaub/static/js/search-modal.js:330-335 | one entry per result link, saying whether the filter set its result's display to "none"; with no result hidden, every link is shown |
| Search.FocusLink | themes/yaub/static/js/search-modal.js:530 | `focus()` on a link moves focus there or leaves it where it was, and only a shown link takes focus |
| Search.Navigate | themes/yaub/static/js/search-modal.js:513-554 | a click only ever targets an existing result, and focus only moves to an existing result link that the filter does not hide |
| Search.NavigateRules | themes/yaub/static/js/search-modal.js:526-553 | Down goes from the input or outside to the first link and then one by one, stopping at the last. Up goes back one, and from the first link to the input. A move onto a hidden link leaves focus where it was. Enter clicks exactly a focused result, and no other key clicks |
| Search.DownThenUp | themes/yaub/static/js/search-modal.js:526-547 | with every link shown, Down then Up returns to the input or to any result but the last |
| Search.UpThenDown | themes/yaub/static/js/search-modal.js:526-547 | with every link shown, Up then Down returns to any result when there is an input |
| Search.PressDownReaches | themes/yaub/static/js/search-modal.js:526-535 | with every link shown, k presses of Down from the input reach result min(k, n) - 1 |
| Search.PressDownFromResult | themes/yaub/static/js/search-modal.js:526-535 | with every link shown, k presses of Down from result i reach result min(i + k, n - 1) |
| Search.HiddenFirstLinkBlocksDown | themes/yaub/static/js/search-modal.js:526-531 | while the filter hides the first link, Down from the input leaves focus on the input, whatever else is shown |
| Search.PressDownAvoidsHidden | themes/yaub/static/js/search-modal.js:526-535 | however often Down is pressed, focus never lands on a hidden link |
| Search.SearchModal.constructor | themes/yaub/static/js/search-modal.js:22-38 | after init the dialog is closed and the "all" filter is active |
| Search.SearchModal.SaveRecentSearch | themes/yaub/static/js/search-modal.js:396-415 | the store becomes `StoreAfterSave` |
| Search.SearchModal.HideRecentSearches | themes/yaub/static/js/search-modal.js:473-477 | the recent list is hidden |
| Search.SearchModal.ShowRecentSearches | themes/yaub/static/js/search-modal.js:432-468 | an empty history hides the container; otherwise it lists exactly the stored searches |
| Search.SearchModal.ClearRecentSearches | themes/yaub/static/js/search-modal.js:420-427 | the key is removed and the list hidden; when the removal throws, both stay |
| Search.SearchModal.InputEvent | themes/yaub/static/js/search-modal.js:212-229 | an empty trimmed query shows the stored history (hidden with its items kept when there is none), any other hides it, and a trimmed query of three or more UTF-16 units is queued for saving, replacing any queued one |
| Search.SearchModal.Type | themes/yaub/static/js/search-modal.js:212-229 | typing sets the value and runs the input listener: a trimmed value of three or more UTF-16 units is queued for saving; a blank one shows the stored history (hidden with its items kept when there is none), and any other hides it |
| Search.SearchModal.SaveTimerFires | themes/yaub/static/js/search-modal.js:225-227 | the queued query is saved |
| Search.SearchModal.RecentItemClicked | themes/yaub/static/js/search-modal.js:454-463 | a term becomes the input's value as if typed (the trimmed term saved when at least 3 UTF-16 units long, and a blank term listing the stored searches), focus goes to the input and the list hides; without an input or a term nothing happens |
| Search.SearchModal.FilterResultsBySection | themes/yaub/static/js/search-modal.js:319-341 | a result with a link is shown exactly when the lower-cased link contains `/section/`, and hidden otherwise; a result without a link keeps its display; the count is the number of shown results; the message is updated if present |
| Search.SearchModal.UpdateFilteredMessage | themes/yaub/static/js/search-modal.js:362-379 | a present message is given the filtered message for the count and the section, and its first text is kept as the original |
| Search.SearchModal.ShowAllResults | themes/yaub/static/js/search-modal.js:346-357 | every result is displayed and a saved original text is restored (`RestoredMessage`) |
| Search.StaleOriginalRestored | themes/yaub/static/js/search-modal.js:352-368 | once a filter has saved a first search's text, filtering a later search and choosing "all" shows the first text again |
| Search.RestoredMessage | themes/yaub/static/js/search-modal.js:352-356 | a message keeps its saved original and shows it again when one was saved; without one it is unchanged |
| Search.SearchModal.ApplyFilter | themes/yaub/static/js/search-modal.js:296-314 | without the search engine, an input, a non-empty query or the results area, nothing changes; otherwise a section filters, and "all" shows every result and restores a saved original message; `FilterApplied` states the same effect as one predicate |
| Search.SearchModal.SetActiveFilter | themes/yaub/static/js/search-modal.js:274-291 | the filter becomes the section, exactly its pill is active, and the results and message are re-filtered as `ApplyFilter` states (`FilterApplied`); without the search engine, an input, a non-empty query or the results area they are unchanged |
| Search.SearchModal.PillClicked | themes/yaub/static/js/search-modal.js:260-269 | with the search engine a pill selects its section, with the re-filtering `FilterApplied` states; without it nothing happens |
| Search.SearchModal.ResultsRendered | themes/yaub/static/js/search-modal.js:156-163 | the new results replace the old, focus on a result is dropped, and the message takes the new text with the saved original kept; with a section selected and the observer installed, the results are filtered and the message becomes the filtered message for the shown count |
| Search.SearchModal.Open | themes/yaub/static/js/search-modal.js:571-592 | an open dialog is left alone; otherwise the dialog opens, the body is classed, a focus timer starts, and the history is shown, or hidden with its items kept when there is none (`OpenEffect`) |
| Search.SearchModal.FocusTimerFires | themes/yaub/static/js/search-modal.js:583-588 | focus goes to the input when there is one |
| Search.SearchModal.Close | themes/yaub/static/js/search-modal.js:594-610 | a closed dialog is left alone; otherwise it closes, the body class goes and the input empties; with the search engine the input listener then drops the pending save and shows the stored history again (`CloseEffect`) |
| Search.SearchModal.Toggle | themes/yaub/static/js/search-modal.js:560-569 | an open dialog gets the whole effect of closing and a closed one the whole effect of opening |
| Search.SearchModal.IsOpen | themes/yaub/static/js/search-modal.js:624 | reports the open state |
| Search.SearchModal.DialogKeyDown | themes/yaub/static/js/search-modal.js:513-554 | in an open dialog with result links, focus and clicks follow `Navigate` over the links and which of them the filter hides; otherwise nothing changes |
| Search.SearchModal.DocumentKeyDown | themes/yaub/static/js/search-modal.js:493-505 | Ctrl/Cmd+K has the whole effect of toggling and Escape that of closing an open dialog; any other key changes nothing |
| Search.SearchModal.InputKeyDown | themes/yaub/static/js/search-modal.js:232-239 | Enter saves a trimmed query of two or more UTF-16 units; any other key, or a shorter query, leaves the store alone |
| Search.SearchModal.KeyDown | themes/yaub/static/js/search-modal.js:493-554 | a key press reaches the input, dialog and document handlers in that order, keeping the dialog's invariant |

## Left out

- The search engine (Pagefind).
  - Its search, its rendering and its own input handling are left out. Rendered results arrive as values through `ResultsRendered`.
  - The fallback form's redirect to /search/ is left out.
  - So is the 100 ms wait before the listeners are installed. The model starts from the state after that wait.
- JSON. `JSON.stringify` and `JSON.parse` are a parameter (`Codec`). Their round trip is assumed only where a lemma needs it. A stored value that parses to something other than an array of strings is outside the model.
- Text.Lower: only ASCII letters change case. Unicode case mapping is not modelled.
- Text.Less: compares characters, not UTF-16 code units.
- `escapeHtml`, and the round trip of a recent search through the `data-search` attribute: a listed term is clicked as the stored string.
- Markup: the dialogs' HTML is not modelled (`createModal` in either dialog, the recent-searches list, the pills). `formatKeys` is the exception.
- Element lookups: each is a flag fixed when the script starts.
  - These elements are covered: the toggle, the sidebar and body elements, the search input, the results area and the message.
  - A `.toggle-text` or icon missing inside an existing reader-mode toggle would throw. The model assumes both are present.
  - The same goes for a missing `#myBtn` in scroll2top.
- Timers:
  - Durations (100 ms, 300 ms, 400 ms, 1 s, 1.5 s, 4 s) are not modelled: timers fire when their method is called, in whatever order.
  - Removal of screen-reader announcements after one second is not modelled. Announcements are an ever-growing list.
  - Reader.ReaderMode.ShowHint: a second call while a hint timer is pending overwrites the handle without clearing the older timer. The model keeps only the newest handle. showHint runs at most once per stored record, so this case needs the hint record to be lost between calls.
- `navigator.platform` detection: the modifier key name is a parameter of `Shortcuts.ShortcutTable`.
- `scrollIntoView`, focus movement from the close button, and `preventDefault`.
- The system colour-scheme listener (`watchSystemPreference`): the script ignores the system preference anyway.
- The `DOMContentLoaded` timing of the theme button's setup: the button is taken to exist from the start.
- `img.src` URL resolution. The model reads the attribute value.
- `img.loading`'s reflected default. The model reads the attribute value, or "" when it is unset. In browsers that implement the attribute, `loading` reflects "eager" when it is unset, so the `!img.loading` test (themes/yaub/static/js/webp-upgrade.js:60) is never true there and such images are never made lazy; the model's "" case is the behaviour of a browser without the attribute.
- The stderr-ocp theme's `start`, `blurbutton` and the easing functions: jQuery hover blur and animation curves.
- The context scripts yaub.js and clipboard.integration.js are not part of this model.
- Search.SearchResult: each result is taken to render at most one `.pagefind-ui__result-link`. With `showSubResults` a result can hold several; the key handler walks every link, while the filter reads only each result's first.
- Scripts.SortList: `#tags001` is an array of sibling items. `getElementsByTagName("LI")` also returns nested items, and the swap goes through each item's own parent, so the model is exact only when every item is a direct child of the list.
- The results observer: `ResultsRendered` takes one call per rendering of the search engine. A `MutationObserver` may fire several times for one rendering, and the model does not state the effect of those extra firings.
- Element focusability: only a link whose result the section filter hides (display "none") refuses focus. Any other reason a link could not take focus is not modelled.
- Search.SearchModal.KeyDown: states only that the dialog invariant is kept. The effects of the three handlers are stated by `InputKeyDown`, `DialogKeyDown` and `DocumentKeyDown`.
- Theme.ThemeToggle.SetupToggleButton: states only that the label agrees with the theme. The listeners it installs are `OnButtonActivate`.
