/**
 * The yaub theme's keyboard-shortcut help (shortcuts-modal.js): the table of
 * shortcuts it lists, the `<kbd>` formatting of key names, the help dialog's
 * open/close state, the `[` sidebar toggle, and the document key handler.
 */
module Shortcuts {
  import opened Wrappers
  import opened Text
  import opened Storage
  import opened Dom

  const SidebarKey := "sidebarCollapsed"
  const CollapsedClass := "collapsed"
  const BodyCollapsedClass := "sidebar-collapsed"
  const SeparatorMarkup := "<span class=\"shortcut-separator\">/</span>"
  const OpenedMessage := "Keyboard shortcuts dialog opened"
  const ClosedMessage := "Keyboard shortcuts dialog closed"
  const ExpandedMessage := "Sidebar expanded"
  const CollapsedMessage := "Sidebar collapsed"

  datatype Item = Item(keys: string, description: string)
  datatype Section = Section(category: string, items: seq<Item>)

  const ThemeItem := Item("T", "Toggle dark/light theme")
  const HelpItem := Item("?", "Show this help")

  /** generalItems: the theme shortcut only when the theme button exists, then the help shortcut. */
  function GeneralItems(themeToggleEnabled: bool): (items: seq<Item>)
    ensures |items| > 0 && items[|items| - 1] == HelpItem
    ensures ThemeItem in items <==> themeToggleEnabled
    ensures |items| == if themeToggleEnabled then 2 else 1
  {
    (if themeToggleEnabled then [ThemeItem] else []) + [HelpItem]
  }

  /** `shortcuts`: the four sections of the dialog; `modKey` is the platform's modifier name. */
  function ShortcutTable(modKey: string, themeToggleEnabled: bool): (table: seq<Section>)
    ensures |table| == 4
    ensures table[3] == Section("General", GeneralItems(themeToggleEnabled))
    ensures Item(modKey + "+K", "Open search") in table[1].items
  {
    [ Section("Navigation", [Item("[", "Toggle sidebar")]),
      Section("Search", [ Item(modKey + "+K", "Open search"),
                          Item("\U{2191} \U{2193}", "Navigate results"),
                          Item("Enter", "Open selected result"),
                          Item("Esc", "Close search") ]),
      Section("Reading", [ Item("R", "Toggle reader mode"),
                           Item("+ / \U{2212}", "Adjust font size (reader mode)"),
                           Item("Esc", "Exit reader mode") ]),
      Section("General", GeneralItems(themeToggleEnabled)) ]
  }

  // ---------------------------------------------------------------------------
  // formatKeys

  /** The markup for one key name: "/" becomes the separator, anything else a `<kbd>`. */
  function FormatKey(key: string): (markup: string)
    ensures key == "/" ==> markup == SeparatorMarkup
    ensures key != "/" ==> markup == "<kbd>" + key + "</kbd>"
  {
    if key == "/" then SeparatorMarkup else "<kbd>" + key + "</kbd>"
  }

  function FormatEach(keys: seq<string>): (r: seq<string>)
    ensures |r| == |keys|
    ensures forall k :: 0 <= k < |keys| ==> r[k] == FormatKey(keys[k])
  {
    seq(|keys|, k requires 0 <= k < |keys| => FormatKey(keys[k]))
  }

  /** formatKeys: split on single spaces, format each piece, join with nothing. */
  function FormatKeys(keys: string): string
  {
    Concat(FormatEach(Split(keys, ' ')))
  }

  /** A key name without spaces is formatted as one piece. */
  lemma FormatKeysSingle(key: string)
    requires ' ' !in key
    ensures FormatKeys(key) == FormatKey(key)
  {
    SplitWithoutSeparator(key, ' ');
    assert FormatEach([key]) == [FormatKey(key)];
    assert Concat([FormatKey(key)]) == FormatKey(key) + Concat([]);
  }

  /** Formatting distributes over a space: each side is formatted on its own and the results abut. */
  lemma FormatKeysSpace(a: string, b: string)
    ensures FormatKeys(a + " " + b) == FormatKeys(a) + FormatKeys(b)
  {
    SplitAtSeparator(a, b, ' ');
    var pa, pb := Split(a, ' '), Split(b, ' ');
    assert FormatEach(pa + pb) == FormatEach(pa) + FormatEach(pb);
    ConcatAppend(FormatEach(pa), FormatEach(pb));
  }

  /** Two keys around a slash, as in the font-size entry "+ / \U{2212}": two `<kbd>`s around the separator. */
  lemma FormatAlternativeKeys(a: string, b: string)
    requires ' ' !in a && ' ' !in b
    requires a != "/" && b != "/"
    ensures FormatKeys(a + " / " + b) == "<kbd>" + a + "</kbd>" + SeparatorMarkup + "<kbd>" + b + "</kbd>"
  {
    var tail := "/" + " " + b;
    FormatKeysSpace("/", b);
    FormatKeysSingle("/");
    FormatKeysSingle(b);
    FormatKeysSpace(a, tail);
    FormatKeysSingle(a);
    assert a + " " + tail == a + " / " + b;
  }

  // ---------------------------------------------------------------------------
  // handleKeyDown

  /** handleKeyDown's typing test on `document.activeElement` (tag names compared as given). */
  predicate IsTyping(active: Element)
  {
    active.tagName == "INPUT" || active.tagName == "TEXTAREA" || active.tagName == "SELECT" || active.contentEditable
  }

  datatype Command = CloseDialog | ToggleDialog | ToggleSidebarCommand | NoCommand

  /** The three rules of handleKeyDown, first match wins. */
  function KeyCommand(key: string, typing: bool, isOpen: bool): (c: Command)
    ensures c == CloseDialog <==> key == "Escape" && isOpen
    ensures c == ToggleDialog <==> key == "?" && !typing
    ensures c == ToggleSidebarCommand <==> key == "[" && !typing && !isOpen
  {
    if key == "Escape" && isOpen then CloseDialog
    else if key == "?" && !typing then ToggleDialog
    else if key == "[" && !typing && !isOpen then ToggleSidebarCommand
    else NoCommand
  }

  /** Escape closes an open dialog even while typing; nothing else reacts while typing. */
  lemma TypingIgnoresAllButEscape(key: string, isOpen: bool)
    ensures KeyCommand(key, true, isOpen) == (if key == "Escape" && isOpen then CloseDialog else NoCommand)
  {
  }

  /**
   * What toggleSidebar does to the two class lists, the store and the
   * announcements (the `0`-suffixed values are the state before it): with
   * both elements present the collapsed classes flip together, the new state
   * is stored and announced, and a throwing store stops before the announcement.
   */
  predicate SidebarToggled(sidebar0: Option<set<string>>, body0: Option<set<string>>, store0: Store, said0: seq<string>,
                           sidebar: Option<set<string>>, body: Option<set<string>>, store: Store, said: seq<string>, threw: bool)
  {
    if sidebar0.None? || body0.None? then
      sidebar == sidebar0 && body == body0 && store == store0 && said == said0 && !threw
    else
      var collapse := CollapsedClass !in sidebar0.value;
      sidebar.Some? && body.Some? &&
      (CollapsedClass in sidebar.value <==> collapse) &&
      (BodyCollapsedClass in body.value <==> collapse) &&
      sidebar.value - {CollapsedClass} == sidebar0.value - {CollapsedClass} &&
      body.value - {BodyCollapsedClass} == body0.value - {BodyCollapsedClass} &&
      threw == !store0.writable &&
      (threw ==> store == store0 && said == said0) &&
      (!threw ==>
        store == store0.(items := store0.items[SidebarKey := if collapse then "true" else "false"]) &&
        said == said0 + [if collapse then CollapsedMessage else ExpandedMessage])
  }

  /** The help dialog and the page elements it writes. */
  class ShortcutsModal {
    /** Whether createModal has run (`modal` is no longer `null`). */
    var modalCreated: bool
    var isOpen: bool
    /** Whether the dialog carries the `active` class. */
    var modalActive: bool
    /** `document.body.style.overflow` */
    var bodyOverflow: string
    /** Focus timers started by openModal and not yet fired. */
    var focusTimers: nat
    /** Screen-reader announcements, in order. */
    var announcements: seq<string>
    /** The class lists of `#sidebar` and `#body`, None when the element is missing. */
    var sidebarClasses: Option<set<string>>
    var bodyClasses: Option<set<string>>
    var store: Store

    /** The dialog exists when open, is active exactly when open, and an open dialog locks page scrolling. */
    predicate Valid()
      reads this
    {
      (isOpen ==> modalCreated) &&
      (modalCreated ==> modalActive == isOpen) &&
      (isOpen ==> bodyOverflow == "hidden")
    }

    /** Script load: no dialog yet, closed. */
    constructor (sidebar: Option<set<string>>, body: Option<set<string>>, overflow: string, st: Store)
      ensures Valid() && !modalCreated && !isOpen && !modalActive
      ensures sidebarClasses == sidebar && bodyClasses == body && bodyOverflow == overflow && store == st
      ensures focusTimers == 0 && announcements == []
    {
      modalCreated := false;
      isOpen := false;
      modalActive := false;
      bodyOverflow := overflow;
      focusTimers := 0;
      announcements := [];
      sidebarClasses := sidebar;
      bodyClasses := body;
      store := st;
    }

    /** createModal: a fresh dialog without the `active` class. */
    method CreateModal()
      modifies this`modalCreated, this`modalActive
      ensures modalCreated && !modalActive
    {
      modalCreated := true;
      modalActive := false;
    }

    /** openModal: creates the dialog on first use; opening an open dialog announces again. */
    method Open()
      requires Valid()
      modifies this`modalCreated, this`modalActive, this`isOpen, this`bodyOverflow, this`focusTimers, this`announcements
      ensures Valid() && isOpen && modalCreated && modalActive
      ensures bodyOverflow == "hidden" && focusTimers == old(focusTimers) + 1
      ensures announcements == old(announcements) + [OpenedMessage]
    {
      if !modalCreated {
        CreateModal();
      }
      isOpen := true;
      modalActive := true;
      bodyOverflow := "hidden";
      focusTimers := focusTimers + 1;
      announcements := announcements + [OpenedMessage];
    }

    /** closeModal: a no-op unless the dialog exists and is open. */
    method Close()
      requires Valid()
      modifies this`modalActive, this`isOpen, this`bodyOverflow, this`announcements
      ensures Valid() && !isOpen
      ensures !old(isOpen) ==> unchanged(this)
      ensures old(isOpen) ==> !modalActive && bodyOverflow == "" && announcements == old(announcements) + [ClosedMessage]
    {
      if !modalCreated || !isOpen {
        return;
      }
      isOpen := false;
      modalActive := false;
      bodyOverflow := "";
      announcements := announcements + [ClosedMessage];
    }

    /** toggleModal */
    method Toggle()
      requires Valid()
      modifies this`modalCreated, this`modalActive, this`isOpen, this`bodyOverflow, this`focusTimers, this`announcements
      ensures Valid() && isOpen == !old(isOpen)
      ensures announcements == old(announcements) + [if isOpen then OpenedMessage else ClosedMessage]
      ensures old(isOpen) ==> !modalActive && bodyOverflow == "" && focusTimers == old(focusTimers)
      ensures !old(isOpen) ==> modalCreated && modalActive && bodyOverflow == "hidden" && focusTimers == old(focusTimers) + 1
    {
      if isOpen {
        Close();
      } else {
        Open();
      }
    }

    /**
     * toggleSidebar: flips `collapsed` on the sidebar and `sidebar-collapsed`
     * on the body together and records the new state. A throwing `setItem` is
     * not caught: it ends the handler before the announcement (`threw`).
     */
    method ToggleSidebar() returns (threw: bool)
      modifies this`sidebarClasses, this`bodyClasses, this`store, this`announcements
      ensures old(sidebarClasses).None? || old(bodyClasses).None? ==> unchanged(this) && !threw
      ensures old(sidebarClasses).Some? && old(bodyClasses).Some? ==>
        var collapse := CollapsedClass !in old(sidebarClasses).value;
        sidebarClasses.Some? && bodyClasses.Some? &&
        (CollapsedClass in sidebarClasses.value <==> collapse) &&
        (BodyCollapsedClass in bodyClasses.value <==> collapse) &&
        sidebarClasses.value - {CollapsedClass} == old(sidebarClasses).value - {CollapsedClass} &&
        bodyClasses.value - {BodyCollapsedClass} == old(bodyClasses).value - {BodyCollapsedClass} &&
        threw == !old(store).writable &&
        (threw ==> store == old(store) && announcements == old(announcements)) &&
        (!threw ==>
          store == old(store).(items := old(store).items[SidebarKey := if collapse then "true" else "false"]) &&
          announcements == old(announcements) + [if collapse then CollapsedMessage else ExpandedMessage])
    {
      threw := false;
      if sidebarClasses.None? || bodyClasses.None? {
        return;
      }
      var sidebar, body := sidebarClasses.value, bodyClasses.value;
      if CollapsedClass in sidebar {
        sidebarClasses := Some(sidebar - {CollapsedClass});
        bodyClasses := Some(body - {BodyCollapsedClass});
        match SetItem(store, SidebarKey, "false")
        case Throws =>
          threw := true;
          return;
        case Done(next) =>
          store := next;
        announcements := announcements + [ExpandedMessage];
      } else {
        sidebarClasses := Some(sidebar + {CollapsedClass});
        bodyClasses := Some(body + {BodyCollapsedClass});
        match SetItem(store, SidebarKey, "true")
        case Throws =>
          threw := true;
          return;
        case Done(next) =>
          store := next;
        announcements := announcements + [CollapsedMessage];
      }
    }

    /** handleKeyDown: the command of `KeyCommand`, carried out. */
    method HandleKeyDown(key: string, active: Element) returns (threw: bool)
      requires Valid()
      modifies this
      ensures Valid()
      ensures var c := KeyCommand(key, IsTyping(active), old(isOpen));
        (c == CloseDialog ==>
          !isOpen && !modalActive && bodyOverflow == "" && !threw &&
          announcements == old(announcements) + [ClosedMessage] &&
          modalCreated == old(modalCreated) && focusTimers == old(focusTimers) &&
          sidebarClasses == old(sidebarClasses) && bodyClasses == old(bodyClasses) && store == old(store)) &&
        (c == ToggleDialog ==>
          isOpen == !old(isOpen) && !threw &&
          announcements == old(announcements) + [if isOpen then OpenedMessage else ClosedMessage] &&
          (isOpen ==> modalCreated && modalActive && bodyOverflow == "hidden" && focusTimers == old(focusTimers) + 1) &&
          (!isOpen ==> !modalActive && bodyOverflow == "" && focusTimers == old(focusTimers)) &&
          sidebarClasses == old(sidebarClasses) && bodyClasses == old(bodyClasses) && store == old(store)) &&
        (c == ToggleSidebarCommand ==>
          isOpen == old(isOpen) && modalCreated == old(modalCreated) && modalActive == old(modalActive) &&
          bodyOverflow == old(bodyOverflow) && focusTimers == old(focusTimers) &&
          threw == (old(sidebarClasses).Some? && old(bodyClasses).Some? && !old(store).writable) &&
          SidebarToggled(old(sidebarClasses), old(bodyClasses), old(store), old(announcements),
                         sidebarClasses, bodyClasses, store, announcements, threw)) &&
        (c == NoCommand ==> unchanged(this) && !threw)
    {
      threw := false;
      var isTyping := active.tagName in ["INPUT", "TEXTAREA", "SELECT"] || active.contentEditable;
      if key == "Escape" && isOpen {
        Close();
        return;
      }
      if key == "?" && !isTyping {
        Toggle();
        return;
      }
      if key == "[" && !isTyping && !isOpen {
        threw := ToggleSidebar();
        return;
      }
    }
  }
}
