/**
 * The yaub theme's dark/light switch (theme-toggle.js): the `data-theme`
 * attribute of the root element, its persistence under "yaub-theme" in
 * `localStorage`, the toggle button's label, the mobile `theme-color` meta
 * tag, and the T keyboard shortcut.
 */
module Theme {
  import opened Wrappers
  import opened Text
  import opened Storage
  import opened Dom

  const StorageKey := "yaub-theme"
  const Dark := "dark"
  const Light := "light"
  const TransitionClass := "theme-transitioning"
  const ChangeEvent := "themechange"

  /** getStoredTheme: the stored item, or `null` when it is absent or reading throws. */
  function StoredTheme(st: Store): (t: Option<string>)
    ensures t.Some? <==> st.readable && StorageKey in st.items
    ensures t.Some? ==> t.value == st.items[StorageKey]
  {
    ReadOrNull(st, StorageKey)
  }

  /** getPreferredTheme: a non-empty stored value verbatim, otherwise dark; the system preference plays no part. */
  function PreferredTheme(st: Store): (t: string)
    ensures t != ""
    ensures StoredTheme(st).Some? && StoredTheme(st).value != "" ==> t == StoredTheme(st).value
    ensures StoredTheme(st).None? || StoredTheme(st).value == "" ==> t == Dark
  {
    match StoredTheme(st)
    case Some(v) => if v != "" then v else Dark
    case None => Dark
  }

  /** `getAttribute('data-theme') || THEME_DARK`, the theme that toggle and getCurrentTheme read. */
  function CurrentTheme(attr: Option<string>): (t: string)
    ensures t != ""
    ensures attr.Some? && attr.value != "" ==> t == attr.value
    ensures attr.None? || attr.value == "" ==> t == Dark
  {
    if attr.Some? && attr.value != "" then attr.value else Dark
  }

  /** toggle's choice: light after dark, dark after anything else. */
  function NextTheme(t: string): (n: string)
    ensures n == Light <==> t == Dark
    ensures n == Dark <==> t != Dark
  {
    if t == Dark then Light else Dark
  }

  predicate IsValidTheme(t: string)
  {
    t == Dark || t == Light
  }

  /** updateButtonState's label: it names the theme a click switches to. */
  function ButtonLabel(t: string): (text: string)
    ensures text == "Switch to light mode" <==> t == Dark
    ensures text == "Switch to dark mode" <==> t != Dark
  {
    if t == Dark then "Switch to light mode" else "Switch to dark mode"
  }

  /** updateMetaThemeColor's colour. */
  function MetaColor(t: string): (c: string)
    ensures c == "#303030" <==> t == Dark
    ensures c == "#f7f8fa" <==> t != Dark
  {
    if t == Dark then "#303030" else "#f7f8fa"
  }

  /** The label always names the theme toggle would apply next. */
  lemma ButtonLabelNamesNext(t: string)
    ensures ButtonLabel(t) == "Switch to " + NextTheme(t) + " mode"
  {
  }

  /** Two toggles return to a valid theme; from any other value they settle on light. */
  lemma NextThemeTwice(t: string)
    ensures IsValidTheme(t) ==> NextTheme(NextTheme(t)) == t
    ensures !IsValidTheme(t) ==> NextTheme(NextTheme(t)) == Light
    ensures IsValidTheme(NextTheme(t))
  {
  }

  /** A successful clearPreference makes every later getPreferredTheme answer dark. */
  lemma ClearedPreferenceIsDark(st: Store)
    requires st.writable
    ensures PreferredTheme(RemoveOrKeep(st, StorageKey)) == Dark
  {
  }

  /** A stored theme is read back by getPreferredTheme when storage works both ways; a failed write keeps the old preference. */
  lemma StoredThemeIsPreferred(st: Store, t: string)
    requires t != ""
    ensures st.writable && st.readable ==> PreferredTheme(SetOrKeep(st, StorageKey, t)) == t
    ensures !st.writable ==> PreferredTheme(SetOrKeep(st, StorageKey, t)) == PreferredTheme(st)
  {
  }

  /** The tag-name test of the T-key handler, after `toLowerCase()`. */
  predicate IsEditingTarget(target: Element)
  {
    var tag := Lower(target.tagName);
    tag == "input" || tag == "textarea" || tag == "select" || target.contentEditable
  }

  /**
   * Whether a key press toggles the theme: the handler exists (the button was
   * present when the script ran), the target is not being edited, the key is T
   * in either case with no Ctrl, Meta or Alt, and neither modal is open.
   */
  predicate ShortcutToggles(installed: bool, ev: KeyEvent, searchActive: bool, shortcutsActive: bool)
  {
    installed && !IsEditingTarget(ev.target) &&
    Lower(ev.key) == "t" && NoModifier(ev) &&
    !searchActive && !shortcutsActive
  }

  lemma ShortcutTogglesExactly(installed: bool, ev: KeyEvent, searchActive: bool, shortcutsActive: bool)
    ensures ShortcutToggles(installed, ev, searchActive, shortcutsActive) <==>
      installed && (ev.key == "t" || ev.key == "T") && !ev.ctrl && !ev.meta && !ev.alt &&
      !searchActive && !shortcutsActive &&
      !ev.target.contentEditable &&
      Lower(ev.target.tagName) !in {"input", "textarea", "select"}
  {
    if Lower(ev.key) == "t" {
      assert |ev.key| == 1 && (ev.key[0] == 't' || ev.key[0] == 'T');
      assert ev.key == [ev.key[0]];
    }
  }

  /** The button's own keyboard activation. */
  predicate ButtonKeyActivates(key: string)
  {
    key == "Enter" || key == " "
  }

  /** The `ThemeToggle` object together with the parts of the page it writes. */
  class ThemeToggle {
    /** The `data-theme` attribute of `<html>`. */
    var dataTheme: Option<string>
    /** The class list of `<html>`. */
    var htmlClasses: set<string>
    /** The number of transition-class removals still waiting on their timer. */
    var pendingRemovals: nat
    /** The `content` of `<meta name="theme-color">`, None while the tag does not exist. */
    var metaColor: Option<string>
    /** Whether `#theme-toggle-btn` exists. */
    const hasButton: bool
    /** The button's `aria-label`, which is also its `title`. */
    var buttonLabel: string
    var store: Store
    /** The `detail.theme` of every `themechange` event dispatched so far. */
    var events: seq<string>

    /** The page agrees with the applied theme: meta colour and button label follow it. */
    predicate Valid()
      reads this
    {
      dataTheme.Some? && dataTheme.value != "" &&
      metaColor == Some(MetaColor(dataTheme.value)) &&
      (hasButton ==> buttonLabel == ButtonLabel(dataTheme.value))
    }

    /**
     * Script load: init applies the preferred theme without animation, then
     * setupToggleButton labels the button after the current theme.
     */
    constructor (st: Store, classes: set<string>, meta: Option<string>, button: bool, initialLabel: string)
      ensures Valid()
      ensures dataTheme == Some(PreferredTheme(st)) && htmlClasses == classes && pendingRemovals == 0
      ensures hasButton == button && store == st && events == []
    {
      dataTheme := None;
      htmlClasses := classes;
      pendingRemovals := 0;
      metaColor := meta;
      hasButton := button;
      buttonLabel := initialLabel;
      store := st;
      events := [];
      new;
      ApplyInitialTheme();
      SetupToggleButton();
    }

    /** updateButtonState */
    method UpdateButtonState(theme: string)
      modifies this`buttonLabel
      ensures buttonLabel == (if hasButton then ButtonLabel(theme) else old(buttonLabel))
    {
      if hasButton {
        buttonLabel := ButtonLabel(theme);
      }
    }

    /** updateMetaThemeColor: creates the tag when missing, then sets its colour. */
    method UpdateMetaThemeColor(theme: string)
      modifies this`metaColor
      ensures metaColor == Some(MetaColor(theme))
    {
      metaColor := Some(MetaColor(theme));
    }

    /** applyTheme: optionally starts the transition, then sets the attribute, meta colour and label. */
    method ApplyTheme(theme: string, transition: bool)
      requires theme != ""
      modifies this`dataTheme, this`htmlClasses, this`pendingRemovals, this`metaColor, this`buttonLabel
      ensures Valid() && dataTheme == Some(theme)
      ensures htmlClasses == (if transition then old(htmlClasses) + {TransitionClass} else old(htmlClasses))
      ensures pendingRemovals == old(pendingRemovals) + (if transition then 1 else 0)
    {
      if transition {
        htmlClasses := htmlClasses + {TransitionClass};
        pendingRemovals := pendingRemovals + 1;
      }
      dataTheme := Some(theme);
      UpdateMetaThemeColor(theme);
      UpdateButtonState(theme);
    }

    /** The transition timer of applyTheme firing: the class goes. */
    method TransitionTimerFires()
      requires pendingRemovals > 0
      modifies this`htmlClasses, this`pendingRemovals
      ensures htmlClasses == old(htmlClasses) - {TransitionClass}
      ensures pendingRemovals == old(pendingRemovals) - 1
    {
      htmlClasses := htmlClasses - {TransitionClass};
      pendingRemovals := pendingRemovals - 1;
    }

    /** applyInitialTheme */
    method ApplyInitialTheme()
      modifies this`dataTheme, this`htmlClasses, this`pendingRemovals, this`metaColor, this`buttonLabel
      ensures Valid() && dataTheme == Some(PreferredTheme(store))
      ensures unchanged(this`htmlClasses, this`pendingRemovals)
    {
      ApplyTheme(PreferredTheme(store), false);
    }

    /** setupToggleButton's last step: label the button after the current theme. */
    method SetupToggleButton()
      requires Valid()
      modifies this`buttonLabel
      ensures Valid()
    {
      UpdateButtonState(CurrentTheme(dataTheme));
    }

    /** storeTheme: a failing write is swallowed. */
    method StoreTheme(theme: string)
      modifies this`store
      ensures store == SetOrKeep(old(store), StorageKey, theme)
    {
      store := SetOrKeep(store, StorageKey, theme);
    }

    /** getCurrentTheme */
    method GetCurrentTheme() returns (t: string)
      requires Valid()
      ensures t == dataTheme.value && t != ""
    {
      t := CurrentTheme(dataTheme);
    }

    /**
     * toggle: the next theme is applied with a transition and stored, and a
     * `themechange` event carries it. The applied theme does not depend on
     * whether storage works.
     */
    method Toggle()
      modifies this
      ensures Valid()
      ensures dataTheme == Some(NextTheme(CurrentTheme(old(dataTheme))))
      ensures htmlClasses == old(htmlClasses) + {TransitionClass}
      ensures pendingRemovals == old(pendingRemovals) + 1
      ensures store == SetOrKeep(old(store), StorageKey, dataTheme.value)
      ensures events == old(events) + [dataTheme.value]
    {
      var newTheme := NextTheme(CurrentTheme(dataTheme));
      ApplyTheme(newTheme, true);
      StoreTheme(newTheme);
      events := events + [newTheme];
    }

    /** setTheme: anything but dark or light is refused without effect; a valid theme is applied and stored. */
    method SetTheme(theme: string)
      modifies this
      ensures !IsValidTheme(theme) ==> unchanged(this)
      ensures IsValidTheme(theme) ==>
        Valid() && dataTheme == Some(theme) &&
        htmlClasses == old(htmlClasses) + {TransitionClass} &&
        pendingRemovals == old(pendingRemovals) + 1 &&
        store == SetOrKeep(old(store), StorageKey, theme) && events == old(events)
    {
      if theme != Dark && theme != Light {
        return;
      }
      ApplyTheme(theme, true);
      StoreTheme(theme);
    }

    /** clearPreference: the key is removed (a failure is swallowed) and dark is applied. */
    method ClearPreference()
      modifies this
      ensures Valid() && dataTheme == Some(Dark)
      ensures store == RemoveOrKeep(old(store), StorageKey)
      ensures htmlClasses == old(htmlClasses) + {TransitionClass}
      ensures pendingRemovals == old(pendingRemovals) + 1
      ensures events == old(events)
      ensures old(store).writable ==> PreferredTheme(store) == Dark
    {
      if store.writable {
        ClearedPreferenceIsDark(store);
      }
      store := RemoveOrKeep(store, StorageKey);
      ApplyTheme(Dark, true);
    }

    /** The button's click handler, and its Enter/Space handler. */
    method OnButtonActivate(key: Option<string>)
      modifies this
      ensures key.None? || ButtonKeyActivates(key.value) ==>
        Valid() && dataTheme == Some(NextTheme(CurrentTheme(old(dataTheme)))) &&
        htmlClasses == old(htmlClasses) + {TransitionClass} &&
        pendingRemovals == old(pendingRemovals) + 1 &&
        store == SetOrKeep(old(store), StorageKey, dataTheme.value) &&
        events == old(events) + [dataTheme.value]
      ensures key.Some? && !ButtonKeyActivates(key.value) ==> unchanged(this)
    {
      if key.None? || key.value == "Enter" || key.value == " " {
        Toggle();
      }
    }

    /** The document-level T handler, installed only when the button exists. */
    method OnKeyDown(ev: KeyEvent, searchActive: bool, shortcutsActive: bool)
      modifies this
      ensures ShortcutToggles(hasButton, ev, searchActive, shortcutsActive) ==>
        Valid() && dataTheme == Some(NextTheme(CurrentTheme(old(dataTheme)))) &&
        htmlClasses == old(htmlClasses) + {TransitionClass} &&
        pendingRemovals == old(pendingRemovals) + 1 &&
        store == SetOrKeep(old(store), StorageKey, dataTheme.value) &&
        events == old(events) + [dataTheme.value]
      ensures !ShortcutToggles(hasButton, ev, searchActive, shortcutsActive) ==> unchanged(this)
    {
      if !hasButton {
        return;
      }
      var tagName := Lower(ev.target.tagName);
      if tagName == "input" || tagName == "textarea" || tagName == "select" || ev.target.contentEditable {
        return;
      }
      if Lower(ev.key) == "t" && !ev.ctrl && !ev.meta && !ev.alt {
        if searchActive || shortcutsActive {
          return;
        }
        Toggle();
      }
    }
  }
}
