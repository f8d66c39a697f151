/**
 * The yaub theme's reader mode (reader-mode.js): a distraction-free layout
 * switched by a body class, remembered in `localStorage`, with a one-time
 * keyboard hint, keyboard shortcuts and floating previous/next links.
 *
 * Every operation of the script is a specification function on a snapshot
 * `ReaderState`; the class `ReaderMode` carries the same state as fields and
 * its methods are proved to move the snapshot exactly as the functions say.
 * A `localStorage` call that throws is not caught by the script, so the
 * operation stops at that call with the changes made before it.
 */
module Reader {
  import opened Wrappers
  import opened Storage
  import opened Dom

  const ModeKey := "readerModeEnabled"
  const HintKey := "readerModeHintShown"
  const ReaderClass := "reader-mode"
  const TransitionClass := "reader-mode-transitioning"
  const EnabledMessage := "Reader mode enabled. Press Escape to exit."
  const DisabledMessage := "Reader mode disabled."

  /** The page as init finds it: the article container, a chapter page, the toggle button, and the prev/next links' targets. */
  datatype Page = Page(hasBodyInner: bool, hasChapter: bool, hasToggle: bool, prevHref: Option<string>, nextHref: Option<string>)

  /** The toggle button's `.toggle-text`, icon class and `aria-pressed`. */
  datatype ButtonFace = ButtonFace(text: string, icon: string, pressed: string)

  function ButtonFor(enabled: bool): (face: ButtonFace)
    ensures face.pressed == (if enabled then "true" else "false")
    ensures face.text == (if enabled then "Exit Reader" else "Reader Mode")
  {
    if enabled then ButtonFace("Exit Reader", "fas fa-times", "true")
    else ButtonFace("Reader Mode", "fas fa-book-reader", "false")
  }

  /**
   * Everything the script reads or writes. `initialized` records that init
   * passed its guards, created the floating elements (the hint among them)
   * and installed the listeners. `hintsShown` counts the times the hint was
   * made visible; `nextTimer` is the handle the next `setTimeout` returns;
   * `transitionTimers` counts scheduled removals of the transition class.
   */
  datatype ReaderState = ReaderState(
    page: Page,
    enabled: bool,
    initialized: bool,
    bodyClasses: set<string>,
    store: Store,
    button: ButtonFace,
    hintVisible: bool,
    hintTimeout: Option<nat>,
    hintsShown: nat,
    nextTimer: nat,
    transitionTimers: nat,
    announcements: seq<string>,
    location: Option<string>)

  /** The state when the script has just loaded, before init. */
  function Loaded(page: Page, classes: set<string>, st: Store, face: ButtonFace, hintsShown: nat): (s: ReaderState)
    ensures !s.enabled && !s.initialized && !s.hintVisible && s.hintTimeout.None?
    ensures s.page == page && s.store == st && s.bodyClasses == classes
  {
    ReaderState(page, false, false, classes, st, face, false, None, hintsShown, 1, 0, [], None)
  }

  // ---------------------------------------------------------------------------
  // The operations, as functions of the state

  /** showHint: the hint exists only after init; it becomes visible and a hide timer is scheduled. */
  function ShowHintSpec(s: ReaderState): ReaderState
  {
    if !s.initialized then s
    else s.(hintVisible := true, hintTimeout := Some(s.nextTimer), nextTimer := s.nextTimer + 1, hintsShown := s.hintsShown + 1)
  }

  /** hideHint: the hint (when it exists) loses `visible`, and a pending hide timer is cleared. */
  function HideHintSpec(s: ReaderState): ReaderState
  {
    s.(hintVisible := if s.initialized then false else s.hintVisible, hintTimeout := None)
  }

  /** The common end of enable and disable: the transition timer and the announcement. */
  function Finish(s: ReaderState, animate: bool, message: string): ReaderState
  {
    s.(transitionTimers := s.transitionTimers + (if animate then 1 else 0), announcements := s.announcements + [message])
  }

  /** enableReaderMode's first-use hint, entered after the mode flag was stored. */
  function EnableHint(s: ReaderState, animate: bool): ReaderState
  {
    if !animate then Finish(s, animate, EnabledMessage)
    else match GetItem(s.store, HintKey)
      case Throws => s
      case Done(v) =>
        if v.Some? && v.value != "" then Finish(s, animate, EnabledMessage)
        else
          var shown := ShowHintSpec(s);
          match SetItem(shown.store, HintKey, "true")
          case Throws => shown
          case Done(st) => Finish(shown.(store := st), animate, EnabledMessage)
  }

  /** enableReaderMode(animate) */
  function EnableSpec(s: ReaderState, animate: bool): ReaderState
  {
    if s.enabled then s
    else
      var marked := s.(enabled := true,
                       bodyClasses := s.bodyClasses + (if animate then {TransitionClass} else {}) + {ReaderClass});
      match SetItem(marked.store, ModeKey, "true")
      case Throws => marked
      case Done(st) =>
        EnableHint(marked.(store := st, button := if s.page.hasToggle then ButtonFor(true) else s.button), animate)
  }

  /** disableReaderMode(animate) */
  function DisableSpec(s: ReaderState, animate: bool): ReaderState
  {
    if !s.enabled then s
    else
      var marked := s.(enabled := false,
                       bodyClasses := (s.bodyClasses + (if animate then {TransitionClass} else {})) - {ReaderClass});
      match SetItem(marked.store, ModeKey, "false")
      case Throws => marked
      case Done(st) =>
        var hidden := HideHintSpec(marked.(store := st, button := if s.page.hasToggle then ButtonFor(false) else s.button));
        Finish(hidden, animate, DisabledMessage)
  }

  /** toggleReaderMode: always animated. */
  function ToggleSpec(s: ReaderState): ReaderState
  {
    if s.enabled then DisableSpec(s, true) else EnableSpec(s, true)
  }

  /** init: only on an article page that is not a chapter and has the toggle button; restores a stored "true" without animation. */
  function InitSpec(s: ReaderState): ReaderState
  {
    if !s.page.hasBodyInner || s.page.hasChapter || !s.page.hasToggle then s
    else
      var ready := s.(initialized := true);
      match GetItem(ready.store, ModeKey)
      case Throws => ready
      case Done(v) => if v == Some("true") then EnableSpec(ready, false) else ready
  }

  /** The first key handler's typing test on the event target (no SELECT here). */
  predicate TypingTarget(t: Element)
  {
    t.tagName == "INPUT" || t.tagName == "TEXTAREA" || t.contentEditable
  }

  /** The first key handler: R toggles, Escape leaves reader mode. */
  function ReaderKeySpec(s: ReaderState, ev: KeyEvent): ReaderState
  {
    if TypingTarget(ev.target) then s
    else
      var toggled := if (ev.key == "r" || ev.key == "R") && NoModifier(ev) then ToggleSpec(s) else s;
      if ev.key == "Escape" && toggled.enabled then DisableSpec(toggled, true) else toggled
  }

  /** The second key handler: the arrows follow the floating links while reader mode is on. */
  function ArrowKeySpec(s: ReaderState, ev: KeyEvent): ReaderState
  {
    if !s.enabled || ev.target.tagName == "INPUT" || ev.target.tagName == "TEXTAREA" then s
    else
      var left := if ev.key == "ArrowLeft" && s.page.prevHref.Some? then s.(location := s.page.prevHref) else s;
      if ev.key == "ArrowRight" && s.page.nextHref.Some? then left.(location := s.page.nextHref) else left
  }

  /** A `keydown` on the document: both handlers, in the order init installed them. */
  function KeyDownSpec(s: ReaderState, ev: KeyEvent): ReaderState
  {
    if !s.initialized then s else ArrowKeySpec(ReaderKeySpec(s, ev), ev)
  }

  /** The hint's hide timer firing. */
  function HintTimerSpec(s: ReaderState): ReaderState
  {
    if s.hintTimeout.None? then s else HideHintSpec(s)
  }

  /** A transition timer firing. */
  function TransitionTimerSpec(s: ReaderState): ReaderState
  {
    if s.transitionTimers == 0 then s
    else s.(bodyClasses := s.bodyClasses - {TransitionClass}, transitionTimers := s.transitionTimers - 1)
  }

  // ---------------------------------------------------------------------------
  // What the operations guarantee

  /** Enable and disable do nothing in the state they would reach. */
  lemma EnableDisableNoOps(s: ReaderState, animate: bool)
    ensures s.enabled ==> EnableSpec(s, animate) == s
    ensures !s.enabled ==> DisableSpec(s, animate) == s
  {
  }

  /** Enabling always reaches reader mode, so enabling twice is enabling once; likewise for disabling. */
  lemma EnableDisableIdempotent(s: ReaderState, a: bool, b: bool)
    ensures EnableSpec(s, a).enabled && EnableSpec(EnableSpec(s, a), b) == EnableSpec(s, a)
    ensures !DisableSpec(s, a).enabled && DisableSpec(DisableSpec(s, a), b) == DisableSpec(s, a)
  {
  }

  /** Toggling flips the mode. */
  lemma ToggleFlips(s: ReaderState)
    ensures ToggleSpec(s).enabled == !s.enabled
  {
  }

  function ToggleTimes(s: ReaderState, n: nat): ReaderState
  {
    if n == 0 then s else ToggleSpec(ToggleTimes(s, n - 1))
  }

  /** After n toggles from off, reader mode is on exactly when n is odd. */
  lemma {:induction false} ToggleParity(s: ReaderState, n: nat)
    requires !s.enabled
    ensures ToggleTimes(s, n).enabled <==> n % 2 == 1
  {
    if n > 0 {
      ToggleParity(s, n - 1);
      ToggleFlips(ToggleTimes(s, n - 1));
    }
  }

  /**
   * A state-changing enable with working storage stores "true", shows the
   * button as "Exit Reader" and announces; a disable stores "false", shows
   * "Reader Mode", hides the hint and clears its timer.
   */
  lemma EnableDisableEffects(s: ReaderState, animate: bool)
    requires s.store.writable && s.store.readable
    ensures !s.enabled ==>
      var e := EnableSpec(s, animate);
      ReaderClass in e.bodyClasses && e.store.items[ModeKey] == "true" &&
      (s.page.hasToggle ==> e.button == ButtonFor(true)) &&
      e.announcements == s.announcements + [EnabledMessage]
    ensures s.enabled ==>
      var d := DisableSpec(s, animate);
      ReaderClass !in d.bodyClasses && d.store.items[ModeKey] == "false" &&
      (s.page.hasToggle ==> d.button == ButtonFor(false)) &&
      (s.initialized ==> !d.hintVisible) && d.hintTimeout.None? &&
      d.announcements == s.announcements + [DisabledMessage]
  {
  }

  /** The stored mode matches the mode after any enable or disable that stored it. */
  lemma StoredModeMirrors(s: ReaderState, animate: bool)
    requires s.store.writable
    ensures var e := EnableSpec(s, animate);
      !s.enabled ==> ModeKey in e.store.items && (e.store.items[ModeKey] == "true" <==> e.enabled)
    ensures var d := DisableSpec(s, animate);
      s.enabled ==> ModeKey in d.store.items && (d.store.items[ModeKey] == "true" <==> d.enabled)
  {
    if !s.enabled && animate && s.store.readable {
      var e := EnableSpec(s, animate);
      assert e.store.items[ModeKey] == "true";
    }
  }

  /**
   * The hint appears only on an animated enable that found no truthy
   * `readerModeHintShown`, and then that key is stored.
   */
  lemma EnableShowsHintOnlyFirstTime(s: ReaderState, animate: bool)
    ensures var e := EnableSpec(s, animate);
      e.hintsShown > s.hintsShown ==>
        animate && !s.enabled && s.initialized && s.store.readable && s.store.writable &&
        (HintKey !in s.store.items || s.store.items[HintKey] == "") &&
        e.store.items[HintKey] == "true" && e.hintVisible && e.hintTimeout.Some?
    ensures EnableSpec(s, animate).hintsShown <= s.hintsShown + 1
  {
  }

  /** init does nothing unless the page qualifies, and restores reader mode only from a stored "true". */
  lemma InitGuards(s: ReaderState)
    requires !s.enabled && !s.initialized
    ensures !s.page.hasBodyInner || s.page.hasChapter || !s.page.hasToggle ==> InitSpec(s) == s
    ensures InitSpec(s).enabled <==>
      s.page.hasBodyInner && !s.page.hasChapter && s.page.hasToggle &&
      GetItem(s.store, ModeKey) == Done(Some("true"))
    ensures InitSpec(s).hintsShown == s.hintsShown
    ensures TransitionClass !in s.bodyClasses ==> TransitionClass !in InitSpec(s).bodyClasses
    ensures InitSpec(s).transitionTimers == s.transitionTimers
  {
  }

  /** The key rules, for a document whose handlers are installed. */
  lemma ReaderKeyRules(s: ReaderState, ev: KeyEvent)
    requires s.initialized
    ensures TypingTarget(ev.target) ==> KeyDownSpec(s, ev) == ArrowKeySpec(s, ev)
    ensures !TypingTarget(ev.target) && (ev.key == "r" || ev.key == "R") && NoModifier(ev) ==>
      KeyDownSpec(s, ev) == ToggleSpec(s)
    ensures !TypingTarget(ev.target) && (ev.key == "r" || ev.key == "R") && !NoModifier(ev) ==>
      KeyDownSpec(s, ev) == s
    ensures !TypingTarget(ev.target) && ev.key == "Escape" ==>
      KeyDownSpec(s, ev) == (if s.enabled then DisableSpec(s, true) else s)
  {
  }

  /** The arrows navigate only in reader mode, only to an existing floating link, and change nothing else. */
  lemma ArrowKeyRules(s: ReaderState, ev: KeyEvent)
    requires s.initialized && (ev.key == "ArrowLeft" || ev.key == "ArrowRight")
    ensures var r := KeyDownSpec(s, ev);
      r == s.(location := r.location) &&
      (r.location != s.location ==>
        s.enabled && ev.target.tagName != "INPUT" && ev.target.tagName != "TEXTAREA" &&
        r.location == (if ev.key == "ArrowLeft" then s.page.prevHref else s.page.nextHref))
  {
  }

  /** The consistency the operations keep: the body class shows the mode; the hint is visible exactly while its timer is pending. */
  predicate Inv(s: ReaderState)
  {
    (s.enabled <==> ReaderClass in s.bodyClasses) &&
    (s.hintVisible <==> s.hintTimeout.Some?) &&
    (s.hintVisible ==> s.initialized) &&
    (s.hintTimeout.Some? ==> s.hintTimeout.value < s.nextTimer)
  }

  /** Every operation the page can trigger after load. */
  datatype Op =
    | KeyDown(ev: KeyEvent)
    | ToggleClick
    | ExitClick
    | ApiEnable
    | ApiDisable
    | ApiToggle
    | HintTimer
    | TransitionTimer
    | Reload(page: Page, classes: set<string>, face: ButtonFace)

  function Step(s: ReaderState, op: Op): ReaderState
  {
    match op
    case KeyDown(ev) => KeyDownSpec(s, ev)
    case ToggleClick => if s.initialized then ToggleSpec(s) else s
    case ExitClick => if s.initialized then DisableSpec(s, true) else s
    case ApiEnable => EnableSpec(s, true)
    case ApiDisable => DisableSpec(s, true)
    case ApiToggle => ToggleSpec(s)
    case HintTimer => HintTimerSpec(s)
    case TransitionTimer => TransitionTimerSpec(s)
    case Reload(page, classes, face) => InitSpec(Loaded(page, classes, s.store, face, s.hintsShown))
  }

  function Run(s: ReaderState, ops: seq<Op>): ReaderState
    decreases |ops|
  {
    if ops == [] then s else Run(Step(s, ops[0]), ops[1..])
  }

  lemma EnablePreservesInv(s: ReaderState, animate: bool)
    requires Inv(s)
    ensures Inv(EnableSpec(s, animate))
  {
  }

  lemma DisablePreservesInv(s: ReaderState, animate: bool)
    requires Inv(s)
    ensures Inv(DisableSpec(s, animate))
  {
  }

  lemma KeyDownPreservesInv(s: ReaderState, ev: KeyEvent)
    requires Inv(s)
    ensures Inv(KeyDownSpec(s, ev))
  {
    if s.initialized && !TypingTarget(ev.target) {
      var toggled := if (ev.key == "r" || ev.key == "R") && NoModifier(ev) then ToggleSpec(s) else s;
      EnablePreservesInv(s, true);
      DisablePreservesInv(s, true);
      DisablePreservesInv(toggled, true);
    }
  }

  /** A page loaded without the reader class starts consistent, and every operation keeps it so. */
  lemma StepPreservesInv(s: ReaderState, op: Op)
    requires Inv(s)
    requires op.Reload? ==> ReaderClass !in op.classes
    ensures Inv(Step(s, op))
  {
    match op
    case KeyDown(ev) => KeyDownPreservesInv(s, ev);
    case Reload(page, classes, face) =>
      var loaded := Loaded(page, classes, s.store, face, s.hintsShown);
      EnablePreservesInv(loaded.(initialized := true), false);
    case _ =>
      EnablePreservesInv(s, true);
      DisablePreservesInv(s, true);
  }

  /** `readerModeHintShown` holds a truthy value. */
  predicate HintRecorded(st: Store)
  {
    HintKey in st.items && st.items[HintKey] != ""
  }

  lemma EnableHintOnce(s: ReaderState, animate: bool)
    ensures var e := EnableSpec(s, animate);
      e.store.readable == s.store.readable && e.store.writable == s.store.writable &&
      (HintRecorded(s.store) ==> HintRecorded(e.store) && e.hintsShown == s.hintsShown) &&
      e.hintsShown <= s.hintsShown + 1 &&
      (e.hintsShown > s.hintsShown ==> HintRecorded(e.store))
  {
  }

  lemma DisableHintOnce(s: ReaderState, animate: bool)
    ensures var d := DisableSpec(s, animate);
      d.store.readable == s.store.readable && d.store.writable == s.store.writable &&
      (HintRecorded(s.store) ==> HintRecorded(d.store)) && d.hintsShown == s.hintsShown
  {
  }

  lemma StepHintOnce(s: ReaderState, op: Op)
    ensures var t := Step(s, op);
      (HintRecorded(s.store) ==> HintRecorded(t.store) && t.hintsShown == s.hintsShown) &&
      t.hintsShown <= s.hintsShown + 1 &&
      (t.hintsShown > s.hintsShown ==> HintRecorded(t.store))
  {
    match op
    case KeyDown(ev) =>
      if s.initialized && !TypingTarget(ev.target) {
        var toggled := if (ev.key == "r" || ev.key == "R") && NoModifier(ev) then ToggleSpec(s) else s;
        EnableHintOnce(s, true);
        DisableHintOnce(s, true);
        DisableHintOnce(toggled, true);
      }
    case Reload(page, classes, face) =>
      var loaded := Loaded(page, classes, s.store, face, s.hintsShown);
      EnableHintOnce(loaded.(initialized := true), false);
    case _ =>
      EnableHintOnce(s, true);
      DisableHintOnce(s, true);
  }

  /**
   * The hint is shown at most once over any run of operations, page reloads
   * included, and never again once its key is stored.
   */
  lemma {:induction false} HintShownAtMostOnce(s: ReaderState, ops: seq<Op>)
    ensures Run(s, ops).hintsShown <= s.hintsShown + (if HintRecorded(s.store) then 0 else 1)
    ensures HintRecorded(s.store) ==> HintRecorded(Run(s, ops).store)
    ensures Run(s, ops).hintsShown > s.hintsShown ==> HintRecorded(Run(s, ops).store)
    decreases |ops|
  {
    if ops != [] {
      StepHintOnce(s, ops[0]);
      HintShownAtMostOnce(Step(s, ops[0]), ops[1..]);
    }
  }

  // ---------------------------------------------------------------------------
  // The script's module state and the page, as an object

  /**
   * The page-facing wrapper of the *Spec functions above: each method
   * performs one handler on these fields and is proved to leave exactly
   * the state the matching function computes from the old state.
   */
  class ReaderMode {
    const page: Page
    /** `isReaderMode` */
    var enabled: bool
    var initialized: bool
    var bodyClasses: set<string>
    var store: Store
    var button: ButtonFace
    var hintVisible: bool
    /** `hintTimeout` */
    var hintTimeout: Option<nat>
    var hintsShown: nat
    var nextTimer: nat
    var transitionTimers: nat
    var announcements: seq<string>
    /** `window.location.href` once an arrow key navigated */
    var location: Option<string>

    function State(): ReaderState
      reads this
    {
      ReaderState(page, enabled, initialized, bodyClasses, store, button, hintVisible, hintTimeout,
                  hintsShown, nextTimer, transitionTimers, announcements, location)
    }

    /** Script load on `p`, followed by init. */
    constructor (p: Page, classes: set<string>, st: Store, face: ButtonFace)
      ensures State() == InitSpec(Loaded(p, classes, st, face, 0))
    {
      page := p;
      enabled := false;
      initialized := false;
      bodyClasses := classes;
      store := st;
      button := face;
      hintVisible := false;
      hintTimeout := None;
      hintsShown := 0;
      nextTimer := 1;
      transitionTimers := 0;
      announcements := [];
      location := None;
      new;
      Init();
    }

    method Init()
      modifies this
      ensures State() == InitSpec(old(State()))
    {
      if !page.hasBodyInner || page.hasChapter || !page.hasToggle {
        return;
      }
      initialized := true;
      match GetItem(store, ModeKey)
      case Throws =>
      case Done(v) =>
        if v == Some("true") {
          Enable(false);
        }
    }

    method ShowHint()
      modifies this
      ensures State() == ShowHintSpec(old(State()))
    {
      if initialized {
        hintVisible := true;
        hintTimeout := Some(nextTimer);
        nextTimer := nextTimer + 1;
        hintsShown := hintsShown + 1;
      }
    }

    method HideHint()
      modifies this
      ensures State() == HideHintSpec(old(State()))
    {
      if initialized {
        hintVisible := false;
      }
      if hintTimeout.Some? {
        hintTimeout := None;
      }
    }

    /** enableReaderMode(animate) */
    method Enable(animate: bool)
      modifies this
      ensures State() == EnableSpec(old(State()), animate)
    {
      if enabled {
        return;
      }
      enabled := true;
      if animate {
        bodyClasses := bodyClasses + {TransitionClass};
      }
      bodyClasses := bodyClasses + {ReaderClass};
      match SetItem(store, ModeKey, "true")
      case Throws =>
        return;
      case Done(st) =>
        store := st;
      if page.hasToggle {
        button := ButtonFor(true);
      }
      FinishEnable(animate);
    }

    /** The rest of enableReaderMode once the mode flag is stored: the first-use hint, the timer, the announcement. */
    method FinishEnable(animate: bool)
      modifies this
      ensures State() == EnableHint(old(State()), animate)
    {
      if animate {
        match GetItem(store, HintKey)
        case Throws =>
          return;
        case Done(v) =>
          if !(v.Some? && v.value != "") {
            ShowHint();
            match SetItem(store, HintKey, "true")
            case Throws =>
              return;
            case Done(st) =>
              store := st;
          }
        transitionTimers := transitionTimers + 1;
      }
      announcements := announcements + [EnabledMessage];
    }

    /** disableReaderMode(animate) */
    method Disable(animate: bool)
      modifies this
      ensures State() == DisableSpec(old(State()), animate)
    {
      if !enabled {
        return;
      }
      enabled := false;
      if animate {
        bodyClasses := bodyClasses + {TransitionClass};
      }
      bodyClasses := bodyClasses - {ReaderClass};
      match SetItem(store, ModeKey, "false")
      case Throws =>
        return;
      case Done(st) =>
        store := st;
      if page.hasToggle {
        button := ButtonFor(false);
      }
      HideHint();
      if animate {
        transitionTimers := transitionTimers + 1;
      }
      announcements := announcements + [DisabledMessage];
    }

    /** toggleReaderMode, also `ReaderMode.toggle` */
    method Toggle()
      modifies this
      ensures State() == ToggleSpec(old(State()))
    {
      if enabled {
        Disable(true);
      } else {
        Enable(true);
      }
    }

    /** `ReaderMode.isEnabled` */
    method IsEnabled() returns (on: bool)
      ensures on == enabled && (on <==> State().enabled)
    {
      on := enabled;
    }

    /** The document `keydown`: the two handlers init installed, in order. */
    method KeyDown(ev: KeyEvent)
      modifies this
      ensures State() == KeyDownSpec(old(State()), ev)
    {
      if !initialized {
        return;
      }
      // first handler
      if !(ev.target.tagName == "INPUT" || ev.target.tagName == "TEXTAREA" || ev.target.contentEditable) {
        if ev.key == "r" || ev.key == "R" {
          if !ev.ctrl && !ev.meta && !ev.alt {
            Toggle();
          }
        }
        if ev.key == "Escape" && enabled {
          Disable(true);
        }
      }
      // second handler
      if !enabled {
        return;
      }
      if ev.target.tagName == "INPUT" || ev.target.tagName == "TEXTAREA" {
        return;
      }
      if ev.key == "ArrowLeft" && page.prevHref.Some? {
        location := page.prevHref;
      }
      if ev.key == "ArrowRight" && page.nextHref.Some? {
        location := page.nextHref;
      }
    }

    /** The hint's 4-second timer. */
    method HintTimerFires()
      modifies this
      ensures State() == HintTimerSpec(old(State()))
    {
      if hintTimeout.Some? {
        HideHint();
      }
    }

    /** A 400 ms transition timer. */
    method TransitionTimerFires()
      modifies this
      ensures State() == TransitionTimerSpec(old(State()))
    {
      if transitionTimers > 0 {
        bodyClasses := bodyClasses - {TransitionClass};
        transitionTimers := transitionTimers - 1;
      }
    }
  }
}
