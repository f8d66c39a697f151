/**
 * The yaub theme's quick-search overlay (search-modal.js): the list of recent
 * searches kept in `localStorage`, the section filter over the rendered
 * results and its count message, the arrow-key navigation between the input
 * and the results, and the dialog's open/close state.
 *
 * The search engine (Pagefind) and its rendering are outside the model: the
 * results it renders arrive as values, and `JSON.stringify`/`JSON.parse` of the
 * stored list are a parameter `Codec`.
 */
module Search {
  import opened Wrappers
  import opened Text
  import opened Storage

  const RecentSearchesKey := "recentSearches"
  const MaxRecentSearches := 5
  const AllSections := "all"
  const OpenClass := "search-modal-open"

  datatype SectionInfo = SectionInfo(id: string, title: string)

  /** SECTIONS: the filter pills, in order. */
  const Sections: seq<SectionInfo> := [
    SectionInfo("all", "All"),
    SectionInfo("gitopscollection", "GitOps"),
    SectionInfo("openshift", "OpenShift"),
    SectionInfo("kubernetes", "Kubernetes"),
    SectionInfo("ansible", "Ansible"),
    SectionInfo("day-2", "Day 2")
  ]

  // ---------------------------------------------------------------------------
  // Recent searches

  /** `JSON.stringify` and `JSON.parse` for a list of strings; `decode` gives None where parsing throws. */
  datatype Codec = Codec(encode: seq<string> -> string, decode: string -> Option<seq<string>>)

  /** What JSON guarantees of the two: a list is never encoded as "" and parses back to itself. */
  ghost predicate RoundTrips(codec: Codec)
  {
    forall l :: codec.encode(l) != "" && codec.decode(codec.encode(l)) == Some(l)
  }

  /** The case-insensitive equality `s.toLowerCase() === query.toLowerCase()`. */
  predicate SameSearch(a: string, b: string)
  {
    Lower(a) == Lower(b)
  }

  /** `searches.filter(s => s.toLowerCase() !== query.toLowerCase())` */
  function WithoutQuery(searches: seq<string>, query: string): (r: seq<string>)
    ensures |r| <= |searches|
    ensures forall k :: 0 <= k < |r| ==> !SameSearch(r[k], query) && r[k] in searches
    decreases |searches|
  {
    if searches == [] then []
    else if SameSearch(searches[0], query) then WithoutQuery(searches[1..], query)
    else [searches[0]] + WithoutQuery(searches[1..], query)
  }

  /** `a` is `b` with some elements left out, the rest in their order. */
  predicate IsSubsequence(a: seq<string>, b: seq<string>)
    decreases |b|
  {
    if a == [] then true
    else if b == [] then false
    else if a[0] == b[0] then IsSubsequence(a[1..], b[1..])
    else IsSubsequence(a, b[1..])
  }

  lemma {:induction false} WithoutQuerySubsequence(searches: seq<string>, query: string)
    ensures IsSubsequence(WithoutQuery(searches, query), searches)
    decreases |searches|
  {
    if searches != [] {
      WithoutQuerySubsequence(searches[1..], query);
      if SameSearch(searches[0], query) {
        SubsequenceOfTail(WithoutQuery(searches[1..], query), searches);
      } else {
        assert ([searches[0]] + WithoutQuery(searches[1..], query))[1..] == WithoutQuery(searches[1..], query);
      }
    }
  }

  lemma {:induction false} SubsequenceOfTail(a: seq<string>, b: seq<string>)
    requires b != [] && IsSubsequence(a, b[1..])
    ensures IsSubsequence(a, b)
    decreases |b|, 0
  {
    if a != [] && a[0] == b[0] {
      SubsequenceStep(a, b[1..]);
    }
  }

  /** A subsequence of a sequence stays one after its own head is dropped. */
  lemma {:induction false} SubsequenceStep(a: seq<string>, b: seq<string>)
    requires a != [] && IsSubsequence(a, b)
    ensures IsSubsequence(a[1..], b)
    decreases |b|, 1
  {
    if a[1..] != [] {
      if a[0] == b[0] {
        SubsequenceOfTail(a[1..], b);
      } else {
        SubsequenceStep(a, b[1..]);
        SubsequenceOfTail(a[1..], b);
      }
    }
  }

  function Min(a: int, b: int): int
  {
    if a <= b then a else b
  }

  /** saveRecentSearch's list: drop the query's other spellings, put it first, keep five. */
  function SavedSearches(searches: seq<string>, query: string): (r: seq<string>)
    ensures 0 < |r| <= MaxRecentSearches && r[0] == query
    ensures |r| == Min(MaxRecentSearches, 1 + |WithoutQuery(searches, query)|)
    ensures r[1..] == WithoutQuery(searches, query)[..|r| - 1]
  {
    var moved := [query] + WithoutQuery(searches, query);
    moved[..Min(|moved|, MaxRecentSearches)]
  }

  /** No two entries of the list are the same search. */
  predicate NoCaseDuplicates(searches: seq<string>)
  {
    forall i, j :: 0 <= i < j < |searches| ==> !SameSearch(searches[i], searches[j])
  }

  /**
   * After a save the query is present once, only in first place; the older
   * entries that survive keep their relative order and come from the old list.
   */
  lemma SavedSearchesOrder(searches: seq<string>, query: string)
    ensures var r := SavedSearches(searches, query);
      (forall k :: 1 <= k < |r| ==> !SameSearch(r[k], query) && r[k] in searches) &&
      IsSubsequence(r[1..], searches)
  {
    var r := SavedSearches(searches, query);
    var w := WithoutQuery(searches, query);
    WithoutQuerySubsequence(searches, query);
    PrefixSubsequence(w, |r| - 1, searches);
    forall k | 1 <= k < |r|
      ensures !SameSearch(r[k], query) && r[k] in searches
    {
      assert r[k] == w[k - 1];
    }
  }

  lemma {:induction false} PrefixSubsequence(a: seq<string>, n: nat, b: seq<string>)
    requires n <= |a| && IsSubsequence(a, b)
    ensures IsSubsequence(a[..n], b)
    decreases |b|
  {
    if n > 0 && b != [] {
      if a[0] == b[0] {
        PrefixSubsequence(a[1..], n - 1, b[1..]);
        assert a[..n][1..] == a[1..][..n - 1];
      } else {
        PrefixSubsequence(a, n, b[1..]);
      }
    }
  }

  lemma {:induction false} WithoutQueryKeepsDistinct(searches: seq<string>, query: string)
    requires NoCaseDuplicates(searches)
    ensures NoCaseDuplicates(WithoutQuery(searches, query))
    decreases |searches|
  {
    if searches != [] {
      WithoutQueryKeepsDistinct(searches[1..], query);
      if !SameSearch(searches[0], query) {
        var rest := WithoutQuery(searches[1..], query);
        var r := [searches[0]] + rest;
        forall i, j | 0 <= i < j < |r|
          ensures !SameSearch(r[i], r[j])
        {
          if i == 0 {
            assert r[j] == rest[j - 1] && rest[j - 1] in searches[1..];
            var m :| 0 <= m < |searches[1..]| && searches[1..][m] == rest[j - 1];
            assert searches[m + 1] == r[j];
          } else {
            assert r[i] == rest[i - 1] && r[j] == rest[j - 1];
          }
        }
      }
    }
  }

  /** Saving keeps a list free of case-insensitive duplicates. */
  lemma SavedSearchesDistinct(searches: seq<string>, query: string)
    requires NoCaseDuplicates(searches)
    ensures NoCaseDuplicates(SavedSearches(searches, query))
  {
    var r := SavedSearches(searches, query);
    var w := WithoutQuery(searches, query);
    WithoutQueryKeepsDistinct(searches, query);
    forall i, j | 0 <= i < j < |r|
      ensures !SameSearch(r[i], r[j])
    {
      if i == 0 {
        assert r[j] == w[j - 1];
        assert !SameSearch(w[j - 1], query);
      } else {
        assert r[i] == w[i - 1] && r[j] == w[j - 1];
      }
    }
  }

  lemma {:induction false} WithoutQueryNoMatch(searches: seq<string>, query: string)
    requires forall k :: 0 <= k < |searches| ==> !SameSearch(searches[k], query)
    ensures WithoutQuery(searches, query) == searches
    decreases |searches|
  {
    if searches != [] {
      WithoutQueryNoMatch(searches[1..], query);
    }
  }

  /** Saving the same query twice is saving it once. */
  lemma SavedSearchesIdempotent(searches: seq<string>, query: string)
    ensures SavedSearches(SavedSearches(searches, query), query) == SavedSearches(searches, query)
  {
    var r := SavedSearches(searches, query);
    assert r == [r[0]] + r[1..];
    SavedSearchesOrder(searches, query);
    WithoutQueryNoMatch(r[1..], query);
    assert SameSearch(r[0], query);
    assert WithoutQuery(r, query) == r[1..];
  }

  /** getRecentSearches: the parsed list; empty when reading throws, nothing is stored, "" is stored or parsing throws. */
  function RecentSearches(st: Store, codec: Codec): (r: seq<string>)
    ensures !st.readable || RecentSearchesKey !in st.items || st.items[RecentSearchesKey] == "" ==> r == []
    ensures st.readable && RecentSearchesKey in st.items && st.items[RecentSearchesKey] != "" ==>
      r == (match codec.decode(st.items[RecentSearchesKey]) case Some(l) => l case None => [])
  {
    match GetItem(st, RecentSearchesKey)
    case Throws => []
    case Done(None) => []
    case Done(Some(stored)) =>
      if stored == "" then []
      else match codec.decode(stored)
        case Some(l) => l
        case None => []
  }

  /** The store after saveRecentSearch(query); a failing write is reported and swallowed. */
  function StoreAfterSave(st: Store, codec: Codec, query: string): (r: Store)
    ensures Utf16Length(query) < 2 ==> r == st
    ensures !st.writable ==> r == st
  {
    if query == "" || Utf16Length(query) < 2 then st
    else SetOrKeep(st, RecentSearchesKey, codec.encode(SavedSearches(RecentSearches(st, codec), query)))
  }

  /** With working storage and JSON, the list read after a save is the saved list. */
  lemma SaveThenRead(st: Store, codec: Codec, query: string)
    requires st.readable && st.writable && RoundTrips(codec)
    requires Utf16Length(query) >= 2
    ensures RecentSearches(StoreAfterSave(st, codec, query), codec) == SavedSearches(RecentSearches(st, codec), query)
  {
    var l := SavedSearches(RecentSearches(st, codec), query);
    assert codec.encode(l) != "" && codec.decode(codec.encode(l)) == Some(l);
  }

  /** A lone code point above U+FFFF is two UTF-16 units long, so it is saved. */
  lemma AstralCharacterIsSaved(st: Store, codec: Codec, c: char)
    requires st.readable && st.writable && RoundTrips(codec)
    requires c as int >= 0x1_0000
    ensures RecentSearches(StoreAfterSave(st, codec, [c]), codec) == SavedSearches(RecentSearches(st, codec), [c])
  {
    Utf16LengthAstral(c);
    SaveThenRead(st, codec, [c]);
  }

  // ---------------------------------------------------------------------------
  // The section filter and its message

  /** A rendered result: the `href` of its `.pagefind-ui__result-link` ("" without the attribute), None without a link. */
  datatype SearchResult = SearchResult(link: Option<string>)

  /** filterResultsBySection's test on a link. */
  predicate InSection(href: string, filter: string)
  {
    Contains(Lower(href), "/" + Lower(filter) + "/")
  }

  predicate Shown(r: SearchResult, filter: string)
  {
    r.link.Some? && InSection(r.link.value, filter)
  }

  /** The `style.display` filterResultsBySection leaves on a result. */
  function FilteredDisplay(r: SearchResult, filter: string, display: string): (d: string)
    ensures r.link.None? ==> d == display
    ensures r.link.Some? ==> (d == "" <==> InSection(r.link.value, filter)) && (d == "none" <==> !InSection(r.link.value, filter))
  {
    if r.link.None? then display
    else if InSection(r.link.value, filter) then "" else "none"
  }

  /** How many results filterResultsBySection counts as visible: those with a matching link. */
  function CountShown(results: seq<SearchResult>, filter: string): (n: nat)
    ensures n <= |results|
    decreases |results|
  {
    if results == [] then 0
    else CountShown(results[..|results| - 1], filter) + (if Shown(results[|results| - 1], filter) then 1 else 0)
  }

  lemma {:induction false} CountShownAppend(a: seq<SearchResult>, b: seq<SearchResult>, filter: string)
    ensures CountShown(a + b, filter) == CountShown(a, filter) + CountShown(b, filter)
    decreases |b|
  {
    if b == [] {
      assert a + b == a;
    } else {
      assert (a + b)[..|a + b| - 1] == a + b[..|b| - 1];
      CountShownAppend(a, b[..|b| - 1], filter);
    }
  }

  /** Every result counts exactly when every result has a link in the section. */
  lemma {:induction false} CountShownAll(results: seq<SearchResult>, filter: string)
    ensures CountShown(results, filter) == |results| <==> forall k :: 0 <= k < |results| ==> Shown(results[k], filter)
    decreases |results|
  {
    if results != [] {
      var init := results[..|results| - 1];
      CountShownAll(init, filter);
      if forall k :: 0 <= k < |results| ==> Shown(results[k], filter) {
        assert forall k :: 0 <= k < |init| ==> Shown(init[k], filter) by {
          forall k | 0 <= k < |init| ensures Shown(init[k], filter) {
            assert init[k] == results[k];
          }
        }
      } else if CountShown(results, filter) == |results| {
        assert CountShown(init, filter) == |init|;
        forall k | 0 <= k < |results| ensures Shown(results[k], filter) {
          if k < |init| {
            assert init[k] == results[k];
          }
        }
      }
    }
  }

  /** `SECTIONS.find(s => s.id === id)`: the first section with that id. */
  function FindSection(sections: seq<SectionInfo>, id: string): (r: Option<SectionInfo>)
    ensures r.Some? ==> r.value in sections && r.value.id == id
    ensures r.None? ==> forall k :: 0 <= k < |sections| ==> sections[k].id != id
    decreases |sections|
  {
    if sections == [] then None
    else if sections[0].id == id then Some(sections[0])
    else FindSection(sections[1..], id)
  }

  /** The title the message names: the section's title, or the filter id itself for an unknown section. */
  function SectionLabel(filter: string): (title: string)
    ensures (forall k :: 0 <= k < |Sections| ==> Sections[k].id != filter) ==> title == filter
    ensures forall k :: 0 <= k < |Sections| && Sections[k].id == filter ==> title == Sections[k].title
  {
    match FindSection(Sections, filter)
    case Some(info) => info.title
    case None => filter
  }

  /** updateFilteredMessage's text. */
  function FilteredMessage(count: nat, title: string): string
  {
    if count == 0 then "No results in " + title
    else DecimalString(count) + " result" + (if count != 1 then "s" else "") + " in " + title
  }

  /** The message names the section, and says "No results" exactly for a count of 0. */
  lemma FilteredMessageShape(count: nat, title: string)
    ensures var m := FilteredMessage(count, title);
      |m| >= |" in " + title| && m[|m| - |" in " + title|..] == " in " + title
    ensures StartsWith(FilteredMessage(count, title), "No results") <==> count == 0
    ensures count == 1 ==> FilteredMessage(count, title) == "1 result in " + title
  {
    var m := FilteredMessage(count, title);
    if count > 0 {
      assert IsDigit(m[0]);
      assert m[0] != 'N';
    }
  }

  /** Different counts give different messages: the message determines the count. */
  lemma MessageDeterminesCount(m: nat, n: nat, title: string)
    requires FilteredMessage(m, title) == FilteredMessage(n, title)
    ensures m == n
  {
    if m > 0 && n > 0 {
      var tailM := " result" + (if m != 1 then "s" else "") + " in " + title;
      var tailN := " result" + (if n != 1 then "s" else "") + " in " + title;
      assert FilteredMessage(m, title) == DecimalString(m) + tailM;
      assert FilteredMessage(n, title) == DecimalString(n) + tailN;
      LeadingDigitsOf(DecimalString(m), tailM);
      LeadingDigitsOf(DecimalString(n), tailN);
      DecimalStringInjective(m, n);
    } else if m > 0 || n > 0 {
      FilteredMessageShape(m, title);
      FilteredMessageShape(n, title);
    }
  }

  // ---------------------------------------------------------------------------
  // Arrow-key navigation inside the dialog

  /** How many `.pagefind-ui__result-link` elements the results hold: one per result that has a link. */
  function LinkCount(results: seq<SearchResult>): (n: nat)
    ensures n <= |results|
    ensures n == 0 <==> forall k :: 0 <= k < |results| ==> results[k].link.None?
    decreases |results|
  {
    if results == [] then 0
    else LinkCount(results[..|results| - 1]) + (if results[|results| - 1].link.Some? then 1 else 0)
  }

  /**
   * For each `.pagefind-ui__result-link`, in order, whether its result is
   * hidden by the section filter (`style.display` is 'none'). A hidden link
   * is not rendered, and `focus()` on it leaves focus where it was.
   */
  function LinkHidden(results: seq<SearchResult>, display: seq<string>): (h: seq<bool>)
    requires |display| == |results|
    ensures |h| == LinkCount(results)
    ensures (forall k :: 0 <= k < |results| ==> display[k] != "none") ==> AllVisible(h)
    decreases |results|
  {
    if results == [] then []
    else
      LinkHidden(results[..|results| - 1], display[..|display| - 1]) +
      (if results[|results| - 1].link.Some? then [display[|display| - 1] == "none"] else [])
  }

  /** No result link is hidden. */
  predicate AllVisible(hidden: seq<bool>)
  {
    forall k :: 0 <= k < |hidden| ==> !hidden[k]
  }

  /** `document.activeElement` as the dialog's key handler sees it. */
  datatype Focus = OnInput | OnResult(index: nat) | Elsewhere

  /** `Array.from(results).indexOf(focused)` */
  function FocusIndex(focus: Focus, n: nat): (i: int)
    ensures -1 <= i < n
    ensures i >= 0 <==> focus.OnResult? && focus.index < n
    ensures i >= 0 ==> i == focus.index
  {
    if focus.OnResult? && focus.index < n then focus.index else -1
  }

  /** `results[j].focus()`: focus moves to link j unless that link is hidden. */
  function FocusLink(focus: Focus, hidden: seq<bool>, j: nat): (f: Focus)
    requires j < |hidden|
    ensures f == OnResult(j) || f == focus
    ensures f != focus ==> !hidden[j]
  {
    if hidden[j] then focus else OnResult(j)
  }

  /** What a key press inside the open dialog does; `hidden` has one entry per rendered result link. */
  datatype NavEffect = NavEffect(focus: Focus, click: Option<nat>)

  function Navigate(key: string, focus: Focus, hidden: seq<bool>, hasInput: bool): (e: NavEffect)
    ensures e.click.Some? ==> e.click.value < |hidden|
    ensures e.focus.OnResult? && e.focus != focus ==> e.focus.index < |hidden| && !hidden[e.focus.index]
  {
    var n := |hidden|;
    if n == 0 then NavEffect(focus, None)
    else
      var inInput := focus.OnInput? && hasInput;
      var i := FocusIndex(focus, n);
      if key == "ArrowDown" then
        if inInput || i == -1 then NavEffect(FocusLink(focus, hidden, 0), None)
        else if i < n - 1 then NavEffect(FocusLink(focus, hidden, i + 1), None)
        else NavEffect(focus, None)
      else if key == "ArrowUp" then
        if i > 0 then NavEffect(FocusLink(focus, hidden, i - 1), None)
        else if i == 0 && hasInput then NavEffect(OnInput, None)
        else NavEffect(focus, None)
      else if key == "Enter" && !inInput && i >= 0 then NavEffect(focus, Some(i))
      else NavEffect(focus, None)
  }

  /** The navigation rules over a non-empty list of result links, as listed for the dialog. */
  lemma NavigateRules(focus: Focus, hidden: seq<bool>, hasInput: bool)
    requires |hidden| > 0
    ensures var n := |hidden|;
      (focus.OnInput? && hasInput) || FocusIndex(focus, n) == -1 ==>
        Navigate("ArrowDown", focus, hidden, hasInput).focus == (if hidden[0] then focus else OnResult(0))
    ensures forall i :: 0 <= i < |hidden| - 1 && focus == OnResult(i) ==>
      Navigate("ArrowDown", focus, hidden, hasInput).focus == (if hidden[i + 1] then focus else OnResult(i + 1))
    ensures focus == OnResult(|hidden| - 1) ==> Navigate("ArrowDown", focus, hidden, hasInput).focus == focus
    ensures forall i :: 0 < i < |hidden| && focus == OnResult(i) ==>
      Navigate("ArrowUp", focus, hidden, hasInput).focus == (if hidden[i - 1] then focus else OnResult(i - 1))
    ensures focus == OnResult(0) ==>
      Navigate("ArrowUp", focus, hidden, hasInput).focus == (if hasInput then OnInput else focus)
    ensures Navigate("Enter", focus, hidden, hasInput).click.Some? <==> focus.OnResult? && focus.index < |hidden|
    ensures forall key :: Navigate(key, focus, hidden, hasInput).click.Some? ==> key == "Enter"
  {
  }

  /** While the first link is hidden by the filter, Down from the input does nothing, whatever else is shown. */
  lemma HiddenFirstLinkBlocksDown(hidden: seq<bool>)
    requires |hidden| > 0 && hidden[0]
    ensures Navigate("ArrowDown", OnInput, hidden, true).focus == OnInput
  {
  }

  /** Down then Up returns to where focus was, from the input or from any result but the last. */
  lemma DownThenUp(focus: Focus, hidden: seq<bool>, hasInput: bool)
    requires |hidden| > 0 && AllVisible(hidden)
    requires (focus == OnInput && hasInput) || (focus.OnResult? && focus.index < |hidden| - 1)
    ensures Navigate("ArrowUp", Navigate("ArrowDown", focus, hidden, hasInput).focus, hidden, hasInput).focus == focus
  {
  }

  /** Up then Down returns to where focus was, from any result when there is an input to go to. */
  lemma UpThenDown(focus: Focus, hidden: seq<bool>, hasInput: bool)
    requires |hidden| > 0 && hasInput && AllVisible(hidden)
    requires focus.OnResult? && focus.index < |hidden|
    ensures Navigate("ArrowDown", Navigate("ArrowUp", focus, hidden, hasInput).focus, hidden, hasInput).focus == focus
  {
  }

  function PressDown(focus: Focus, hidden: seq<bool>, hasInput: bool, times: nat): Focus
    decreases times
  {
    if times == 0 then focus else PressDown(Navigate("ArrowDown", focus, hidden, hasInput).focus, hidden, hasInput, times - 1)
  }

  /** With every link shown, pressing Down k > 0 times from the input reaches result min(k, n) - 1 and stops at the last one. */
  lemma {:induction false} PressDownReaches(hidden: seq<bool>, hasInput: bool, times: nat)
    requires |hidden| > 0 && AllVisible(hidden) && hasInput && times > 0
    ensures PressDown(OnInput, hidden, hasInput, times) == OnResult(Min(times, |hidden|) - 1)
  {
    PressDownFromResult(0, hidden, hasInput, times - 1);
  }

  lemma {:induction false} PressDownFromResult(i: nat, hidden: seq<bool>, hasInput: bool, times: nat)
    requires i < |hidden| && AllVisible(hidden)
    ensures PressDown(OnResult(i), hidden, hasInput, times) == OnResult(Min(i + times, |hidden| - 1))
    decreases times
  {
    if times > 0 {
      var next := if i < |hidden| - 1 then i + 1 else i;
      assert Navigate("ArrowDown", OnResult(i), hidden, hasInput).focus == OnResult(next);
      PressDownFromResult(next, hidden, hasInput, times - 1);
    }
  }

  /** Pressing Down never leaves a result link for a hidden one, however often it is pressed. */
  lemma {:induction false} PressDownAvoidsHidden(focus: Focus, hidden: seq<bool>, hasInput: bool, times: nat)
    requires focus.OnResult? ==> focus.index < |hidden| && !hidden[focus.index]
    ensures var f := PressDown(focus, hidden, hasInput, times);
      f.OnResult? ==> f.index < |hidden| && !hidden[f.index]
    decreases times
  {
    if times > 0 {
      PressDownAvoidsHidden(Navigate("ArrowDown", focus, hidden, hasInput).focus, hidden, hasInput, times - 1);
    }
  }

  // ---------------------------------------------------------------------------
  // The dialog

  /**
   * showRecentSearches' effect on the recent-searches container, from the
   * stored `searches`: hidden with its items untouched (`items0`) when there
   * are none, otherwise shown listing exactly them.
   */
  predicate HistoryShown(searches: seq<string>, visible: bool, items: seq<string>, items0: seq<string>)
  {
    (searches == [] ==> !visible && items == items0) &&
    (searches != [] ==> visible && items == searches)
  }

  /** showAllResults on the message: a saved original text comes back. */
  function RestoredMessage(m: Option<Message>): (r: Option<Message>)
    ensures r.None? <==> m.None?
    ensures r.Some? ==> r.value.original == m.value.original
    ensures r.Some? && m.value.original != "" ==> r.value.text == m.value.original
    ensures r.Some? && m.value.original == "" ==> r.value == m.value
  {
    match m
    case None => None
    case Some(msg) => Some(if msg.original != "" then msg.(text := msg.original) else msg)
  }

  /** The results message: its text and `data-original-text` ("" while unset). */
  datatype Message = Message(text: string, original: string)

  /** Where a key press happens: in the search input, elsewhere inside the dialog, or outside it. */
  datatype KeyTarget = InInput | InDialog | OutsideDialog

  /**
   * The module state of the script and the dialog elements it writes, once
   * init and the search engine's 100 ms set-up timer have run.
   */
  class SearchModal {
    const codec: Codec
    /** Whether the search engine's UI was created (`pagefindAvailable`). */
    const pagefindAvailable: bool
    /** Whether `.pagefind-ui__results-area` exists (the result observer is installed). */
    const hasResultsArea: bool
    var isOpen: bool
    var backdropActive: bool
    var modalActive: bool
    var bodyClasses: set<string>
    var activeFilter: string
    /** Which filter pills carry `active`, one per entry of `Sections`. */
    var pillActive: seq<bool>
    /** The search input's value; None when no input was found. */
    var input: Option<string>
    var focus: Focus
    /** Whether the recent-searches container is displayed, and the terms it lists. */
    var recentVisible: bool
    var recentItems: seq<string>
    /** The debounced save waiting on its 1500 ms timer. */
    var pendingSave: Option<string>
    /** Focus timers started by openModal and not yet fired. */
    var focusTimers: nat
    var store: Store
    /** The rendered results, their `style.display`, and the results message if rendered. */
    var results: seq<SearchResult>
    var resultDisplay: seq<string>
    var message: Option<Message>
    /** The result links clicked through the keyboard, in order. */
    var clicked: seq<nat>

    /** The dialog and backdrop are active exactly while open, and exactly the pill of the active filter is active. */
    predicate Valid()
      reads this
    {
      backdropActive == isOpen && modalActive == isOpen &&
      |pillActive| == |Sections| &&
      (forall k :: 0 <= k < |Sections| ==> (pillActive[k] <==> Sections[k].id == activeFilter)) &&
      |resultDisplay| == |results|
    }

    constructor (c: Codec, pagefind: bool, hasInput: bool, resultsArea: bool, st: Store, classes: set<string>)
      ensures Valid() && !isOpen && activeFilter == AllSections
      ensures codec == c && pagefindAvailable == pagefind && hasResultsArea == resultsArea && store == st
      ensures input == (if hasInput then Some("") else None) && results == [] && message.None?
    {
      codec := c;
      pagefindAvailable := pagefind;
      hasResultsArea := resultsArea;
      isOpen := false;
      backdropActive := false;
      modalActive := false;
      bodyClasses := classes;
      activeFilter := AllSections;
      pillActive := [true, false, false, false, false, false];
      input := if hasInput then Some("") else None;
      focus := Elsewhere;
      recentVisible := false;
      recentItems := [];
      pendingSave := None;
      focusTimers := 0;
      store := st;
      results := [];
      resultDisplay := [];
      message := None;
      clicked := [];
    }

    // --- recent searches ----------------------------------------------------

    /** saveRecentSearch */
    method SaveRecentSearch(query: string)
      modifies this`store
      ensures store == StoreAfterSave(old(store), codec, query)
    {
      if query == "" || Utf16Length(query) < 2 {
        return;
      }
      var searches := RecentSearches(store, codec);
      searches := WithoutQuery(searches, query);
      searches := [query] + searches;
      searches := searches[..Min(|searches|, MaxRecentSearches)];
      match SetItem(store, RecentSearchesKey, codec.encode(searches))
      case Throws =>
      case Done(next) => store := next;
    }

    /** hideRecentSearches */
    method HideRecentSearches()
      modifies this`recentVisible
      ensures !recentVisible
    {
      recentVisible := false;
    }

    /** showRecentSearches: lists the stored searches, or hides the container when there are none. */
    method ShowRecentSearches()
      modifies this`recentVisible, this`recentItems
      ensures var searches := RecentSearches(store, codec);
        (searches == [] ==> !recentVisible && recentItems == old(recentItems)) &&
        (searches != [] ==> recentVisible && recentItems == searches)
    {
      var searches := RecentSearches(store, codec);
      if |searches| == 0 {
        HideRecentSearches();
        return;
      }
      recentItems := searches;
      recentVisible := true;
    }

    /** clearRecentSearches: a failing removal is swallowed, and the list then stays displayed. */
    method ClearRecentSearches()
      modifies this`store, this`recentVisible
      ensures store == RemoveOrKeep(old(store), RecentSearchesKey)
      ensures recentVisible == (old(recentVisible) && !old(store).writable)
      ensures old(store).writable && store.readable ==> RecentSearches(store, codec) == []
    {
      match RemoveItem(store, RecentSearchesKey)
      case Throws =>
      case Done(next) =>
        store := next;
        HideRecentSearches();
    }

    // --- the search input ---------------------------------------------------

    /** The input's `input` listener for the current value: show or hide the recent list, restart the debounced save. */
    method InputEvent()
      requires input.Some?
      modifies this`recentVisible, this`recentItems, this`pendingSave
      ensures var query := Trim(input.value);
        (query == [] ==> (var searches := RecentSearches(store, codec);
                           (searches == [] ==> !recentVisible) && (searches != [] ==> recentVisible && recentItems == searches))) &&
        (query != [] ==> !recentVisible && recentItems == old(recentItems)) &&
        pendingSave == (if Utf16Length(query) >= 3 then Some(query) else None)
      ensures Trim(input.value) == [] ==> HistoryShown(RecentSearches(store, codec), recentVisible, recentItems, old(recentItems))
    {
      var query := Trim(input.value);
      if |query| == 0 {
        ShowRecentSearches();
      } else {
        HideRecentSearches();
      }
      pendingSave := None;
      if Utf16Length(query) >= 3 {
        pendingSave := Some(query);
      }
    }

    /** The user edits the input to `value`. */
    method Type(value: string)
      requires input.Some?
      modifies this`input, this`recentVisible, this`recentItems, this`pendingSave
      ensures input == Some(value)
      ensures pendingSave == (if Utf16Length(Trim(value)) >= 3 then Some(Trim(value)) else None)
      ensures Trim(value) != [] ==> !recentVisible && recentItems == old(recentItems)
      ensures Trim(value) == [] ==> HistoryShown(RecentSearches(store, codec), recentVisible, recentItems, old(recentItems))
    {
      input := Some(value);
      InputEvent();
    }

    /** The debounce timer firing: the query typed 1500 ms ago is saved. */
    method SaveTimerFires()
      requires pendingSave.Some?
      modifies this`store, this`pendingSave
      ensures store == StoreAfterSave(old(store), codec, old(pendingSave).value) && pendingSave.None?
    {
      SaveRecentSearch(pendingSave.value);
      pendingSave := None;
    }

    /** A click on a listed recent search: it becomes the input's value as if typed, focus goes to the input, the list hides. */
    method RecentItemClicked(k: nat)
      requires k < |recentItems|
      modifies this`input, this`recentVisible, this`recentItems, this`pendingSave, this`focus
      ensures var term := old(recentItems)[k];
        (old(input).Some? && term != "" ==>
          input == Some(term) && focus == OnInput && !recentVisible &&
          pendingSave == (if Utf16Length(Trim(term)) >= 3 then Some(Trim(term)) else None) &&
          recentItems == (if Trim(term) == [] && RecentSearches(store, codec) != [] then RecentSearches(store, codec)
                          else old(recentItems))) &&
        (old(input).None? || term == "" ==> unchanged(this))
    {
      var term := recentItems[k];
      if input.Some? && term != "" {
        input := Some(term);
        InputEvent();
        focus := OnInput;
        HideRecentSearches();
      }
    }

    // --- filtering ----------------------------------------------------------

    /** filterResultsBySection: hides the results whose link is outside the section, and counts the rest. */
    method FilterResultsBySection() returns (visibleCount: nat)
      requires Valid()
      modifies this`resultDisplay, this`message
      ensures Valid()
      ensures forall k :: 0 <= k < |results| ==> resultDisplay[k] == FilteredDisplay(results[k], activeFilter, old(resultDisplay)[k])
      ensures visibleCount == CountShown(results, activeFilter)
      ensures message == (match old(message)
                          case None => None
                          case Some(m) => Some(FilterMessage(m, visibleCount, activeFilter)))
    {
      visibleCount := 0;
      var k := 0;
      while k < |results|
        invariant 0 <= k <= |results| && |resultDisplay| == |results|
        invariant forall j :: 0 <= j < k ==> resultDisplay[j] == FilteredDisplay(results[j], activeFilter, old(resultDisplay)[j])
        invariant forall j :: k <= j < |results| ==> resultDisplay[j] == old(resultDisplay)[j]
        invariant visibleCount == CountShown(results[..k], activeFilter)
        invariant message == old(message)
      {
        var result := results[k];
        assert results[..k + 1][..k] == results[..k];
        if result.link.Some? {
          var href := result.link.value;
          var matchesFilter := Contains(Lower(href), "/" + Lower(activeFilter) + "/");
          if matchesFilter {
            resultDisplay := resultDisplay[k := ""];
            visibleCount := visibleCount + 1;
          } else {
            resultDisplay := resultDisplay[k := "none"];
          }
        }
        k := k + 1;
      }
      assert results[..k] == results;
      UpdateFilteredMessage(visibleCount);
    }

    /** updateFilteredMessage */
    method UpdateFilteredMessage(visibleCount: nat)
      modifies this`message
      ensures message == (match old(message)
                          case None => None
                          case Some(m) => Some(FilterMessage(m, visibleCount, activeFilter)))
    {
      if message.Some? {
        var m := message.value;
        if m.original == "" {
          m := m.(original := m.text);
        }
        m := m.(text := FilteredMessage(visibleCount, SectionLabel(activeFilter)));
        message := Some(m);
      }
    }

    /** showAllResults: every result displayed again, the original message text restored when one was saved. */
    method ShowAllResults()
      requires Valid()
      modifies this`resultDisplay, this`message
      ensures Valid()
      ensures forall k :: 0 <= k < |results| ==> resultDisplay[k] == ""
      ensures message == (match old(message)
                          case None => None
                          case Some(m) => Some(if m.original != "" then m.(text := m.original) else m))
      ensures message == RestoredMessage(old(message))
    {
      resultDisplay := seq(|results|, k => "");
      if message.Some? && message.value.original != "" {
        message := Some(message.value.(text := message.value.original));
      }
    }

    /**
     * applyFilter's whole effect under the current `activeFilter`: nothing
     * without the search engine, an input, a non-empty query or the results
     * area; otherwise a section filters the results and the message, and
     * "all" shows every result and restores the saved message.
     */
    twostate predicate FilterApplied()
      reads this
    {
      |old(resultDisplay)| == |results| && |resultDisplay| == |results| &&
      if pagefindAvailable && input.Some? && Trim(input.value) != [] && hasResultsArea then
        if activeFilter != AllSections then
          (forall k :: 0 <= k < |results| ==> resultDisplay[k] == FilteredDisplay(results[k], activeFilter, old(resultDisplay)[k])) &&
          message == (match old(message)
                      case None => None
                      case Some(m) => Some(FilterMessage(m, CountShown(results, activeFilter), activeFilter)))
        else
          (forall k :: 0 <= k < |results| ==> resultDisplay[k] == "") &&
          message == RestoredMessage(old(message))
      else
        resultDisplay == old(resultDisplay) && message == old(message)
    }

    /** applyFilter */
    method ApplyFilter()
      requires Valid()
      modifies this`resultDisplay, this`message
      ensures Valid()
      ensures !pagefindAvailable || input.None? || Trim(input.value) == [] || !hasResultsArea ==>
        unchanged(this`resultDisplay, this`message)
      ensures pagefindAvailable && input.Some? && Trim(input.value) != [] && hasResultsArea ==>
        (activeFilter != AllSections ==>
          (forall k :: 0 <= k < |results| ==> resultDisplay[k] == FilteredDisplay(results[k], activeFilter, old(resultDisplay)[k])) &&
          message == (match old(message)
                      case None => None
                      case Some(m) => Some(FilterMessage(m, CountShown(results, activeFilter), activeFilter)))) &&
        (activeFilter == AllSections ==>
          (forall k :: 0 <= k < |results| ==> resultDisplay[k] == "") &&
          message == RestoredMessage(old(message)))
      ensures FilterApplied()
    {
      if !pagefindAvailable || input.None? {
        return;
      }
      var query := Trim(input.value);
      if |query| == 0 {
        return;
      }
      if !hasResultsArea {
        return;
      }
      if activeFilter != AllSections {
        var _ := FilterResultsBySection();
      } else {
        ShowAllResults();
      }
    }

    /** setActiveFilter: exactly the pills of that section become active, and a non-empty query is filtered again. */
    method SetActiveFilter(section: string)
      requires Valid()
      modifies this`activeFilter, this`pillActive, this`resultDisplay, this`message
      ensures Valid() && activeFilter == section
      ensures forall k :: 0 <= k < |Sections| ==> (pillActive[k] <==> Sections[k].id == section)
      ensures FilterApplied()
    {
      activeFilter := section;
      var k := 0;
      while k < |Sections|
        invariant 0 <= k <= |Sections| && |pillActive| == |Sections|
        invariant forall j :: 0 <= j < k ==> (pillActive[j] <==> Sections[j].id == section)
        invariant activeFilter == section && |resultDisplay| == |results|
        invariant resultDisplay == old(resultDisplay) && message == old(message)
      {
        if Sections[k].id == section {
          pillActive := pillActive[k := true];
        } else {
          pillActive := pillActive[k := false];
        }
        k := k + 1;
      }
      if input.Some? && |Trim(input.value)| > 0 {
        ApplyFilter();
      }
    }

    /** A click on a filter pill; the listeners exist only with the search engine. */
    method PillClicked(k: nat)
      requires Valid() && k < |Sections|
      modifies this`activeFilter, this`pillActive, this`resultDisplay, this`message
      ensures Valid()
      ensures pagefindAvailable ==> activeFilter == Sections[k].id && FilterApplied()
      ensures !pagefindAvailable ==> unchanged(this)
    {
      if pagefindAvailable {
        SetActiveFilter(Sections[k].id);
      }
    }

    /**
     * The search engine renders new results and message text; the observer
     * on the results area then filters them when a section is selected.
     */
    method ResultsRendered(rendered: seq<SearchResult>, text: Option<string>)
      requires Valid()
      modifies this`results, this`resultDisplay, this`message, this`focus
      ensures Valid() && results == rendered
      ensures pagefindAvailable && hasResultsArea && activeFilter != AllSections ==>
        forall k :: 0 <= k < |results| ==> resultDisplay[k] == FilteredDisplay(results[k], activeFilter, "")
      ensures !(pagefindAvailable && hasResultsArea && activeFilter != AllSections) ==>
        forall k :: 0 <= k < |results| ==> resultDisplay[k] == ""
      ensures var shown := match text
        case None => None
        case Some(t) => Some(Message(t, if old(message).Some? then old(message).value.original else ""));
        (pagefindAvailable && hasResultsArea && activeFilter != AllSections ==>
          message == (match shown
                      case None => None
                      case Some(m) => Some(FilterMessage(m, CountShown(rendered, activeFilter), activeFilter)))) &&
        (!(pagefindAvailable && hasResultsArea && activeFilter != AllSections) ==> message == shown)
      ensures focus == (if old(focus).OnResult? then Elsewhere else old(focus))
    {
      results := rendered;
      resultDisplay := seq(|rendered|, k => "");
      message := match text
        case None => None
        case Some(t) => Some(Message(t, if message.Some? then message.value.original else ""));
      if focus.OnResult? {
        focus := Elsewhere;
      }
      if pagefindAvailable && hasResultsArea && activeFilter != AllSections {
        var _ := FilterResultsBySection();
      }
    }

    // --- opening and closing ------------------------------------------------

    /** openModal's whole effect on a closed dialog. */
    twostate predicate OpenEffect()
      reads this
    {
      isOpen && backdropActive && modalActive &&
      bodyClasses == old(bodyClasses) + {OpenClass} && focusTimers == old(focusTimers) + 1 &&
      HistoryShown(RecentSearches(store, codec), recentVisible, recentItems, old(recentItems)) &&
      input == old(input) && pendingSave == old(pendingSave)
    }

    /**
     * closeModal's whole effect on an open dialog. Emptying the input with the
     * search engine fires the input listener: the pending save is dropped and
     * the recent searches are shown again.
     */
    twostate predicate CloseEffect()
      reads this
    {
      !isOpen && !backdropActive && !modalActive &&
      bodyClasses == old(bodyClasses) - {OpenClass} && focusTimers == old(focusTimers) &&
      input == (if old(input).Some? then Some("") else None) &&
      (old(input).Some? && pagefindAvailable ==>
        pendingSave.None? && HistoryShown(RecentSearches(store, codec), recentVisible, recentItems, old(recentItems))) &&
      (old(input).None? || !pagefindAvailable ==>
        pendingSave == old(pendingSave) && recentVisible == old(recentVisible) && recentItems == old(recentItems))
    }

    /** openModal: a no-op when open; otherwise activates the dialog, shows the recent searches and schedules focusing the input. */
    method Open()
      requires Valid()
      modifies this`isOpen, this`backdropActive, this`modalActive, this`bodyClasses, this`recentVisible, this`recentItems, this`focusTimers
      ensures Valid() && isOpen
      ensures old(isOpen) ==> unchanged(this)
      ensures !old(isOpen) ==> (bodyClasses == old(bodyClasses) + {OpenClass} && focusTimers == old(focusTimers) + 1 &&
        (RecentSearches(store, codec) != [] ==> recentVisible && recentItems == RecentSearches(store, codec)))
      ensures !old(isOpen) ==> OpenEffect()
    {
      if isOpen {
        return;
      }
      isOpen := true;
      backdropActive := true;
      modalActive := true;
      bodyClasses := bodyClasses + {OpenClass};
      ShowRecentSearches();
      focusTimers := focusTimers + 1;
    }

    /** The focus timer of openModal firing. */
    method FocusTimerFires()
      requires focusTimers > 0
      modifies this`focus, this`focusTimers
      ensures focusTimers == old(focusTimers) - 1
      ensures focus == (if input.Some? then OnInput else old(focus))
    {
      if input.Some? {
        focus := OnInput;
      }
      focusTimers := focusTimers - 1;
    }

    /**
     * closeModal: a no-op when closed; otherwise deactivates the dialog and
     * empties the input, which with the search engine fires the input
     * listener (dropping a pending save).
     */
    method Close()
      requires Valid()
      modifies this`isOpen, this`backdropActive, this`modalActive, this`bodyClasses, this`input, this`recentVisible, this`recentItems, this`pendingSave
      ensures Valid() && !isOpen
      ensures !old(isOpen) ==> unchanged(this)
      ensures old(isOpen) ==>
        bodyClasses == old(bodyClasses) - {OpenClass} &&
        input == (if old(input).Some? then Some("") else None) &&
        (old(input).Some? && pagefindAvailable ==> pendingSave.None?) &&
        (old(input).None? || !pagefindAvailable ==> pendingSave == old(pendingSave))
      ensures old(isOpen) ==> CloseEffect()
    {
      if !isOpen {
        return;
      }
      isOpen := false;
      backdropActive := false;
      modalActive := false;
      bodyClasses := bodyClasses - {OpenClass};
      if input.Some? {
        input := Some("");
        if pagefindAvailable {
          InputEvent();
        }
      }
    }

    /** toggleModal */
    method Toggle()
      requires Valid()
      modifies this`isOpen, this`backdropActive, this`modalActive, this`bodyClasses, this`input, this`recentVisible, this`recentItems, this`pendingSave, this`focusTimers
      ensures Valid() && isOpen == !old(isOpen)
      ensures old(isOpen) ==> CloseEffect()
      ensures !old(isOpen) ==> OpenEffect()
    {
      if isOpen {
        Close();
      } else {
        Open();
      }
    }

    /** `SearchModal.isOpen` */
    method IsOpen() returns (open: bool)
      ensures open == isOpen
    {
      open := isOpen;
    }

    // --- keyboard -----------------------------------------------------------

    /** The dialog's own key handler: arrow navigation and Enter on a focused result. */
    method DialogKeyDown(key: string)
      requires Valid()
      modifies this`focus, this`clicked
      ensures !isOpen || LinkCount(results) == 0 ==> unchanged(this)
      ensures isOpen && LinkCount(results) > 0 ==>
        var e := Navigate(key, old(focus), LinkHidden(results, resultDisplay), input.Some?);
        focus == e.focus && clicked == old(clicked) + (if e.click.Some? then [e.click.value] else [])
    {
      if !isOpen {
        return;
      }
      var n := LinkCount(results);
      if n == 0 {
        return;
      }
      var e := Navigate(key, focus, LinkHidden(results, resultDisplay), input.Some?);
      focus := e.focus;
      if e.click.Some? {
        clicked := clicked + [e.click.value];
      }
    }

    /** The document handler: Ctrl/Cmd+K toggles the dialog, Escape closes it. */
    method DocumentKeyDown(key: string, ctrlOrMeta: bool)
      requires Valid()
      modifies this`isOpen, this`backdropActive, this`modalActive, this`bodyClasses, this`input, this`recentVisible, this`recentItems, this`pendingSave, this`focusTimers
      ensures Valid()
      ensures ctrlOrMeta && key == "k" ==> isOpen == !old(isOpen)
      ensures key == "Escape" ==> !isOpen
      ensures ctrlOrMeta && key == "k" ==> (old(isOpen) ==> CloseEffect()) && (!old(isOpen) ==> OpenEffect())
      ensures key == "Escape" ==> (old(isOpen) ==> CloseEffect()) && (!old(isOpen) ==> unchanged(this))
      ensures !(ctrlOrMeta && key == "k") && key != "Escape" ==> unchanged(this)
    {
      if ctrlOrMeta && key == "k" {
        Toggle();
      }
      if key == "Escape" && isOpen {
        Close();
      }
    }

    /** Enter in the search input saves a query of two or more characters. */
    method InputKeyDown(key: string)
      requires input.Some?
      modifies this`store
      ensures key == "Enter" ==> store == StoreAfterSave(old(store), codec, Trim(input.value))
      ensures key != "Enter" || Utf16Length(Trim(input.value)) < 2 ==> store == old(store)
    {
      if key == "Enter" {
        var query := Trim(input.value);
        if Utf16Length(query) >= 2 {
          SaveRecentSearch(query);
        }
      }
    }

    /** A key press, delivered to the listeners on its way from the target up to the document. */
    method KeyDown(key: string, ctrlOrMeta: bool, target: KeyTarget)
      requires Valid()
      requires target == InInput ==> input.Some?
      requires target == InInput <==> focus == OnInput
      modifies this
      ensures Valid()
    {
      if target == InInput {
        InputKeyDown(key);
      }
      if target != OutsideDialog {
        DialogKeyDown(key);
      }
      DocumentKeyDown(key, ctrlOrMeta);
    }
  }

  /** updateFilteredMessage on one message: remember the first text, then show the filtered count. */
  function FilterMessage(m: Message, visibleCount: nat, filter: string): (r: Message)
    ensures r.original == (if m.original == "" then m.text else m.original)
    ensures r.text == FilteredMessage(visibleCount, SectionLabel(filter))
  {
    Message(FilteredMessage(visibleCount, SectionLabel(filter)), if m.original == "" then m.text else m.original)
  }

  /**
   * `data-original-text` is written once and never cleared: after a search
   * with text `t1`, a filter, a second search with text `t2` (which keeps the
   * element's dataset) and the filter again, choosing "all" shows `t1`.
   */
  lemma StaleOriginalRestored(t1: string, t2: string, n1: nat, n2: nat, f: string)
    requires t1 != ""
    ensures var m1 := FilterMessage(Message(t1, ""), n1, f);
      var m2 := FilterMessage(Message(t2, m1.original), n2, f);
      RestoredMessage(Some(m2)) == Some(Message(t1, t1))
  {
  }
}
