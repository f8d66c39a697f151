/**
 * The stderr-ocp theme's page script: opening marked links in a new tab, the
 * back-to-top button's threshold, and the alphabetical sort of the tag list.
 */
module Scripts {
  import opened Wrappers
  import opened Text

  // ---------------------------------------------------------------------------
  // externalLinks

  /** An `<a>` element: its `href`, `rel` and `target` attributes. */
  datatype Anchor = Anchor(href: Option<string>, rel: Option<string>, target: Option<string>)

  /** externalLinks' test: a non-empty `href` and a `rel` of exactly "noopener". */
  predicate OpensInNewTab(a: Anchor)
  {
    a.href.Some? && a.href.value != "" && a.rel == Some("noopener")
  }

  /** An anchor as externalLinks leaves it. */
  function Decorated(a: Anchor): (r: Anchor)
    ensures r.href == a.href && r.rel == a.rel
    ensures r.target == (if OpensInNewTab(a) then Some("_blank") else a.target)
  {
    if OpensInNewTab(a) then a.(target := Some("_blank")) else a
  }

  /** Running externalLinks a second time changes nothing. */
  lemma DecoratedIdempotent(a: Anchor)
    ensures Decorated(Decorated(a)) == Decorated(a)
  {
  }

  /** externalLinks: sets `target="_blank"` on the marked anchors, leaves the rest alone. */
  method ExternalLinks(anchors: array<Anchor>)
    modifies anchors
    ensures forall i :: 0 <= i < anchors.Length ==> anchors[i] == Decorated(old(anchors[i]))
  {
    for i := 0 to anchors.Length
      invariant forall k :: 0 <= k < i ==> anchors[k] == Decorated(old(anchors[k]))
      invariant forall k :: i <= k < anchors.Length ==> anchors[k] == old(anchors[k])
    {
      var anchor := anchors[i];
      if anchor.href.Some? && anchor.href.value != "" && anchor.rel == Some("noopener") {
        anchors[i] := anchor.(target := Some("_blank"));
      }
    }
  }

  // ---------------------------------------------------------------------------
  // scroll2top

  /** Scroll offsets are CSS pixels as doubles; fractions occur under zoom or display scaling. */
  const ScrollThreshold: real := 20.0

  /** scrollFunction: the back-to-top button's `style.display` for the two scroll offsets. */
  function BackToTopDisplay(bodyScrollTop: real, rootScrollTop: real): (display: string)
    ensures display == "block" || display == "none"
    ensures display == "block" <==> bodyScrollTop > ScrollThreshold || rootScrollTop > ScrollThreshold
  {
    if bodyScrollTop > ScrollThreshold || rootScrollTop > ScrollThreshold then "block" else "none"
  }

  /** Scrolling further down never hides the button. */
  lemma BackToTopMonotonic(body: real, root: real, body': real, root': real)
    requires body <= body' && root <= root'
    requires BackToTopDisplay(body, root) == "block"
    ensures BackToTopDisplay(body', root') == "block"
  {
  }

  /** A fractional offset just past 20 pixels already shows the button; exactly 20 does not. */
  lemma BackToTopFractional()
    ensures BackToTopDisplay(20.5, 0.0) == "block"
    ensures BackToTopDisplay(20.0, 20.0) == "none"
  {
  }

  // ---------------------------------------------------------------------------
  // sortList

  /** The sort key of a list item: its `innerHTML` lower-cased. */
  function Key(item: string): string
  {
    Lower(item)
  }

  /** `b[i].innerHTML.toLowerCase() > b[i + 1].innerHTML.toLowerCase()` */
  predicate OutOfOrder(s: seq<string>, i: int)
    requires 0 <= i < |s| - 1
  {
    Less(Key(s[i + 1]), Key(s[i]))
  }

  /** No adjacent pair is out of order: the state in which sortList stops. */
  predicate AdjacentInOrder(s: seq<string>)
  {
    forall i :: 0 <= i < |s| - 1 ==> !OutOfOrder(s, i)
  }

  /** Every item's key is at most every later item's key. */
  predicate Sorted(s: seq<string>)
  {
    forall i, j :: 0 <= i < j < |s| ==> AtMost(Key(s[i]), Key(s[j]))
  }

  lemma {:induction false} AdjacentInOrderSorted(s: seq<string>)
    requires AdjacentInOrder(s)
    ensures Sorted(s)
    decreases |s|
  {
    if |s| > 1 {
      assert AdjacentInOrder(s[1..]) by {
        forall i | 0 <= i < |s[1..]| - 1 ensures !OutOfOrder(s[1..], i) {
          assert !OutOfOrder(s, i + 1);
        }
      }
      AdjacentInOrderSorted(s[1..]);
      forall j | 0 < j < |s| ensures AtMost(Key(s[0]), Key(s[j])) {
        assert !OutOfOrder(s, 0);
        if j > 1 {
          assert AtMost(Key(s[1..][0]), Key(s[1..][j - 1]));
          AtMostTransitive(Key(s[0]), Key(s[1]), Key(s[j]));
        }
      }
      forall i, j | 0 < i < j < |s| ensures AtMost(Key(s[i]), Key(s[j])) {
        assert AtMost(Key(s[1..][i - 1]), Key(s[1..][j - 1]));
      }
    }
  }

  /** `list.insertBefore(b[k + 1], b[k])`: the items at k and k + 1 trade places. */
  function SwapAdjacent(s: seq<string>, k: nat): (r: seq<string>)
    requires k + 1 < |s|
    ensures |r| == |s| && r[k] == s[k + 1] && r[k + 1] == s[k]
    ensures forall i :: 0 <= i < |s| && i != k && i != k + 1 ==> r[i] == s[i]
  {
    s[k := s[k + 1]][k + 1 := s[k]]
  }

  /** How many items of `s` have a key below that of `x`. */
  function CountBelow(x: string, s: seq<string>): nat
    decreases |s|
  {
    if s == [] then 0
    else (if Less(Key(s[0]), Key(x)) then 1 else 0) + CountBelow(x, s[1..])
  }

  /** The inversion count: pairs i < j whose items are out of order. */
  function Inversions(s: seq<string>): nat
    decreases |s|
  {
    if s == [] then 0 else CountBelow(s[0], s[1..]) + Inversions(s[1..])
  }

  lemma {:induction false} CountBelowSwap(x: string, s: seq<string>, k: nat)
    requires k + 1 < |s|
    ensures CountBelow(x, SwapAdjacent(s, k)) == CountBelow(x, s)
    decreases k
  {
    var r := SwapAdjacent(s, k);
    if k == 0 {
      assert r[1..][1..] == s[1..][1..];
    } else {
      assert r[1..] == SwapAdjacent(s[1..], k - 1);
      CountBelowSwap(x, s[1..], k - 1);
    }
  }

  /** Swapping an adjacent out-of-order pair removes exactly one inversion. */
  lemma {:induction false} InversionsSwap(s: seq<string>, k: nat)
    requires k + 1 < |s| && OutOfOrder(s, k)
    ensures Inversions(SwapAdjacent(s, k)) == Inversions(s) - 1
    decreases k
  {
    var r := SwapAdjacent(s, k);
    if k == 0 {
      LessAsymmetric(Key(s[1]), Key(s[0]));
      assert r[1..][1..] == s[1..][1..];
      assert r[1..][0] == s[0] && s[1..][0] == s[1];
    } else {
      assert r[0] == s[0];
      assert r[1..] == SwapAdjacent(s[1..], k - 1);
      CountBelowSwap(s[0], s[1..], k - 1);
      InversionsSwap(s[1..], k - 1);
    }
  }

  /**
   * `origin` says where each item of `s` came from in `was`: a one-to-one map
   * of positions, so `s` holds the same items as `was`.
   */
  ghost predicate Tracks(s: seq<string>, was: seq<string>, origin: seq<nat>)
  {
    && |origin| == |s| == |was|
    && (forall i :: 0 <= i < |s| ==> origin[i] < |was| && s[i] == was[origin[i]])
    && (forall i, j :: 0 <= i < j < |s| ==> origin[i] != origin[j])
  }

  /** Items with equal keys are still in their original relative order. */
  ghost predicate EqualKeysInOrder(s: seq<string>, origin: seq<nat>)
    requires |origin| == |s|
  {
    forall i, j :: 0 <= i < j < |s| && Key(s[i]) == Key(s[j]) ==> origin[i] < origin[j]
  }

  /** The identity map tracks every sequence against itself. */
  lemma IdentityTracks(s: seq<string>)
    ensures Tracks(s, s, seq(|s|, i => i)) && EqualKeysInOrder(s, seq(|s|, i => i))
  {
  }

  lemma SwapAdjacentPermutes(s: seq<string>, k: nat)
    requires k + 1 < |s|
    ensures multiset(SwapAdjacent(s, k)) == multiset(s)
  {
    var r := SwapAdjacent(s, k);
    assert s == s[..k] + [s[k], s[k + 1]] + s[k + 2..];
    assert r == s[..k] + [s[k + 1], s[k]] + s[k + 2..];
  }

  function SwapOrigin(origin: seq<nat>, k: nat): (r: seq<nat>)
    requires k + 1 < |origin|
  {
    origin[k := origin[k + 1]][k + 1 := origin[k]]
  }

  /** Swapping an out-of-order pair keeps the tracking, and keeps equal keys in order (they are never swapped). */
  lemma SwapTracks(s: seq<string>, was: seq<string>, origin: seq<nat>, k: nat)
    requires Tracks(s, was, origin) && EqualKeysInOrder(s, origin)
    requires k + 1 < |s| && OutOfOrder(s, k)
    ensures Tracks(SwapAdjacent(s, k), was, SwapOrigin(origin, k))
    ensures EqualKeysInOrder(SwapAdjacent(s, k), SwapOrigin(origin, k))
  {
    var r, o := SwapAdjacent(s, k), SwapOrigin(origin, k);
    LessIrreflexive(Key(s[k]));
    assert Key(s[k]) != Key(s[k + 1]);
    forall i, j | 0 <= i < j < |r| && Key(r[i]) == Key(r[j]) ensures o[i] < o[j] {
      var i' := if i == k then k + 1 else if i == k + 1 then k else i;
      var j' := if j == k then k + 1 else if j == k + 1 then k else j;
      assert r[i] == s[i'] && o[i] == origin[i'];
      assert r[j] == s[j'] && o[j] == origin[j'];
    }
  }

  /**
   * The inner `for` loop of sortList: the first index whose item is greater
   * than the next one, when there is such an index.
   */
  method FindOutOfOrder(list: array<string>) returns (shouldSwitch: bool, i: nat)
    ensures shouldSwitch ==> i + 1 < list.Length && OutOfOrder(list[..], i)
    ensures shouldSwitch ==> forall j :: 0 <= j < i ==> !OutOfOrder(list[..], j)
    ensures !shouldSwitch ==> AdjacentInOrder(list[..])
  {
    shouldSwitch, i := false, 0;
    while i + 1 < list.Length
      invariant forall j :: 0 <= j < i && j + 1 < list.Length ==> !OutOfOrder(list[..], j)
    {
      if Less(Key(list[i + 1]), Key(list[i])) {
        shouldSwitch := true;
        return;
      }
      i := i + 1;
    }
  }

  /**
   * sortList: while some adjacent pair is out of order, swap the first such
   * pair. Nothing happens without a list. Afterwards the items are sorted by
   * key, are the original items, and items with equal keys keep their order.
   */
  method SortList(list: array?<string>) returns (ghost origin: seq<nat>)
    modifies list
    ensures list != null ==> Sorted(list[..])
    ensures list != null ==> multiset(list[..]) == multiset(old(list[..]))
    ensures list != null ==> Tracks(list[..], old(list[..]), origin) && EqualKeysInOrder(list[..], origin)
  {
    if list == null {
      return [];
    }
    ghost var was := list[..];
    origin := seq(list.Length, i => i);
    IdentityTracks(was);
    var switching := true;
    while switching
      invariant multiset(list[..]) == multiset(was)
      invariant Tracks(list[..], was, origin) && EqualKeysInOrder(list[..], origin)
      invariant !switching ==> AdjacentInOrder(list[..])
      decreases Inversions(list[..]) + (if switching then 1 else 0)
    {
      switching := false;
      var shouldSwitch, i := FindOutOfOrder(list);
      if shouldSwitch {
        ghost var before := list[..];
        InversionsSwap(before, i);
        SwapTracks(before, was, origin, i);
        SwapAdjacentPermutes(before, i);
        origin := SwapOrigin(origin, i);
        list[i], list[i + 1] := list[i + 1], list[i];
        assert list[..] == SwapAdjacent(before, i);
        switching := true;
      }
    }
    AdjacentInOrderSorted(list[..]);
  }
}
