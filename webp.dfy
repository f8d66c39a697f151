/**
 * The WebP upgrade of content images (yaub theme, webp-upgrade.js): every
 * PNG or JPEG `<img>` in the article area that is not yet upgraded and not
 * already inside a `<picture>` is replaced by a `<picture>` holding a WebP
 * `<source>`, a fallback `<source>` in the original format, and a clone of
 * the image.
 */
module Webp {
  import opened Wrappers
  import opened Text

  const UpgradedMarker := "data-webp-upgraded"
  const NoAnimateClass := "no-animate"
  const WebpType := "image/webp"
  const PngType := "image/png"
  const JpegType := "image/jpeg"

  /**
   * An `<img>` element: its `src` attribute (None when absent), its class
   * string, whether it carries the upgrade marker, its `loading` value ("" when
   * unset) and the tag name of its parent element.
   */
  datatype Img = Img(src: Option<string>, className: string, upgraded: bool, loading: string, parentTag: string)

  /** A `<source>` element of a `<picture>`. */
  datatype Source = Source(srcset: string, mime: string)

  /** One content slot of the page: a bare image, or a picture built around one. */
  datatype Node =
    | Image(img: Img)
    | Picture(className: string, webp: Source, fallback: Source, img: Img)

  /*
   * The two URL tests and the rewrite: `.png` respectively `.jpg`/`.jpeg`,
   * in any letter case, followed by `?` or by the end of the URL.
   */

  /** The URL ends at `j` or continues with a query string there. */
  predicate EndsOrQuery(s: string, j: int)
  {
    0 <= j <= |s| && (j == |s| || s[j] == '?')
  }

  /** `s` has the extension `ext` (lower case, with its dot) at `i`, ignoring letter case. */
  predicate ExtensionAt(s: string, i: int, ext: string)
  {
    0 <= i && i + |ext| <= |s| && Lower(s[i..i + |ext|]) == ext && EndsOrQuery(s, i + |ext|)
  }

  predicate PngAt(s: string, i: int)
  {
    ExtensionAt(s, i, ".png")
  }

  predicate JpgAt(s: string, i: int)
  {
    ExtensionAt(s, i, ".jpeg") || ExtensionAt(s, i, ".jpg")
  }

  /** `/\.png(\?|$)/i.test(src)` */
  predicate IsPng(s: string)
  {
    exists i :: 0 <= i <= |s| && PngAt(s, i)
  }

  /** `/\.(jpe?g)(\?|$)/i.test(src)` */
  predicate IsJpg(s: string)
  {
    exists i :: 0 <= i <= |s| && JpgAt(s, i)
  }

  /** The length of the extension the rewrite pattern matches at `i`, or 0 when it matches nothing there. */
  function MatchLength(s: string, i: nat): (n: nat)
    ensures n == 0 || n == 4 || n == 5
    ensures n == 4 ==> PngAt(s, i) || ExtensionAt(s, i, ".jpg")
    ensures n == 5 ==> ExtensionAt(s, i, ".jpeg")
    ensures n == 0 <==> !PngAt(s, i) && !JpgAt(s, i)
  {
    if PngAt(s, i) then 4
    else if ExtensionAt(s, i, ".jpeg") then 5
    else if ExtensionAt(s, i, ".jpg") then 4
    else 0
  }

  /** The leftmost position at or after `from` where the rewrite pattern matches. */
  function FirstMatch(s: string, from: nat): (m: Option<nat>)
    requires from <= |s|
    ensures m.Some? ==> from <= m.value <= |s| && MatchLength(s, m.value) > 0
    ensures m.Some? ==> forall j :: from <= j < m.value ==> MatchLength(s, j) == 0
    ensures m.None? ==> forall j :: from <= j <= |s| ==> MatchLength(s, j) == 0
    decreases |s| - from
  {
    if MatchLength(s, from) > 0 then Some(from)
    else if from == |s| then None
    else FirstMatch(s, from + 1)
  }

  /** `src.replace(/\.(png|jpe?g)(\?|$)/i, '.webp$2')`: the leftmost extension becomes `.webp`. */
  function WebpUrl(src: string): (r: string)
  {
    match FirstMatch(src, 0)
    case None => src
    case Some(i) => src[..i] + ".webp" + src[i + MatchLength(src, i)..]
  }

  /** The URL tests agree with the rewrite: a match exists exactly when the URL is a PNG or a JPEG. */
  lemma MatchIffPngOrJpg(s: string)
    ensures FirstMatch(s, 0).Some? <==> IsPng(s) || IsJpg(s)
  {
    var m := FirstMatch(s, 0);
    if m.Some? {
      var i := m.value;
      if PngAt(s, i) {
        assert IsPng(s);
      } else {
        assert JpgAt(s, i);
        assert IsJpg(s);
      }
    }
    if IsPng(s) || IsJpg(s) {
      var i :| 0 <= i <= |s| && (PngAt(s, i) || JpgAt(s, i));
      assert MatchLength(s, i) > 0;
    }
  }

  /**
   * The WebP URL keeps everything before and after the matched extension and
   * puts `.webp` in its place, still followed by the query string or the end.
   */
  lemma WebpUrlShape(src: string)
    requires IsPng(src) || IsJpg(src)
    ensures FirstMatch(src, 0).Some?
    ensures var i := FirstMatch(src, 0).value; var n := MatchLength(src, i);
      i + n <= |src| && (PngAt(src, i) || JpgAt(src, i)) &&
      WebpUrl(src) == src[..i] + ".webp" + src[i + n..] &&
      EndsOrQuery(WebpUrl(src), i + 5) &&
      WebpUrl(src)[i..i + 5] == ".webp"
  {
    MatchIffPngOrJpg(src);
    var i := FirstMatch(src, 0).value;
    var n := MatchLength(src, i);
    var r := src[..i] + ".webp" + src[i + n..];
    assert r[i..i + 5] == ".webp";
    assert |r| == |src| - n + 5;
    assert i + n == |src| ==> i + 5 == |r|;
    assert i + n < |src| ==> r[i + 5] == src[i + n];
  }

  /** The rewrite always changes a PNG or JPEG URL: the WebP source never repeats the fallback. */
  lemma WebpUrlDiffers(src: string)
    requires IsPng(src) || IsJpg(src)
    ensures WebpUrl(src) != src
  {
    WebpUrlShape(src);
    var i := FirstMatch(src, 0).value;
    var k := MatchLength(src, i);
    // the letter after the dot was `p` or `j` in some case, and is now `w`
    assert LowerChar(src[i + 1]) == Lower(src[i..i + k])[1];
    assert LowerChar(src[i + 1]) != 'w';
    assert WebpUrl(src)[i + 1] == 'w' != src[i + 1];
  }

  /** The skip test at the top of the per-image callback, and the missing-URL and wrong-format returns. */
  predicate Upgradable(img: Img)
  {
    !img.upgraded && img.parentTag != "PICTURE" &&
    img.src.Some? && img.src.value != "" &&
    (IsPng(img.src.value) || IsJpg(img.src.value))
  }

  /** The clone that goes into the picture: marked, lazily loaded unless a mode was set, classed `no-animate`. */
  function UpgradedImg(img: Img): (c: Img)
    ensures c.src == img.src && c.upgraded && c.className == NoAnimateClass
    ensures c.loading == (if img.loading == "" then "lazy" else img.loading)
    ensures c.parentTag == "PICTURE" && !Upgradable(c)
  {
    Img(img.src, NoAnimateClass, true, if img.loading == "" then "lazy" else img.loading, "PICTURE")
  }

  /** What the per-image callback leaves in a slot. */
  function UpgradeNode(n: Node): (r: Node)
  {
    match n
    case Picture(_, _, _, _) => n
    case Image(img) =>
      if !Upgradable(img) then n
      else
        var src := img.src.value;
        Picture(img.className,
                Source(WebpUrl(src), WebpType),
                Source(src, if IsPng(src) then PngType else JpegType),
                UpgradedImg(img))
  }

  /**
   * A slot turns into a picture exactly when it held an upgradable image; the
   * picture takes the image's classes, offers the WebP URL first and the
   * original URL in its own format second.
   */
  lemma UpgradeNodeSpec(n: Node)
    ensures UpgradeNode(n).Picture? <==> n.Picture? || Upgradable(n.img)
    ensures n.Image? && Upgradable(n.img) ==>
      var src := n.img.src.value;
      var p := UpgradeNode(n);
      p.className == n.img.className &&
      p.webp == Source(WebpUrl(src), WebpType) && p.webp.srcset != src &&
      p.fallback.srcset == src &&
      (p.fallback.mime == PngType <==> IsPng(src)) &&
      (p.fallback.mime == JpegType <==> !IsPng(src) && IsJpg(src)) &&
      p.img == UpgradedImg(n.img)
    ensures !(n.Image? && Upgradable(n.img)) ==> UpgradeNode(n) == n
  {
    if n.Image? && Upgradable(n.img) {
      WebpUrlDiffers(n.img.src.value);
    }
  }

  /** A second run of the upgrade changes nothing. */
  lemma UpgradeNodeIdempotent(n: Node)
    ensures UpgradeNode(UpgradeNode(n)) == UpgradeNode(n)
  {
  }

  /** The whole page after one run: every slot upgraded on its own. */
  function UpgradeAll(doc: seq<Node>): (r: seq<Node>)
    ensures |r| == |doc|
    ensures forall k :: 0 <= k < |doc| ==> r[k] == UpgradeNode(doc[k])
  {
    seq(|doc|, k requires 0 <= k < |doc| => UpgradeNode(doc[k]))
  }

  lemma UpgradeAllIdempotent(doc: seq<Node>)
    ensures UpgradeAll(UpgradeAll(doc)) == UpgradeAll(doc)
  {
    var once := UpgradeAll(doc);
    forall k | 0 <= k < |doc|
      ensures UpgradeAll(once)[k] == once[k]
    {
      UpgradeNodeIdempotent(doc[k]);
    }
  }

  /** After a run no slot holds an image the upgrade would still touch. */
  lemma UpgradeAllComplete(doc: seq<Node>)
    ensures forall k :: 0 <= k < |doc| ==> !(UpgradeAll(doc)[k].Image? && Upgradable(UpgradeAll(doc)[k].img))
  {
    forall k | 0 <= k < |doc|
      ensures !(UpgradeAll(doc)[k].Image? && Upgradable(UpgradeAll(doc)[k].img))
    {
      UpgradeNodeSpec(doc[k]);
    }
  }

  /** `upgradeImages()`: the `forEach` over the matched images, replacing each upgradable one in place. */
  method UpgradeImages(doc: array<Node>)
    modifies doc
    ensures doc[..] == UpgradeAll(old(doc[..]))
  {
    ghost var was := doc[..];
    for k := 0 to doc.Length
      invariant forall j :: 0 <= j < k ==> doc[j] == UpgradeNode(was[j])
      invariant forall j :: k <= j < doc.Length ==> doc[j] == was[j]
    {
      doc[k] := UpgradeNode(doc[k]);
    }
  }
}
