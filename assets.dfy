/**
  Asset probing on the invitation page. The page cannot list a directory, so
  it asks the server, with a `HEAD` request per candidate URL, whether an
  image exists. Here that request is the oracle `urlExists`; every search also
  returns the URLs it asked about, in order, so that what is requested can
  be stated as well as what is found.
 */
module Assets {
  import opened Wrappers
  import opened Text
  import opened Dom
  import opened Seqs

  const HeaderDir: string := "./pictures/header/"
  const GalleryDir: string := "./pictures/gallery/"

  /** The names the header search tries first. */
  const HeaderCandidates: seq<string> := ["main_image.jpg", "main_image.jpeg", "main_image.png", "main_image.webp"]
  /** The extensions the header search's second loop appends to `main_image`. */
  const HeaderRetryExts: seq<string> := [".jpg", ".jpeg", ".png", ".webp"]
  /** The header image used when no candidate exists. */
  const HeaderLastResort: string := "AU1_0651-2.jpg"

  /** The extensions tried, in order, for every gallery index. */
  const GalleryExts: seq<string> := [".jpg", ".jpeg", ".png", ".webp"]
  /** The gallery indices run from 1 to this bound. */
  const GalleryMaxIndex: nat := 50
  /** The sample images the gallery falls back to. */
  const GallerySamples: seq<string> := ["AU1_0237-2.jpg", "AU1_0305-2.jpg"]

  /** `dir + name` for every name, in order. */
  function InDir(dir: string, names: seq<string>): seq<string> {
    seq(|names|, k requires 0 <= k < |names| => dir + names[k])
  }

  lemma InDirSnoc(dir: string, names: seq<string>, k: nat)
    requires k < |names|
    ensures InDir(dir, names[..k + 1]) == InDir(dir, names[..k]) + [dir + names[k]]
  {
  }

  /**
    The position of the first URL, in list order, for which `urlExists` holds,
    or `None` when there is none.
   */
  function FirstExisting(urls: seq<string>, urlExists: string -> bool): (r: Option<nat>)
    ensures r.Some? ==> r.value < |urls| && urlExists(urls[r.value])
    ensures r.Some? ==> forall j :: 0 <= j < r.value ==> !urlExists(urls[j])
    ensures r.None? ==> forall j :: 0 <= j < |urls| ==> !urlExists(urls[j])
  {
    if urls == [] then None
    else if urlExists(urls[0]) then Some(0)
    else match FirstExisting(urls[1..], urlExists)
      case None => None
      case Some(k) => Some(k + 1)
  }

  /** The URLs a first-hit search over `urls` asks about: up to and including the hit, or all of them. */
  function SearchProbes(urls: seq<string>, urlExists: string -> bool): seq<string> {
    match FirstExisting(urls, urlExists)
    case Some(k) => urls[..k + 1]
    case None => urls
  }

  // ---------------------------------------------------------------- header

  /** The URLs of the header search's first loop. */
  function HeaderUrls(): seq<string> {
    InDir(HeaderDir, HeaderCandidates)
  }

  /** The URLs of the header search's second loop. */
  function HeaderRetryUrls(): seq<string> {
    InDir(HeaderDir + "main_image", HeaderRetryExts)
  }

  /** The second loop asks about exactly the URLs of the first, in the same order. */
  lemma RetryUrlsAreHeaderUrls()
    ensures HeaderRetryUrls() == HeaderUrls()
  {
    var a, b := HeaderRetryUrls(), HeaderUrls();
    assert a[0] == HeaderDir + "main_image" + ".jpg";
    assert (HeaderDir + "main_image") + ".jpg" == HeaderDir + "main_image.jpg";
    assert (HeaderDir + "main_image") + ".jpeg" == HeaderDir + "main_image.jpeg";
    assert (HeaderDir + "main_image") + ".png" == HeaderDir + "main_image.png";
    assert (HeaderDir + "main_image") + ".webp" == HeaderDir + "main_image.webp";
  }

  /**
    `findSingleHeaderImage`: the first header candidate that exists, or the
    last-resort image. When no candidate exists, the second loop asks about
    the same four URLs again and finds nothing either.
   */
  method FindSingleHeaderImage(urlExists: string -> bool) returns (url: string, probes: seq<string>)
    ensures FirstExisting(HeaderUrls(), urlExists).Some? ==>
      var k := FirstExisting(HeaderUrls(), urlExists).value;
      url == HeaderUrls()[k] && probes == HeaderUrls()[..k + 1]
    ensures FirstExisting(HeaderUrls(), urlExists).None? ==>
      url == HeaderDir + HeaderLastResort && probes == HeaderUrls() + HeaderUrls()
  {
    probes := [];
    for i := 0 to |HeaderCandidates|
      invariant probes == HeaderUrls()[..i]
      invariant forall j :: 0 <= j < i ==> !urlExists(HeaderUrls()[j])
    {
      url := HeaderDir + HeaderCandidates[i];
      probes := probes + [url];
      if urlExists(url) {
        return;
      }
    }
    assert probes == HeaderUrls();
    var noExt := HeaderDir + "main_image";
    RetryUrlsAreHeaderUrls();
    for i := 0 to |HeaderRetryExts|
      invariant probes == HeaderUrls() + HeaderUrls()[..i]
    {
      url := noExt + HeaderRetryExts[i];
      assert url == HeaderRetryUrls()[i];
      probes := probes + [url];
      if urlExists(url) {
        return;
      }
    }
    url := HeaderDir + HeaderLastResort;
  }

  // --------------------------------------------------------------- gallery

  /** `i.toString().padStart(2, '0')`. */
  function Pad2(i: nat): string {
    PadStart(NatToString(i), 2, '0')
  }

  /** For the indices the gallery uses, the name is exactly the two decimal digits of the index. */
  lemma Pad2Digits(i: nat)
    requires 1 <= i < 100
    ensures Pad2(i) == [Digit(i / 10), Digit(i % 10)]
  {
    if i >= 10 {
      assert NatToString(i) == NatToString(i / 10) + [Digit(i % 10)];
    }
  }

  /** The URLs tried for gallery index `i`, one per extension, in extension order. */
  function NumberedUrls(i: nat): (urls: seq<string>)
    ensures |urls| == |GalleryExts|
  {
    seq(|GalleryExts|, e requires 0 <= e < |GalleryExts| => GalleryDir + Pad2(i) + GalleryExts[e])
  }

  /** The URL found for gallery index `i`: the first extension, in order, whose URL exists. */
  function FoundAt(i: nat, urlExists: string -> bool): (r: Option<string>)
    ensures r.Some? <==> exists e :: 0 <= e < |GalleryExts| && urlExists(NumberedUrls(i)[e])
    ensures r.Some? ==> exists e :: (0 <= e < |GalleryExts| && r.value == GalleryDir + Pad2(i) + GalleryExts[e] &&
      urlExists(r.value) && forall e' :: 0 <= e' < e ==> !urlExists(NumberedUrls(i)[e']))
  {
    match FirstExisting(NumberedUrls(i), urlExists)
    case Some(e) => Some(NumberedUrls(i)[e])
    case None => None
  }

  /** The URLs found for indices `1..n`, in ascending index order. */
  function NumberedItems(n: nat, urlExists: string -> bool): seq<string> {
    if n == 0 then []
    else NumberedItems(n - 1, urlExists) + (if FoundAt(n, urlExists).Some? then [FoundAt(n, urlExists).value] else [])
  }

  /** The indices in `1..n` for which a URL was found, ascending. */
  function FoundIndices(n: nat, urlExists: string -> bool): seq<nat> {
    if n == 0 then []
    else FoundIndices(n - 1, urlExists) + (if FoundAt(n, urlExists).Some? then [n] else [])
  }

  /** The URLs asked about for indices `1..n`. */
  function NumberedProbes(n: nat, urlExists: string -> bool): seq<string> {
    if n == 0 then [] else NumberedProbes(n - 1, urlExists) + SearchProbes(NumberedUrls(n), urlExists)
  }

  /** The URLs of the sample images. */
  function SampleUrls(): seq<string> {
    InDir(GalleryDir, GallerySamples)
  }

  /** The gallery's list of image URLs: the numbered ones, or the existing samples when there is none. */
  function GalleryItems(urlExists: string -> bool): seq<string> {
    var numbered := NumberedItems(GalleryMaxIndex, urlExists);
    if numbered == [] then Filter(SampleUrls(), urlExists) else numbered
  }

  /** Every URL the gallery probe asks about, in order. */
  function GalleryProbes(urlExists: string -> bool): seq<string> {
    NumberedProbes(GalleryMaxIndex, urlExists) +
      (if NumberedItems(GalleryMaxIndex, urlExists) == [] then SampleUrls() else [])
  }

  /**
    The inner loop of `buildGallery`'s numbered probe, for index `i`: tries
    the extensions in order and stops at the first URL that exists.
   */
  method ProbeIndex(i: nat, urlExists: string -> bool) returns (found: Option<string>, probes: seq<string>)
    ensures found == FoundAt(i, urlExists)
    ensures probes == SearchProbes(NumberedUrls(i), urlExists)
  {
    ghost var urls := NumberedUrls(i);
    found, probes := None, [];
    for e := 0 to |GalleryExts|
      invariant probes == urls[..e]
      invariant forall j :: 0 <= j < e ==> !urlExists(urls[j])
    {
      var name := Pad2(i) + GalleryExts[e];
      var url := GalleryDir + name;
      assert url == urls[e];
      probes := probes + [url];
      if urlExists(url) {
        assert FirstExisting(urls, urlExists) == Some(e);
        found := Some(url);
        return;
      }
    }
    assert urls[..|GalleryExts|] == urls;
  }

  /**
    The numbered probe of `buildGallery`: for every index from 1 to `n`,
    the first URL that exists, if any.
   */
  method ProbeNumbered(n: nat, urlExists: string -> bool) returns (items: seq<string>, probes: seq<string>)
    ensures items == NumberedItems(n, urlExists)
    ensures probes == NumberedProbes(n, urlExists)
  {
    items, probes := [], [];
    for i := 1 to n + 1
      invariant items == NumberedItems(i - 1, urlExists)
      invariant probes == NumberedProbes(i - 1, urlExists)
    {
      var found, indexProbes := ProbeIndex(i, urlExists);
      probes := probes + indexProbes;
      if found.Some? {
        items := items + [found.value];
      }
    }
  }

  /** The fallback probe of `buildGallery`: asks about every sample URL and keeps those that exist. */
  method ProbeSamples(dir: string, names: seq<string>, urlExists: string -> bool)
    returns (items: seq<string>, probes: seq<string>)
    ensures items == Filter(InDir(dir, names), urlExists)
    ensures probes == InDir(dir, names)
  {
    items, probes := [], [];
    for c := 0 to |names|
      invariant items == Filter(InDir(dir, names[..c]), urlExists)
      invariant probes == InDir(dir, names[..c])
    {
      var url := dir + names[c];
      InDirSnoc(dir, names, c);
      probes := probes + [url];
      if urlExists(url) {
        items := items + [url];
      }
    }
    assert names[..|names|] == names;
  }

  /**
    The probe of `buildGallery`: the numbered probe over indices 1 to 50,
    then, only if it found nothing, the fallback probe over the samples.
   */
  method ProbeGallery(urlExists: string -> bool) returns (items: seq<string>, probes: seq<string>)
    ensures items == GalleryItems(urlExists)
    ensures probes == GalleryProbes(urlExists)
  {
    items, probes := ProbeNumbered(GalleryMaxIndex, urlExists);
    if |items| == 0 {
      var fallbackProbes;
      items, fallbackProbes := ProbeSamples(GalleryDir, GallerySamples, urlExists);
      probes := probes + fallbackProbes;
    }
  }

  // ------------------------------------------------------ gallery lemmas

  lemma {:induction false} NumberedCount(n: nat, urlExists: string -> bool)
    ensures |NumberedItems(n, urlExists)| == |FoundIndices(n, urlExists)| <= n
  {
    if n > 0 {
      NumberedCount(n - 1, urlExists);
    }
  }

  lemma {:induction false} FoundIndicesAscending(n: nat, urlExists: string -> bool)
    ensures forall k :: 0 <= k < |FoundIndices(n, urlExists)| ==>
      1 <= FoundIndices(n, urlExists)[k] <= n && FoundAt(FoundIndices(n, urlExists)[k], urlExists).Some?
    ensures forall k, l :: 0 <= k < l < |FoundIndices(n, urlExists)| ==>
      FoundIndices(n, urlExists)[k] < FoundIndices(n, urlExists)[l]
  {
    if n > 0 {
      FoundIndicesAscending(n - 1, urlExists);
    }
  }

  lemma {:induction false} FoundIndicesComplete(n: nat, urlExists: string -> bool)
    ensures forall i :: 1 <= i <= n && FoundAt(i, urlExists).Some? ==> i in FoundIndices(n, urlExists)
  {
    if n > 0 {
      var prev := FoundIndices(n - 1, urlExists);
      var last := if FoundAt(n, urlExists).Some? then [n] else [];
      assert FoundIndices(n, urlExists) == prev + last;
      FoundIndicesComplete(n - 1, urlExists);
      forall i | 1 <= i <= n && FoundAt(i, urlExists).Some?
        ensures i in prev + last
      {
        if i == n {
          assert last == [n];
        } else {
          assert i in prev;
        }
      }
    }
  }

  lemma {:induction false} NumberedItemsAt(n: nat, urlExists: string -> bool)
    requires |NumberedItems(n, urlExists)| == |FoundIndices(n, urlExists)|
    ensures forall k :: 0 <= k < |FoundIndices(n, urlExists)| ==>
      FoundAt(FoundIndices(n, urlExists)[k], urlExists).Some? &&
      NumberedItems(n, urlExists)[k] == FoundAt(FoundIndices(n, urlExists)[k], urlExists).value
  {
    if n > 0 {
      NumberedCount(n - 1, urlExists);
      NumberedItemsAt(n - 1, urlExists);
    }
  }

  /**
    The numbered items are, in ascending index order, the URLs found for
    exactly those indices in `1..n` for which some extension exists: at most
    one URL per index, so at most `n` of them.
   */
  lemma NumberedItemsShape(n: nat, urlExists: string -> bool)
    ensures |NumberedItems(n, urlExists)| == |FoundIndices(n, urlExists)| <= n
    ensures forall k :: 0 <= k < |FoundIndices(n, urlExists)| ==>
      1 <= FoundIndices(n, urlExists)[k] <= n &&
      FoundAt(FoundIndices(n, urlExists)[k], urlExists).Some? &&
      NumberedItems(n, urlExists)[k] == FoundAt(FoundIndices(n, urlExists)[k], urlExists).value
    ensures forall k, l :: 0 <= k < l < |FoundIndices(n, urlExists)| ==>
      FoundIndices(n, urlExists)[k] < FoundIndices(n, urlExists)[l]
    ensures forall i :: 1 <= i <= n && FoundAt(i, urlExists).Some? ==> i in FoundIndices(n, urlExists)
  {
    NumberedCount(n, urlExists);
    FoundIndicesAscending(n, urlExists);
    FoundIndicesComplete(n, urlExists);
    NumberedItemsAt(n, urlExists);
  }

  /**
    Gallery names are two-digit and tell their index and extension apart:
    two numbered URLs of indices in `1..50` are equal only when index and
    extension are.
   */
  lemma NumberedUrlsDistinct(i: nat, e: nat, j: nat, f: nat)
    requires 1 <= i <= GalleryMaxIndex && 1 <= j <= GalleryMaxIndex
    requires e < |GalleryExts| && f < |GalleryExts|
    requires NumberedUrls(i)[e] == NumberedUrls(j)[f]
    ensures i == j && e == f
  {
    Pad2Digits(i);
    Pad2Digits(j);
    GalleryExtsDistinct();
    NumberedUrlAt(i, e);
    NumberedUrlAt(j, f);
    ConcatCancel(GalleryDir, Pad2(i), Pad2(j), GalleryExts, e, f);
    assert Digit(i / 10) == Digit(j / 10) && Digit(i % 10) == Digit(j % 10);
  }

  lemma NumberedUrlAt(i: nat, e: nat)
    requires e < |GalleryExts|
    ensures NumberedUrls(i)[e] == GalleryDir + Pad2(i) + GalleryExts[e]
  {
  }

  lemma GalleryExtsDistinct()
    ensures forall e, f :: 0 <= e < f < |GalleryExts| ==> GalleryExts[e] != GalleryExts[f]
  {
  }

  /**
    Equal concatenations with a common prefix, middles of one length and ends
    from a list without repeats have equal middles and the same end.
   */
  lemma ConcatCancel(d: string, p: string, q: string, ends: seq<string>, e: nat, f: nat)
    requires |p| == |q| && e < |ends| && f < |ends|
    requires forall k, l :: 0 <= k < l < |ends| ==> ends[k] != ends[l]
    requires d + p + ends[e] == d + q + ends[f]
    ensures p == q && e == f
  {
    var u, v := d + p + ends[e], d + q + ends[f];
    assert u[|d|..|d| + |p|] == p && u[|d| + |p|..] == ends[e];
    assert v[|d|..|d| + |q|] == q && v[|d| + |q|..] == ends[f];
  }

  /** A URL of the form `GalleryDir + <digit> + …`: what every numbered probe looks like. */
  predicate DigitAfterDir(u: string) {
    |u| > |GalleryDir| && IsDigit(u[|GalleryDir|])
  }

  lemma NumberedUrlShape(i: nat)
    ensures forall e :: 0 <= e < |GalleryExts| ==> DigitAfterDir(NumberedUrls(i)[e])
  {
    var p := Pad2(i);
    assert IsDigit(p[0]) by {
      var t := NatToString(i);
      if |t| < 2 {
        assert p[0] == '0';
      } else {
        assert p == t;
      }
    }
    forall e | 0 <= e < |GalleryExts|
      ensures DigitAfterDir(NumberedUrls(i)[e])
    {
      var u := NumberedUrls(i)[e];
      assert u == GalleryDir + (p + GalleryExts[e]);
      assert u[|GalleryDir|] == p[0];
    }
  }

  lemma SearchProbesWithin(urls: seq<string>, urlExists: string -> bool)
    ensures forall u :: u in SearchProbes(urls, urlExists) ==> u in urls
  {
  }

  /** Every URL the numbered probe asks about has a digit right after the gallery directory. */
  lemma {:induction false} NumberedProbesShape(n: nat, urlExists: string -> bool)
    ensures forall u :: u in NumberedProbes(n, urlExists) ==> DigitAfterDir(u)
  {
    if n > 0 {
      NumberedProbesShape(n - 1, urlExists);
      NumberedUrlShape(n);
      SearchProbesWithin(NumberedUrls(n), urlExists);
    }
  }

  lemma SamplesNotNumbered()
    ensures forall u :: u in SampleUrls() ==> !DigitAfterDir(u)
  {
    var d := |GalleryDir|;
    assert SampleUrls() == [GalleryDir + GallerySamples[0], GalleryDir + GallerySamples[1]];
    assert (GalleryDir + GallerySamples[0])[d] == GallerySamples[0][0] == 'A';
    assert (GalleryDir + GallerySamples[1])[d] == GallerySamples[1][0] == 'A';
  }

  /** The sample images are asked about exactly when the numbered probe found nothing. */
  lemma FallbackOnlyWhenEmpty(urlExists: string -> bool)
    ensures (forall u :: u in SampleUrls() ==> u in GalleryProbes(urlExists)) <==>
      NumberedItems(GalleryMaxIndex, urlExists) == []
    ensures NumberedItems(GalleryMaxIndex, urlExists) != [] ==>
      forall u :: u in SampleUrls() ==> u !in GalleryProbes(urlExists)
  {
    NumberedProbesShape(GalleryMaxIndex, urlExists);
    SamplesNotNumbered();
    assert SampleUrls()[0] in SampleUrls();
  }

  /** One gallery entry: a `div.item` holding a lazily loaded, asynchronously decoded image. */
  datatype Item = Item(src: string, loading: string, decoding: string)

  /** The entries rendered for a list of URLs, one per URL, in the same order. */
  function ItemsFor(urls: seq<string>): (r: seq<Item>)
    ensures |r| == |urls| && forall k :: 0 <= k < |urls| ==> r[k].src == urls[k]
  {
    seq(|urls|, k requires 0 <= k < |urls| => Item(urls[k], "lazy", "async"))
  }

  /** The rendering loop of `buildGallery`: one entry per URL, appended in order. */
  method AppendItems(wrap: Container<Item>, urls: seq<string>)
    modifies wrap
    ensures wrap.children == old(wrap.children) + ItemsFor(urls)
  {
    for k := 0 to |urls|
      invariant wrap.children == old(wrap.children) + ItemsFor(urls[..k])
    {
      wrap.Append(Item(urls[k], "lazy", "async"));
      assert ItemsFor(urls[..k + 1]) == ItemsFor(urls[..k]) + [Item(urls[k], "lazy", "async")];
    }
    assert urls[..|urls|] == urls;
  }

  /**
    `buildGallery`: when the carousel element exists, probes for the images
    and appends one entry per URL found, in order. Without the element it
    neither probes nor renders.
   */
  method BuildGallery(wrap: Container?<Item>, urlExists: string -> bool) returns (probes: seq<string>)
    modifies wrap
    ensures wrap == null ==> probes == []
    ensures wrap != null ==>
      probes == GalleryProbes(urlExists) &&
      wrap.children == old(wrap.children) + ItemsFor(GalleryItems(urlExists))
  {
    if wrap == null {
      return [];
    }
    var items;
    items, probes := ProbeGallery(urlExists);
    AppendItems(wrap, items);
  }
}
