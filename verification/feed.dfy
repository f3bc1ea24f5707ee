/** The activity-feed walk shared by both revisions (`download_from_procare`,
    `procare_download_new_media`): pages 1, 2, ... are requested until the
    first empty one; every photo or video activity whose identity is not
    already in the album is downloaded and recorded in an insertion-ordered
    filename -> caption dict; a failed page abandons the whole walk. */
module Feed {
  import opened Types
  import opened Identity
  import OM = OrderedMap

  /** The provider's answer to one page request: a non-200 status, or the
      page's `daily_activities`. */
  datatype PageResult = PageFail | PageOk(activities: seq<Activity>)

  /** The answer to page number k + 1. A provider that stops answering is
      modelled by a page sequence that ends: requests past it fail. */
  function PageAt(pages: seq<PageResult>, k: nat): PageResult {
    if k < |pages| then pages[k] else PageFail
  }

  /** A page after which the walk goes on: a non-empty successful one. */
  predicate Continues(p: PageResult) {
    p.PageOk? && |p.activities| > 0
  }

  /** Index of the page that ends the walk: the first one that failed or
      came back empty. */
  function StopIndex(pages: seq<PageResult>): (r: nat)
    ensures r <= |pages|
    ensures forall j :: 0 <= j < r ==> Continues(pages[j])
    ensures !Continues(PageAt(pages, r))
  {
    StopFrom(pages, 0)
  }

  /** The first stopping page at index `k` or later. */
  function StopFrom(pages: seq<PageResult>, k: nat): (r: nat)
    requires k <= |pages|
    ensures k <= r <= |pages|
    ensures forall j :: k <= j < r ==> Continues(pages[j])
    ensures !Continues(PageAt(pages, r))
    decreases |pages| - k
  {
    if k == |pages| || !Continues(pages[k]) then k else StopFrom(pages, k + 1)
  }

  /** The activities a page holds; a failed page holds none. */
  function ActivitiesOf(p: PageResult): seq<Activity> {
    if p.PageOk? then p.activities else []
  }

  /** The activities of pages lo + 1 .. hi, in feed order. */
  function Flatten(pages: seq<PageResult>, lo: nat, hi: nat): seq<Activity>
    requires lo <= hi <= |pages|
    decreases hi - lo
  {
    if lo == hi then [] else ActivitiesOf(pages[lo]) + Flatten(pages, lo + 1, hi)
  }

  /** `lo, lo + 1, ..., hi - 1`. */
  function Range(lo: int, hi: int): (r: seq<int>)
    ensures |r| == if lo <= hi then hi - lo else 0
    decreases hi - lo
  {
    if hi <= lo then [] else [lo] + Range(lo + 1, hi)
  }

  /** One media download the walk attempted, and whether it succeeded. */
  datatype Download = Download(url: Url, filename: string, ok: bool)

  /** How an activity's media URL gives its identity. The scripts use
      `Identity.FilenameOf`; the walk is stated for any such function. */
  type Naming = (Activity, Url) -> string

  /** A media item found to be new: its identity, caption and URL. */
  datatype NewItem = NewItem(filename: string, caption: Option<string>, url: Url)

  /** The media activity `a` carries when its identity is not among
      `existing`; nothing for an activity without a media URL. */
  function NewItemOf(a: Activity, existing: seq<string>, nameOf: Naming): (r: Option<NewItem>)
    ensures r.Some? ==> MediaUrlOf(a) == Some(r.value.url) && r.value.filename !in existing
  {
    match MediaUrlOf(a)
    case None => None
    case Some(url) =>
      var name := nameOf(a, url);
      if name in existing then None else Some(NewItem(name, a.activiable.caption, url))
  }

  /** Reference definition: the media of `acts`, in feed order, whose
      identity is not among `existing`. */
  function NewMedia(acts: seq<Activity>, existing: seq<string>, nameOf: Naming): (r: seq<NewItem>)
    ensures |r| <= |acts|
  {
    if acts == [] then []
    else
      var rest := NewMedia(acts[1..], existing, nameOf);
      match NewItemOf(acts[0], existing, nameOf)
      case None => rest
      case Some(item) => [item] + rest
  }

  /** No new item carries an identity that is already in the album. */
  lemma {:induction false} NewMediaFresh(acts: seq<Activity>, existing: seq<string>, nameOf: Naming)
    ensures forall item :: item in NewMedia(acts, existing, nameOf) ==> item.filename !in existing
    decreases |acts|
  {
    if acts != [] {
      NewMediaFresh(acts[1..], existing, nameOf);
    }
  }

  /** `item` is the media of activity `a`. */
  ghost predicate IsMediaOf(item: NewItem, a: Activity, nameOf: Naming) {
    && MediaUrlOf(a) == Some(item.url)
    && nameOf(a, item.url) == item.filename
    && a.activiable.caption == item.caption
  }

  /** Every new item is the media of some activity of the feed: activities
      without a media URL contribute nothing. */
  lemma {:induction false} NewMediaSound(acts: seq<Activity>, existing: seq<string>, nameOf: Naming)
    ensures forall item :: item in NewMedia(acts, existing, nameOf) ==> exists a :: a in acts && IsMediaOf(item, a, nameOf)
    decreases |acts|
  {
    if acts != [] {
      NewMediaSound(acts[1..], existing, nameOf);
      var rest := NewMedia(acts[1..], existing, nameOf);
      forall item | item in NewMedia(acts, existing, nameOf) ensures exists a :: a in acts && IsMediaOf(item, a, nameOf) {
        if item in rest {
          var a :| a in acts[1..] && IsMediaOf(item, a, nameOf);
          assert a in acts;
        } else {
          assert IsMediaOf(item, acts[0], nameOf);
        }
      }
    }
  }

  /** Conversely, every activity with a media URL whose identity is not in
      `existing` yields an item. */
  lemma {:induction false} NewMediaComplete(acts: seq<Activity>, existing: seq<string>, nameOf: Naming)
    ensures forall a :: a in acts && MediaUrlOf(a).Some? && nameOf(a, MediaUrlOf(a).value) !in existing ==>
      NewItem(nameOf(a, MediaUrlOf(a).value), a.activiable.caption, MediaUrlOf(a).value) in NewMedia(acts, existing, nameOf)
    decreases |acts|
  {
    if acts != [] {
      NewMediaComplete(acts[1..], existing, nameOf);
    }
  }

  /** The dict assignments the items make. */
  function Pairs(items: seq<NewItem>): (r: seq<(OM.K, OM.V)>)
    ensures |r| == |items|
  {
    if items == [] then [] else [(items[0].filename, items[0].caption)] + Pairs(items[1..])
  }

  /** The downloads the items cause, with the outcome `fetch` gives each. */
  function Downloads(items: seq<NewItem>, fetch: Url -> bool): (r: seq<Download>)
    ensures |r| == |items|
  {
    if items == [] then [] else [Download(items[0].url, items[0].filename, fetch(items[0].url))] + Downloads(items[1..], fetch)
  }

  /** The dict after a scan, and the downloads the scan made, in order. */
  datatype ScanState = ScanState(found: seq<OM.Entry>, downloads: seq<Download>)

  /** The inner `for activity in activities` loop, starting from the dict
      `found`. A download's outcome is recorded but does not decide whether
      its filename enters the dict, as in the earlier revision. (The later
      revision raises after a failed photo download, when it rewrites the
      missing file's EXIF data; that is not modelled.) */
  function ScanActivities(acts: seq<Activity>, existing: seq<string>, nameOf: Naming, fetch: Url -> bool, found: seq<OM.Entry>): ScanState
    decreases |acts|
  {
    if acts == [] then ScanState(found, [])
    else
      match NewItemOf(acts[0], existing, nameOf)
      case None => ScanActivities(acts[1..], existing, nameOf, fetch, found)
      case Some(item) =>
        var rest := ScanActivities(acts[1..], existing, nameOf, fetch, OM.Put(found, item.filename, item.caption));
        ScanState(rest.found, [Download(item.url, item.filename, fetch(item.url))] + rest.downloads)
  }

  /** The scan of one page, as the outer loop applies it. */
  type PageScan = (seq<Activity>, seq<OM.Entry>) -> ScanState

  function ScanOf(existing: seq<string>, nameOf: Naming, fetch: Url -> bool): PageScan {
    (acts, found) => ScanActivities(acts, existing, nameOf, fetch, found)
  }

  /** The outcome of a walk: the dict (`None` when a page failed), the page
      numbers requested, and the downloads attempted. */
  datatype FeedRun = FeedRun(result: Option<seq<OM.Entry>>, pagesRequested: seq<int>, downloads: seq<Download>)

  /** The `while True` loop, from page number k + 1 on, with the dict
      `found` gathered so far. */
  function Walk(pages: seq<PageResult>, k: nat, scan: PageScan, found: seq<OM.Entry>): FeedRun
    decreases |pages| - k
  {
    if k >= |pages| then FeedRun(None, [k + 1], [])
    else match pages[k]
      case PageFail => FeedRun(None, [k + 1], [])
      case PageOk(acts) =>
        if |acts| == 0 then FeedRun(Some(found), [k + 1], [])
        else
          var here := scan(acts, found);
          var rest := Walk(pages, k + 1, scan, here.found);
          FeedRun(rest.result, [k + 1] + rest.pagesRequested, here.downloads + rest.downloads)
  }

  /** The whole feed walk, starting at page 1 with an empty dict. */
  function ReadNewMedia(pages: seq<PageResult>, existing: seq<string>, nameOf: Naming, fetch: Url -> bool): FeedRun {
    Walk(pages, 0, ScanOf(existing, nameOf, fetch), [])
  }

  // ----- Relating the loop to the reference definition -----

  /** The scans of pages k + 1 .. s one after another. */
  function FoldPages(pages: seq<PageResult>, k: nat, s: nat, scan: PageScan, found: seq<OM.Entry>): ScanState
    requires k <= s <= |pages|
    decreases s - k
  {
    if k == s then ScanState(found, [])
    else
      var here := scan(ActivitiesOf(pages[k]), found);
      var rest := FoldPages(pages, k + 1, s, scan, here.found);
      ScanState(rest.found, here.downloads + rest.downloads)
  }

  /** The walk from page k + 1 on requests every page up to the one that
      stops it, scans the pages before that one, and keeps the dict unless
      the stopping page failed. */
  lemma {:induction false} WalkSpec(pages: seq<PageResult>, k: nat, scan: PageScan, found: seq<OM.Entry>)
    requires k <= StopIndex(pages)
    ensures var s := StopIndex(pages);
      var folded := FoldPages(pages, k, s, scan, found);
      Walk(pages, k, scan, found) ==
        FeedRun(if PageAt(pages, s).PageFail? then None else Some(folded.found),
                Range(k + 1, s + 2),
                folded.downloads)
    decreases StopIndex(pages) - k
  {
    var s := StopIndex(pages);
    if k == s {
      assert Range(k + 1, k + 2) == [k + 1];
    } else {
      assert Continues(pages[k]);
      WalkSpec(pages, k + 1, scan, scan(pages[k].activities, found).found);
    }
  }

  lemma {:induction false} PairsAppend(xs: seq<NewItem>, ys: seq<NewItem>)
    ensures Pairs(xs + ys) == Pairs(xs) + Pairs(ys)
    decreases |xs|
  {
    if xs == [] {
      assert xs + ys == ys;
    } else {
      assert (xs + ys)[1..] == xs[1..] + ys;
      PairsAppend(xs[1..], ys);
    }
  }

  lemma {:induction false} DownloadsAppend(xs: seq<NewItem>, ys: seq<NewItem>, fetch: Url -> bool)
    ensures Downloads(xs + ys, fetch) == Downloads(xs, fetch) + Downloads(ys, fetch)
    decreases |xs|
  {
    if xs == [] {
      assert xs + ys == ys;
    } else {
      assert (xs + ys)[1..] == xs[1..] + ys;
      DownloadsAppend(xs[1..], ys, fetch);
    }
  }

  lemma {:induction false} NewMediaAppend(xs: seq<Activity>, ys: seq<Activity>, existing: seq<string>, nameOf: Naming)
    ensures NewMedia(xs + ys, existing, nameOf) == NewMedia(xs, existing, nameOf) + NewMedia(ys, existing, nameOf)
    decreases |xs|
  {
    if xs == [] {
      assert xs + ys == ys;
    } else {
      assert (xs + ys)[0] == xs[0];
      assert (xs + ys)[1..] == xs[1..] + ys;
      NewMediaAppend(xs[1..], ys, existing, nameOf);
    }
  }

  /** One page's scan is the reference definition applied to its activities. */
  lemma {:induction false} ScanIsFold(acts: seq<Activity>, existing: seq<string>, nameOf: Naming, fetch: Url -> bool, found: seq<OM.Entry>)
    ensures var items := NewMedia(acts, existing, nameOf);
      ScanActivities(acts, existing, nameOf, fetch, found) ==
        ScanState(OM.PutAll(found, Pairs(items)), Downloads(items, fetch))
    decreases |acts|
  {
    if acts != [] {
      match NewItemOf(acts[0], existing, nameOf)
      case None =>
        ScanIsFold(acts[1..], existing, nameOf, fetch, found);
      case Some(item) =>
        ScanIsFold(acts[1..], existing, nameOf, fetch, OM.Put(found, item.filename, item.caption));
        ScanStepNew(found, item, NewMedia(acts[1..], existing, nameOf), fetch);
    }
  }

  lemma ScanStepNew(found: seq<OM.Entry>, item: NewItem, rest: seq<NewItem>, fetch: Url -> bool)
    ensures OM.PutAll(found, Pairs([item] + rest)) == OM.PutAll(OM.Put(found, item.filename, item.caption), Pairs(rest))
    ensures Downloads([item] + rest, fetch) == [Download(item.url, item.filename, fetch(item.url))] + Downloads(rest, fetch)
  {
    var ps := Pairs([item] + rest);
    assert ps[0] == (item.filename, item.caption) && ps[1..] == Pairs(rest);
    assert ([item] + rest)[1..] == rest;
  }

  /** The items `newOf` picks from pages k + 1 .. s, page by page. */
  function ItemsOfPages(pages: seq<PageResult>, k: nat, s: nat, newOf: seq<Activity> -> seq<NewItem>): seq<NewItem>
    requires k <= s <= |pages|
    decreases s - k
  {
    if k == s then [] else newOf(ActivitiesOf(pages[k])) + ItemsOfPages(pages, k + 1, s, newOf)
  }

  /** A page scan that folds in the items `newOf` picks from the page. */
  ghost predicate ScansItems(scan: PageScan, newOf: seq<Activity> -> seq<NewItem>, fetch: Url -> bool) {
    forall acts, found :: scan(acts, found) ==
      ScanState(OM.PutAll(found, Pairs(newOf(acts))), Downloads(newOf(acts), fetch))
  }

  /** Scanning pages one after another folds in their items in page order. */
  lemma {:induction false} FoldItems(pages: seq<PageResult>, k: nat, s: nat, scan: PageScan,
                                     newOf: seq<Activity> -> seq<NewItem>, fetch: Url -> bool, found: seq<OM.Entry>)
    requires k <= s <= |pages|
    requires ScansItems(scan, newOf, fetch)
    ensures var items := ItemsOfPages(pages, k, s, newOf);
      FoldPages(pages, k, s, scan, found) ==
        ScanState(OM.PutAll(found, Pairs(items)), Downloads(items, fetch))
    decreases s - k
  {
    if k < s {
      var h := scan(ActivitiesOf(pages[k]), found);
      FoldItems(pages, k + 1, s, scan, newOf, fetch, h.found);
      FoldStep(FoldPages(pages, k, s, scan, found), h, FoldPages(pages, k + 1, s, scan, h.found), found,
               newOf(ActivitiesOf(pages[k])), ItemsOfPages(pages, k + 1, s, newOf),
               ItemsOfPages(pages, k, s, newOf), fetch);
    }
  }

  lemma ScanOfScansNewMedia(existing: seq<string>, nameOf: Naming, fetch: Url -> bool)
    ensures ScansItems(ScanOf(existing, nameOf, fetch), acts => NewMedia(acts, existing, nameOf), fetch)
  {
    forall acts, found ensures ScanOf(existing, nameOf, fetch)(acts, found) ==
      ScanState(OM.PutAll(found, Pairs(NewMedia(acts, existing, nameOf))), Downloads(NewMedia(acts, existing, nameOf), fetch))
    {
      ScanIsFold(acts, existing, nameOf, fetch, found);
    }
  }

  /** `newOf` maps a concatenation to the concatenation of its results. */
  ghost predicate Additive(newOf: seq<Activity> -> seq<NewItem>) {
    && newOf([]) == []
    && forall xs, ys :: newOf(xs + ys) == newOf(xs) + newOf(ys)
  }

  /** An additive choice of items picks from the flattened pages what it
      picks from each page in turn. */
  lemma {:induction false} FlattenItems(pages: seq<PageResult>, k: nat, s: nat, newOf: seq<Activity> -> seq<NewItem>)
    requires k <= s <= |pages|
    requires Additive(newOf)
    ensures newOf(Flatten(pages, k, s)) == ItemsOfPages(pages, k, s, newOf)
    decreases s - k
  {
    if k < s {
      FlattenItems(pages, k + 1, s, newOf);
      assert newOf(Flatten(pages, k, s)) == newOf(ActivitiesOf(pages[k])) + newOf(Flatten(pages, k + 1, s));
    }
  }

  lemma NewMediaAdditive(existing: seq<string>, nameOf: Naming)
    ensures Additive(acts => NewMedia(acts, existing, nameOf))
  {
    forall xs, ys ensures NewMedia(xs + ys, existing, nameOf) == NewMedia(xs, existing, nameOf) + NewMedia(ys, existing, nameOf) {
      NewMediaAppend(xs, ys, existing, nameOf);
    }
  }

  /** Scanning pages k + 1 .. s with the inner loop folds in the new media
      of their activities, in feed order. */
  lemma FoldScanSpec(pages: seq<PageResult>, k: nat, s: nat, existing: seq<string>, nameOf: Naming,
                     fetch: Url -> bool, found: seq<OM.Entry>)
    requires k <= s <= |pages|
    ensures var items := NewMedia(Flatten(pages, k, s), existing, nameOf);
      FoldPages(pages, k, s, ScanOf(existing, nameOf, fetch), found) ==
        ScanState(OM.PutAll(found, Pairs(items)), Downloads(items, fetch))
  {
    ScanOfScansNewMedia(existing, nameOf, fetch);
    FoldItems(pages, k, s, ScanOf(existing, nameOf, fetch), acts => NewMedia(acts, existing, nameOf), fetch, found);
    NewMediaAdditive(existing, nameOf);
    FlattenItems(pages, k, s, acts => NewMedia(acts, existing, nameOf));
  }

  lemma FoldStep(folded: ScanState, h: ScanState, rest: ScanState, found: seq<OM.Entry>,
                 here: seq<NewItem>, later: seq<NewItem>, items: seq<NewItem>, fetch: Url -> bool)
    requires folded == ScanState(rest.found, h.downloads + rest.downloads)
    requires h == ScanState(OM.PutAll(found, Pairs(here)), Downloads(here, fetch))
    requires rest == ScanState(OM.PutAll(h.found, Pairs(later)), Downloads(later, fetch))
    requires items == here + later
    ensures folded == ScanState(OM.PutAll(found, Pairs(items)), Downloads(items, fetch))
  {
    CombinePages(found, here, later, fetch);
  }

  lemma CombinePages(found: seq<OM.Entry>, here: seq<NewItem>, later: seq<NewItem>, fetch: Url -> bool)
    ensures OM.PutAll(OM.PutAll(found, Pairs(here)), Pairs(later)) == OM.PutAll(found, Pairs(here + later))
    ensures Downloads(here, fetch) + Downloads(later, fetch) == Downloads(here + later, fetch)
  {
    PairsAppend(here, later);
    DownloadsAppend(here, later, fetch);
    OM.PutAllAppend(found, Pairs(here), Pairs(later));
  }

  /** The feed walk as a whole: pages 1 .. s + 1 are requested, where page
      s + 1 is the first failed or empty one; a failure discards the dict,
      otherwise the dict holds the new media of pages 1 .. s. The downloads
      of those pages happen either way. */
  lemma ReadNewMediaSpec(pages: seq<PageResult>, existing: seq<string>, nameOf: Naming, fetch: Url -> bool)
    ensures var s := StopIndex(pages);
      var items := NewMedia(Flatten(pages, 0, s), existing, nameOf);
      var run := ReadNewMedia(pages, existing, nameOf, fetch);
      && run.pagesRequested == Range(1, s + 2)
      && (run.result.None? <==> PageAt(pages, s).PageFail?)
      && (run.result.Some? ==> run.result.value == OM.PutAll([], Pairs(items)))
      && run.downloads == Downloads(items, fetch)
  {
    WalkSpec(pages, 0, ScanOf(existing, nameOf, fetch), []);
    FoldScanSpec(pages, 0, StopIndex(pages), existing, nameOf, fetch, []);
  }
}
