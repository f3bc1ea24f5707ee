/** What the feed walk promises its caller, derived from `ReadNewMediaSpec`:
    the keys of the returned dict, their captions and order, where they
    come from, and what a second walk over the same feed finds. */
module FeedProperties {
  import opened Types
  import opened Identity
  import OM = OrderedMap
  import opened Feed

  /** The identities of the items, in order. */
  function Filenames(items: seq<NewItem>): (r: seq<string>)
    ensures |r| == |items|
  {
    if items == [] then [] else [items[0].filename] + Filenames(items[1..])
  }

  lemma {:induction false} FilenamesAt(items: seq<NewItem>)
    ensures forall i :: 0 <= i < |items| ==> Filenames(items)[i] == items[i].filename
    decreases |items|
  {
    if items != [] {
      FilenamesAt(items[1..]);
    }
  }

  lemma {:induction false} PairsFirsts(items: seq<NewItem>)
    ensures OM.Firsts(Pairs(items)) == Filenames(items)
    decreases |items|
  {
    if items != [] {
      PairsFirsts(items[1..]);
      assert Pairs(items)[1..] == Pairs(items[1..]);
    }
  }

  lemma {:induction false} DownloadsAt(items: seq<NewItem>, fetch: Url -> bool)
    ensures forall i :: 0 <= i < |items| ==>
      Downloads(items, fetch)[i] == Download(items[i].url, items[i].filename, fetch(items[i].url))
    decreases |items|
  {
    if items != [] {
      DownloadsAt(items[1..], fetch);
    }
  }

  /** The new media of the pages the walk scanned. */
  function WalkItems(pages: seq<PageResult>, existing: seq<string>, nameOf: Naming): seq<NewItem> {
    NewMedia(Flatten(pages, 0, StopIndex(pages)), existing, nameOf)
  }

  /** The keys of the returned dict are the identities of the new media of
      the scanned pages, each once, in the order of its first occurrence. */
  lemma ReadNewMediaKeys(pages: seq<PageResult>, existing: seq<string>, nameOf: Naming, fetch: Url -> bool)
    ensures var run := ReadNewMedia(pages, existing, nameOf, fetch);
      run.result.Some? ==>
        && OM.Keys(run.result.value) == OM.Dedup(Filenames(WalkItems(pages, existing, nameOf)))
        && OM.Distinct(OM.Keys(run.result.value))
  {
    ReadNewMediaSpec(pages, existing, nameOf, fetch);
    var items := WalkItems(pages, existing, nameOf);
    OM.PutAllKeys(Pairs(items));
    PairsFirsts(items);
  }

  /** Each key holds the caption of the last activity that produced it. */
  lemma ReadNewMediaCaptions(pages: seq<PageResult>, existing: seq<string>, nameOf: Naming, fetch: Url -> bool, k: string)
    ensures var run := ReadNewMedia(pages, existing, nameOf, fetch);
      run.result.Some? ==> OM.Get(run.result.value, k) == OM.LastValue(Pairs(WalkItems(pages, existing, nameOf)), k)
  {
    ReadNewMediaSpec(pages, existing, nameOf, fetch);
    OM.PutAllGet([], Pairs(WalkItems(pages, existing, nameOf)), k);
  }

  /** Activity `a` brings the new identity `k`. */
  ghost predicate Brings(a: Activity, existing: seq<string>, nameOf: Naming, k: string) {
    NewItemOf(a, existing, nameOf).Some? && NewItemOf(a, existing, nameOf).value.filename == k
  }

  /** What bringing an identity means: `a` is a photo or video activity
      with a media URL, `k` is its identity, and the album lacks `k`. */
  lemma BringsMeans(a: Activity, existing: seq<string>, nameOf: Naming, k: string)
    ensures Brings(a, existing, nameOf, k) <==>
      IsMediaType(a.activityType) && MediaUrlOf(a).Some? && nameOf(a, MediaUrlOf(a).value) == k && k !in existing
  {
  }

  lemma {:induction false} NewMediaNames(acts: seq<Activity>, existing: seq<string>, nameOf: Naming, k: string)
    ensures k in Filenames(NewMedia(acts, existing, nameOf)) <==> exists a :: a in acts && Brings(a, existing, nameOf, k)
    decreases |acts|
  {
    if acts != [] {
      NewMediaNames(acts[1..], existing, nameOf, k);
      var here := NewItemOf(acts[0], existing, nameOf);
      var rest := NewMedia(acts[1..], existing, nameOf);
      var names := Filenames(NewMedia(acts, existing, nameOf));
      assert names == (if here.Some? then [here.value.filename] else []) + Filenames(rest) by {
        if here.Some? {
          assert ([here.value] + rest)[1..] == rest;
        }
      }
      if k in names {
        if k in Filenames(rest) {
          var a :| a in acts[1..] && Brings(a, existing, nameOf, k);
          InTail(acts, a);
        } else {
          assert Brings(acts[0], existing, nameOf, k);
        }
      }
      if exists a :: a in acts && Brings(a, existing, nameOf, k) {
        var a :| a in acts && Brings(a, existing, nameOf, k);
        if a != acts[0] {
          TailHolds(acts, a);
        }
      }
    }
  }

  lemma InTail(acts: seq<Activity>, a: Activity)
    requires acts != [] && a in acts[1..]
    ensures a in acts
  {
    var i :| 0 <= i < |acts[1..]| && acts[1..][i] == a;
    assert acts[i + 1] == a;
  }

  lemma TailHolds(acts: seq<Activity>, a: Activity)
    requires a in acts && a != acts[0]
    ensures a in acts[1..]
  {
    var i :| 0 <= i < |acts| && acts[i] == a;
    assert acts[1..][i - 1] == a;
  }

  /** A name is a key of the returned dict exactly when some activity of
      the scanned pages brings it: a photo or video activity with a media
      URL whose identity it is, and which the album lacks. */
  lemma ReadNewMediaKeySources(pages: seq<PageResult>, existing: seq<string>, nameOf: Naming, fetch: Url -> bool, k: string)
    ensures var run := ReadNewMedia(pages, existing, nameOf, fetch);
      run.result.Some? ==>
        (k in OM.Keys(run.result.value) <==> exists a :: a in Flatten(pages, 0, StopIndex(pages)) && Brings(a, existing, nameOf, k))
  {
    ReadNewMediaKeys(pages, existing, nameOf, fetch);
    NewMediaNames(Flatten(pages, 0, StopIndex(pages)), existing, nameOf, k);
  }

  /** No key of the returned dict is already in the album. */
  lemma ReadNewMediaFresh(pages: seq<PageResult>, existing: seq<string>, nameOf: Naming, fetch: Url -> bool)
    ensures var run := ReadNewMedia(pages, existing, nameOf, fetch);
      run.result.Some? ==> forall k :: k in OM.Keys(run.result.value) ==> k !in existing
  {
    var run := ReadNewMedia(pages, existing, nameOf, fetch);
    if run.result.Some? {
      forall k | k in OM.Keys(run.result.value) ensures k !in existing {
        ReadNewMediaKeySources(pages, existing, nameOf, fetch, k);
        var a :| a in Flatten(pages, 0, StopIndex(pages)) && Brings(a, existing, nameOf, k);
        BringsMeans(a, existing, nameOf, k);
      }
    }
  }

  /** Every attempted download is of a new item, and its filename is a key
      of the returned dict whether or not the download succeeded. */
  lemma DownloadsAreKeys(pages: seq<PageResult>, existing: seq<string>, nameOf: Naming, fetch: Url -> bool)
    ensures var run := ReadNewMedia(pages, existing, nameOf, fetch);
      && |run.downloads| == |WalkItems(pages, existing, nameOf)|
      && (run.result.Some? ==> forall i :: 0 <= i < |run.downloads| ==>
            run.downloads[i].filename in OM.Keys(run.result.value))
  {
    var run := ReadNewMedia(pages, existing, nameOf, fetch);
    var items := WalkItems(pages, existing, nameOf);
    ReadNewMediaSpec(pages, existing, nameOf, fetch);
    ReadNewMediaKeys(pages, existing, nameOf, fetch);
    DownloadsAt(items, fetch);
    FilenamesAt(items);
    if run.result.Some? {
      forall i | 0 <= i < |run.downloads| ensures run.downloads[i].filename in OM.Keys(run.result.value) {
        assert run.downloads[i].filename == Filenames(items)[i];
      }
    }
  }

  /** Download outcomes decide nothing: the dict and the pages requested do
      not depend on them, and the same files are attempted. */
  lemma ResultIgnoresDownloadOutcomes(pages: seq<PageResult>, existing: seq<string>, nameOf: Naming, f: Url -> bool, g: Url -> bool)
    ensures var r1 := ReadNewMedia(pages, existing, nameOf, f);
      var r2 := ReadNewMedia(pages, existing, nameOf, g);
      && r1.result == r2.result
      && r1.pagesRequested == r2.pagesRequested
      && |r1.downloads| == |r2.downloads|
      && forall i :: 0 <= i < |r1.downloads| ==>
           r1.downloads[i].filename == r2.downloads[i].filename && r1.downloads[i].url == r2.downloads[i].url
  {
    var items := WalkItems(pages, existing, nameOf);
    ReadNewMediaSpec(pages, existing, nameOf, f);
    ReadNewMediaSpec(pages, existing, nameOf, g);
    DownloadsAt(items, f);
    DownloadsAt(items, g);
  }

  /** An album that already holds every identity an activity could add
      yields no new media. */
  lemma {:induction false} NothingNewLeft(acts: seq<Activity>, existing: seq<string>, later: seq<string>, nameOf: Naming)
    requires forall x :: x in existing ==> x in later
    requires forall a :: a in acts && NewItemOf(a, existing, nameOf).Some? ==> NewItemOf(a, existing, nameOf).value.filename in later
    ensures NewMedia(acts, later, nameOf) == []
    decreases |acts|
  {
    if acts != [] {
      assert acts[0] in acts;
      NothingNewLeft(acts[1..], existing, later, nameOf);
    }
  }

  /** Idempotence: once the album holds the first walk's keys (and what it
      held before), a second walk over the same feed finds nothing and
      downloads nothing. */
  lemma SecondWalkFindsNothing(pages: seq<PageResult>, existing: seq<string>, later: seq<string>, nameOf: Naming,
                               fetch: Url -> bool, fetch': Url -> bool)
    requires ReadNewMedia(pages, existing, nameOf, fetch).result.Some?
    requires forall x :: x in existing ==> x in later
    requires forall x :: x in OM.Keys(ReadNewMedia(pages, existing, nameOf, fetch).result.value) ==> x in later
    ensures ReadNewMedia(pages, later, nameOf, fetch').result == Some([])
    ensures ReadNewMedia(pages, later, nameOf, fetch').downloads == []
  {
    var acts := Flatten(pages, 0, StopIndex(pages));
    forall a | a in acts && NewItemOf(a, existing, nameOf).Some?
      ensures NewItemOf(a, existing, nameOf).value.filename in later
    {
      var k := NewItemOf(a, existing, nameOf).value.filename;
      assert Brings(a, existing, nameOf, k);
      ReadNewMediaKeySources(pages, existing, nameOf, fetch, k);
    }
    NothingNewLeft(acts, existing, later, nameOf);
    ReadNewMediaSpec(pages, existing, nameOf, fetch);
    ReadNewMediaSpec(pages, later, nameOf, fetch');
    assert Pairs([]) == [];
  }

  /** The new media depend on the album only through which identities of
      the activities it holds. */
  lemma {:induction false} NewMediaSameVerdicts(acts: seq<Activity>, existing: seq<string>, later: seq<string>, nameOf: Naming)
    requires forall a :: a in acts && MediaUrlOf(a).Some? ==>
      (nameOf(a, MediaUrlOf(a).value) in existing <==> nameOf(a, MediaUrlOf(a).value) in later)
    ensures NewMedia(acts, later, nameOf) == NewMedia(acts, existing, nameOf)
    decreases |acts|
  {
    if acts != [] {
      assert acts[0] in acts;
      forall a | a in acts[1..] ensures a in acts {
        InTail(acts, a);
      }
      NewMediaSameVerdicts(acts[1..], existing, later, nameOf);
    }
  }

  /** Names added to the album that are not keys of the first walk's dict
      change nothing: a second walk over the same feed finds the same dict
      again and attempts as many downloads. */
  lemma WalkRepeats(pages: seq<PageResult>, existing: seq<string>, extra: seq<string>, nameOf: Naming,
                    fetch: Url -> bool, fetch': Url -> bool)
    requires ReadNewMedia(pages, existing, nameOf, fetch).result.Some?
    requires forall x :: x in extra ==> x !in OM.Keys(ReadNewMedia(pages, existing, nameOf, fetch).result.value)
    ensures ReadNewMedia(pages, existing + extra, nameOf, fetch').result == ReadNewMedia(pages, existing, nameOf, fetch).result
    ensures |ReadNewMedia(pages, existing + extra, nameOf, fetch').downloads| == |ReadNewMedia(pages, existing, nameOf, fetch).downloads|
  {
    var acts := Flatten(pages, 0, StopIndex(pages));
    var later := existing + extra;
    forall a | a in acts && MediaUrlOf(a).Some?
      ensures nameOf(a, MediaUrlOf(a).value) in existing <==> nameOf(a, MediaUrlOf(a).value) in later
    {
      var k := nameOf(a, MediaUrlOf(a).value);
      if k !in existing {
        assert Brings(a, existing, nameOf, k);
        ReadNewMediaKeySources(pages, existing, nameOf, fetch, k);
      }
    }
    NewMediaSameVerdicts(acts, existing, later, nameOf);
    ReadNewMediaSpec(pages, existing, nameOf, fetch);
    ReadNewMediaSpec(pages, later, nameOf, fetch');
  }
}
