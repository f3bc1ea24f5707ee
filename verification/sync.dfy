/** One sync pass of each revision: list the album, walk the feed against
    the listed filenames, commit the new media. The later revision
    (`procare_media_syncer.py`) commits each item under its bare identity
    to the kid's album; the earlier one (`procare_downloader.py`) commits
    to one fixed album under the downloads directory joined to the
    identity, while it still de-duplicates against bare identities. */
module Sync {
  import opened Types
  import Identity
  import OM = OrderedMap
  import opened Feed
  import opened FeedProperties
  import opened Commit
  import opened AlbumListing

  /** `DOWNLOADS_DIR` of both revisions. */
  const DownloadsDir: string := "/home/homeassistant/procare-syncer/downloads/"

  /** `PHOTOS_ALBUM_ID` of the earlier revision. */
  const PhotosAlbumId: string := "AG1aZA-O5Vqaepq4ot53MSqAjUfJROPKiITAqRtAdQALnONFKx3cR_8WS6SMmv6Vqwm0ZHz5WYnJ"

  /** What a pass did: the filenames it listed, the feed walk, the
      batch-create requests and the upload calls. */
  datatype Pass = Pass(listed: seq<string>, run: FeedRun, commits: seq<BatchCreate>, uploads: seq<string>)

  /** A pass of either revision, committing under `prefix + identity` to
      `albumId`. A failed feed walk commits nothing (the script raises on
      the missing dict before its commit step, which ends the run). */
  method SyncPass(albumId: string, prefix: string, listing: seq<SearchResponse>, pages: seq<PageResult>,
                  fetch: Url -> bool, upload: string -> Option<string>)
    returns (p: Pass)
    ensures var s := LastRequest(listing); p.listed == NamesBefore(listing, s) + NamesOf(ResponseAt(listing, s))
    ensures p.run == ReadNewMedia(pages, p.listed, Identity.FilenameOf, fetch)
    ensures p.run.result.None? ==> p.commits == [] && p.uploads == []
    ensures p.run.result.Some? ==>
      && p.uploads == OM.Keys(p.run.result.value)
      && CommittedFileNames(p.commits) == Prefixed(prefix, OM.Keys(p.run.result.value))
      && (forall k :: k in p.uploads ==> k !in p.listed)
    ensures forall c :: 0 <= c < |p.commits| ==> p.commits[c].albumId == albumId
  {
    var listed, _ := ListMediaInAlbum(listing);
    var run := ReadNewMedia(pages, listed, Identity.FilenameOf, fetch);
    if run.result.None? {
      return Pass(listed, run, [], []);
    }
    var commits, uploads := CommitAll(albumId, prefix, run.result.value, upload);
    ReadNewMediaFresh(pages, listed, Identity.FilenameOf, fetch);
    p := Pass(listed, run, commits, uploads);
  }

  /** The commit stage of a pass: every key uploaded once and committed
      once, in key order, under `prefix + key`, to `albumId`. */
  method CommitAll(albumId: string, prefix: string, m: seq<OM.Entry>, upload: string -> Option<string>)
    returns (commits: seq<BatchCreate>, uploads: seq<string>)
    ensures uploads == OM.Keys(m)
    ensures CommittedFileNames(commits) == Prefixed(prefix, OM.Keys(m))
    ensures forall c :: 0 <= c < |commits| ==> commits[c].albumId == albumId
    ensures m == [] ==> commits == []
  {
    commits, uploads := AddMediaToAlbum(albumId, m, upload, prefix);
    CommitsCarryKeys(albumId, m, upload, prefix, commits);
    forall c | 0 <= c < |commits| ensures commits[c].albumId == albumId {
      assert IsBatch(commits[c], c, albumId, m, upload, prefix);
    }
  }

  /** The later revision's pass for one kid: bare identities, the kid's album. */
  method SyncerPass(albumId: string, listing: seq<SearchResponse>, pages: seq<PageResult>,
                    fetch: Url -> bool, upload: string -> Option<string>)
    returns (p: Pass)
    ensures var s := LastRequest(listing); p.listed == NamesBefore(listing, s) + NamesOf(ResponseAt(listing, s))
    ensures p.run == ReadNewMedia(pages, p.listed, Identity.FilenameOf, fetch)
    ensures p.run.result.Some? ==> CommittedFileNames(p.commits) == OM.Keys(p.run.result.value)
    ensures forall c :: 0 <= c < |p.commits| ==> p.commits[c].albumId == albumId
  {
    p := SyncPass(albumId, "", listing, pages, fetch, upload);
    if p.run.result.Some? {
      BarePrefix(OM.Keys(p.run.result.value));
    }
  }

  /** The earlier revision's pass: the fixed album, names under the
      downloads directory. */
  method DownloaderPass(listing: seq<SearchResponse>, pages: seq<PageResult>,
                        fetch: Url -> bool, upload: string -> Option<string>)
    returns (p: Pass)
    ensures var s := LastRequest(listing); p.listed == NamesBefore(listing, s) + NamesOf(ResponseAt(listing, s))
    ensures p.run == ReadNewMedia(pages, p.listed, Identity.FilenameOf, fetch)
    ensures p.run.result.Some? ==> CommittedFileNames(p.commits) == Prefixed(DownloadsDir, OM.Keys(p.run.result.value))
    ensures forall c :: 0 <= c < |p.commits| ==> p.commits[c].albumId == PhotosAlbumId
  {
    p := SyncPass(PhotosAlbumId, DownloadsDir, listing, pages, fetch, upload);
  }

  lemma {:induction false} BarePrefix(ks: seq<string>)
    ensures Prefixed("", ks) == ks
    decreases |ks|
  {
    if ks != [] {
      BarePrefix(ks[..|ks| - 1]);
      assert "" + ks[|ks| - 1] == ks[|ks| - 1];
      assert ks[..|ks| - 1] + [ks[|ks| - 1]] == ks;
    }
  }

  /** The album's filenames once a pass has committed the walk's dict
      under `prefix`: what was listed, then the committed names, assuming
      every upload and commit succeeds and the service lists each item
      under the `fileName` it was given. */
  function AlbumAfter(listed: seq<string>, m: seq<OM.Entry>, prefix: string): (r: seq<string>)
    ensures forall x :: x in listed ==> x in r
  {
    listed + Prefixed(prefix, OM.Keys(m))
  }

  /** Bare identities make passes idempotent: once a successful walk's dict
      is committed under its bare keys, a second walk over the same feed
      finds nothing new and downloads nothing. Stated for any naming, so in
      particular for `Identity.FilenameOf`. */
  lemma SecondPassFindsNothing(pages: seq<PageResult>, listed: seq<string>, nameOf: Naming,
                               fetch: Url -> bool, fetch': Url -> bool)
    requires ReadNewMedia(pages, listed, nameOf, fetch).result.Some?
    ensures var m := ReadNewMedia(pages, listed, nameOf, fetch).result.value;
      var again := ReadNewMedia(pages, AlbumAfter(listed, m, ""), nameOf, fetch');
      again.result == Some([]) && again.downloads == []
  {
    var m := ReadNewMedia(pages, listed, nameOf, fetch).result.value;
    BarePrefix(OM.Keys(m));
    SecondWalkFindsNothing(pages, listed, AlbumAfter(listed, m, ""), nameOf, fetch, fetch');
  }

  /** A feed of one page holding one photo activity, then an empty page. */
  function OnePhotoFeed(): seq<PageResult> {
    [PageOk([OnePhoto()]), PageOk([])]
  }

  function OnePhotoUrl(): Url {
    Url("https", "host", "/p/photo.jpg", "")
  }

  function OnePhoto(): Activity {
    Activity("1", PhotoActivity, "t", Activiable(Some(OnePhotoUrl()), None, None))
  }

  /** The photo's identity under `nameOf`. */
  function OnePhotoName(nameOf: Naming): string {
    nameOf(OnePhoto(), OnePhotoUrl())
  }

  /** Walking the one-photo feed against an album that lacks the photo's
      identity records it and downloads it. */
  lemma OnePhotoWalk(existing: seq<string>, nameOf: Naming, fetch: Url -> bool)
    requires OnePhotoName(nameOf) !in existing
    ensures ReadNewMedia(OnePhotoFeed(), existing, nameOf, fetch).result == Some([OM.Entry(OnePhotoName(nameOf), None)])
    ensures |ReadNewMedia(OnePhotoFeed(), existing, nameOf, fetch).downloads| == 1
  {
    var item := NewItem(OnePhotoName(nameOf), None, OnePhotoUrl());
    OnePhotoItems(existing, nameOf);
    assert OM.PutAll([], Pairs([item])) == [OM.Entry(OnePhotoName(nameOf), None)] by {
      assert Pairs([item]) == [(OnePhotoName(nameOf), None)];
    }
    ReadNewMediaSpec(OnePhotoFeed(), existing, nameOf, fetch);
  }

  lemma OnePhotoItems(existing: seq<string>, nameOf: Naming)
    requires OnePhotoName(nameOf) !in existing
    ensures PageAt(OnePhotoFeed(), StopIndex(OnePhotoFeed())).PageOk?
    ensures WalkItems(OnePhotoFeed(), existing, nameOf) == [NewItem(OnePhotoName(nameOf), None, OnePhotoUrl())]
  {
    var item := NewItem(OnePhotoName(nameOf), None, OnePhotoUrl());
    OnePhotoStops();
    assert NewItemOf(OnePhoto(), existing, nameOf) == Some(item);
    assert NewMedia([OnePhoto()], existing, nameOf) == [item] by {
      assert [OnePhoto()][1..] == [];
    }
  }

  lemma OnePhotoStops()
    ensures StopIndex(OnePhotoFeed()) == 1 && OnePhotoFeed()[1].PageOk?
    ensures Flatten(OnePhotoFeed(), 0, 1) == [OnePhoto()]
  {
    var pages := OnePhotoFeed();
    assert Continues(pages[0]) && !Continues(pages[1]);
    assert Flatten(pages, 1, 1) == [];
  }

  /** The earlier revision as written: after its pass commits the photo
      under the downloads directory, the album lists that longer name, so a
      second walk finds the photo new again and downloads it again. This
      holds whatever the naming, so in particular for `Identity.FilenameOf`. */
  lemma DownloaderSecondPassRefetches(nameOf: Naming, fetch: Url -> bool, fetch': Url -> bool)
    ensures var m := ReadNewMedia(OnePhotoFeed(), [], nameOf, fetch).result;
      && m == Some([OM.Entry(OnePhotoName(nameOf), None)])
      && var again := ReadNewMedia(OnePhotoFeed(), AlbumAfter([], m.value, DownloadsDir), nameOf, fetch');
         again.result == m && |again.downloads| == 1
  {
    var name := OnePhotoName(nameOf);
    OnePhotoWalk([], nameOf, fetch);
    assert |DownloadsDir| > 0;
    PrefixedNameIsNew(name, DownloadsDir);
    OnePhotoWalk(AlbumAfter([], [OM.Entry(name, None)], DownloadsDir), nameOf, fetch');
  }

  /** A key committed under a non-empty prefix is not listed under its
      own name. */
  lemma PrefixedNameIsNew(name: string, prefix: string)
    requires prefix != []
    ensures name !in AlbumAfter([], [OM.Entry(name, None)], prefix)
  {
    assert OM.Keys([OM.Entry(name, None)]) == [name];
    assert Prefixed(prefix, [name]) == [prefix + name];
    assert AlbumAfter([], [OM.Entry(name, None)], prefix) == [prefix + name];
    assert |prefix + name| > |name|;
  }

  /** The earlier revision as written, on any feed: when no identity begins
      with the downloads directory (an identity begins with its activity's
      timestamp), a second pass over the same feed finds every item of the
      first pass new again, so it downloads and uploads them all again. */
  lemma DownloaderSecondPassRepeats(pages: seq<PageResult>, listed: seq<string>, nameOf: Naming,
                                    fetch: Url -> bool, fetch': Url -> bool)
    requires ReadNewMedia(pages, listed, nameOf, fetch).result.Some?
    requires forall k :: k in OM.Keys(ReadNewMedia(pages, listed, nameOf, fetch).result.value) ==> !(DownloadsDir <= k)
    ensures var first := ReadNewMedia(pages, listed, nameOf, fetch);
      var again := ReadNewMedia(pages, AlbumAfter(listed, first.result.value, DownloadsDir), nameOf, fetch');
      again.result == first.result && |again.downloads| == |first.downloads|
  {
    var m := ReadNewMedia(pages, listed, nameOf, fetch).result.value;
    var extra := Prefixed(DownloadsDir, OM.Keys(m));
    forall x | x in extra ensures x !in OM.Keys(m) {
      var i :| 0 <= i < |extra| && extra[i] == x;
      assert DownloadsDir <= x;
    }
    WalkRepeats(pages, listed, extra, nameOf, fetch, fetch');
  }
}
