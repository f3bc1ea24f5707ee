# procare-media-syncer: a Dafny model of the reconciliation core

The repository holds two revisions of one script. `procare_downloader.py` is
the earlier one; `procare_media_syncer.py` is the later one. Both copy
childcare-activity photos and videos from the Procare provider feed into a
Google Photos album. A pass runs in three steps:

1. List the filenames the album already holds. The search is repeated with
   `nextPageToken`.
2. Walk the provider's activity feed page by page, starting at page 1, and
   stop at the first empty page. Every photo or video activity gets an
   identity `activity_time + "_" + id + extension`. If the album lacks that
   identity, the media is downloaded and recorded in an insertion-ordered
   filename → caption dict. A failed page abandons the walk and yields
   `None`.
3. Commit the dict's keys in slices of 50. Each key is uploaded once, and
   each slice becomes one batch-create request.

The later revision keeps one album per kid. It maps kid *i* of the provider's
kid list to line *i* of a stored album-id list and creates albums only for
kids past its end. It commits each item under its bare identity. The earlier
revision commits to one fixed album, under the downloads directory joined to
the identity.

All network and file effects are inputs of the model:

- the feed as a sequence of page answers; a page past the end fails;
- the album search as a sequence of responses; a response past the end fails;
- the outcome of each media download, as `fetch: Url -> bool`;
- the upload token each upload returns, as `upload: string -> Option<string>`;
- the album id the service returns for each created album, as
  `createAlbum: (string, nat) -> Option<string>`.

URLs are held already split into their `urlparse` components. The POSIX
rules of `os.path.basename` and `os.path.splitext` are modelled exactly.

The feed walk and its properties take the naming function as a parameter
(`Feed.Naming`). They hold for any function from an activity and its media
URL to a filename. The passes in `Sync` instantiate it with
`Identity.FilenameOf`, the scripts' `get_filename_from_activity`.

Modules, in dependency order:

| module | file | models |
|---|---|---|
| `Types` | `types.dfy` | activities, URLs, `None` |
| `PathRules` | `path_rules.dfy` | `basename`, `splitext`, `str.find`/`rfind` |
| `Identity` | `identity.dfy` | `get_file_ext`, `get_media_url_from_activity`, `get_filename_from_activity` |
| `OrderedMap` | `ordered_map.dfy` | the Python dict's assignment and `get` |
| `Feed` | `feed.dfy` | the feed walk, and its reference definition |
| `FeedProperties` | `feed_properties.dfy` | what the walk promises its caller |
| `AlbumListing` | `album_listing.dfy` | `list_media_in_album` / `list_photos_in_album` |
| `Commit` | `commit.dfy` | `add_media_to_album` / `add_photos_to_album` |
| `KidAlbums` | `kid_albums.dfy` | `create_kid_profiles` |
| `Sync` | `sync.dfy` | one pass of each revision; idempotence |

Where the design description and the code differ, the model follows the code:

- Only a `None` media URL is skipped. An empty URL string is not skipped.
- In the earlier revision, a failed download still records its filename and
  caption in the dict: `download_media` returns `None` on failure, and the
  caller ignores it (`procare_downloader.py:217-221`, `:272-275`). The later
  revision does the same for a video. For a photo it goes on to rewrite the
  EXIF data of the file that was never written, which raises; the model does
  not follow it there (see `Sync.SyncerPass` under "Left out").
- A failed upload still puts its item in the batch, with a `None` token.
- A failed album search ends the listing with the filenames gathered so far.

## Model

| member | source | states |
|---|---|---|
| PathRules.LastIndexOf | procare_media_syncer.py:261-262 | the result is -1 or an index holding the character, and no later index holds it |
| PathRules.Basename | procare_media_syncer.py:261 | the result is the longest '/'-free suffix of the path |
| PathRules.SplitExt | procare_media_syncer.py:262 | root and extension concatenate back to the name; a found extension starts with '.', holds no further '.' or '/', and follows a stem with a character other than '.'; none is found exactly when the name cannot be cut into a stem and an extension, so leading dots never start one |
| Identity.GetFileExt | procare_media_syncer.py:248-269 | the result is always a proper extension; it is `None` exactly for a non-media type whose path has no extension; an extension the path's last component has is the result and ends the path; otherwise a photo gets ".jpg" and a video ".mp4" (earlier revision: procare_downloader.py:192-201) |
| Identity.MediaUrlOf | procare_downloader.py:204-208 | a photo gives `main_url`, a video gives `video_file_url`, any other type gives nothing (inlined in the later revision at procare_media_syncer.py:335-339) |
| Identity.FilenameOf | procare_downloader.py:211-214 | `get_filename_from_activity`; `Identity.ParseIdentityRoundTrip` and `Identity.IdentityInjective` state its contract: for a photo or video activity with a '_'-free timestamp the name parses back to its timestamp, id and extension, so distinct parts give distinct names (later revision, inlined: procare_media_syncer.py:344-345) |
| Identity.ParseIdentity | procare_media_syncer.py:344-345 | a parsed identity reassembles to the name, with a '_'-free timestamp and a one-dot extension |
| Identity.ParseIdentityRoundTrip | procare_media_syncer.py:344-345 | the identity of a photo or video activity with a '_'-free timestamp parses back to its timestamp, id and extension |
| Identity.IdentityInjective | procare_downloader.py:211-214 | two photo or video activities with '_'-free timestamps share an identity only if they agree on timestamp, id and extension |
| Identity.IdentityCollidesWhenTimestampHasUnderscore | procare_downloader.py:211-214 | with '_' in a timestamp, two activities with different ids can share an identity |
| OrderedMap.Get | procare_media_syncer.py:206 | `get` finds a value exactly for a present key, and that value is the key's entry |
| OrderedMap.PutSpec | procare_media_syncer.py:357 | the key list grows by the key only when it is new; the key reads back the new value; every other key is unchanged |
| OrderedMap.Dedup | procare_media_syncer.py:357 | the same elements, each once |
| OrderedMap.DedupKeepsFirstOccurrenceOrder | procare_media_syncer.py:357 | deduplicated keys keep the order of their first occurrence |
| OrderedMap.LastValue | procare_media_syncer.py:357 | a key has a value exactly when it was assigned, and that pair was assigned |
| OrderedMap.LastValueIsLast | procare_media_syncer.py:357 | the value is the one of the last assignment to the key: the assignment after which the key is not assigned again |
| OrderedMap.PutAllKeys | procare_media_syncer.py:357 | after assigning pairs to an empty dict, its keys are the assigned keys, deduplicated in first-assignment order |
| OrderedMap.PutAllGet | procare_media_syncer.py:357 | a key reads back its last assigned value; unassigned keys keep their old value |
| OrderedMap.PutAllAppend | procare_media_syncer.py:334-357 | assigning two runs of pairs one after the other equals assigning their concatenation |
| Feed.StopIndex | procare_media_syncer.py:315-330 | every page before the stopping page is non-empty and answered; the stopping page failed or is empty |
| Feed.NewItemOf | procare_media_syncer.py:334-347 | an activity yields an item only through its media URL, and never under an identity the album holds (earlier revision: procare_downloader.py:262-269) |
| Feed.NewMediaFresh | procare_media_syncer.py:346-347 | no new item carries an identity the album holds |
| Feed.NewMediaSound | procare_media_syncer.py:334-357 | every new item is the media, identity and caption of some activity of the feed |
| Feed.NewMediaComplete | procare_media_syncer.py:334-357 | every activity with a media URL whose identity the album lacks yields its item |
| Feed.NewMediaAppend | procare_media_syncer.py:334-357 | new media of concatenated activity lists is the concatenation of their new media |
| Feed.ScanIsFold | procare_media_syncer.py:334-357 | the inner loop over one page assigns the page's new items to the dict in order and downloads each once |
| Feed.WalkSpec | procare_media_syncer.py:315-359 | the outer loop requests every page up to the stopping page and scans those before it; a failed stopping page discards the dict |
| Feed.FoldScanSpec | procare_media_syncer.py:315-359 | scanning pages one after another folds in the new media of their activities in feed order |
| Feed.ReadNewMedia | procare_media_syncer.py:296-361 | `procare_download_new_media`; `Feed.ReadNewMediaSpec` states its contract: the pages requested, `None` exactly on a failed stopping page, otherwise the reference dict, and the downloads (earlier revision: procare_downloader.py:235-279) |
| Feed.ReadNewMediaSpec | procare_media_syncer.py:312-361 | pages 1 to s+1 are requested; the result is `None` exactly when page s+1 failed; otherwise it is the reference dict; the downloads are the reference downloads (earlier revision: procare_downloader.py:240-279) |
| FeedProperties.ReadNewMediaKeys | procare_media_syncer.py:357-361 | the dict's keys are the new identities of the scanned pages, each once, in first-occurrence order |
| FeedProperties.ReadNewMediaCaptions | procare_media_syncer.py:356-357 | each key holds the caption of the last activity that produced it |
| FeedProperties.BringsMeans | procare_media_syncer.py:334-347 | an activity brings an identity exactly when it is a photo or video with a media URL, the identity is its own, and the album lacks it |
| FeedProperties.NewMediaNames | procare_media_syncer.py:334-357 | an identity is among the new media exactly when some activity brings it |
| FeedProperties.ReadNewMediaKeySources | procare_media_syncer.py:334-361 | a name is a key of the dict exactly when some activity of the scanned pages brings it |
| FeedProperties.ReadNewMediaFresh | procare_media_syncer.py:346-347 | no key of the dict is already in the album |
| FeedProperties.DownloadsAreKeys | procare_downloader.py:271-275 | one download per new item, and every downloaded filename is a key of the dict |
| FeedProperties.ResultIgnoresDownloadOutcomes | procare_downloader.py:217-221 | download failures change neither the dict nor the pages requested, and the same files are attempted |
| FeedProperties.NothingNewLeft | procare_media_syncer.py:346-347 | an album holding every identity an activity could add yields no new media |
| FeedProperties.SecondWalkFindsNothing | procare_media_syncer.py:312-361 | once the album holds the first walk's keys, a second walk finds an empty dict and downloads nothing |
| FeedProperties.NewMediaSameVerdicts | procare_media_syncer.py:346-347 | the new media depend on the album only through which of the activities' identities it holds |
| FeedProperties.WalkRepeats | procare_media_syncer.py:312-361 | album names that are not keys of the first walk's dict change nothing: a second walk finds the same dict and attempts as many downloads |
| AlbumListing.LastRequest | procare_media_syncer.py:390-394 | every response before the last request carries a non-empty token; the last one failed or carries none |
| AlbumListing.ListMediaInAlbum | procare_media_syncer.py:377-399 | the result is every answered page's filenames in order; on a failure, those gathered before it; the first request has no token and each later one carries the previous answer's token (earlier revision: procare_downloader.py:291-315) |
| AlbumListing.LaterResponsesIgnored | procare_media_syncer.py:391-397 | responses after the last request change neither where the listing stops, nor the names gathered before it, nor the response it stops at |
| Commit.Description | procare_media_syncer.py:206 | a missing key gets no description |
| Commit.NumBatches | procare_media_syncer.py:201 | `range(0, n, 50)` has n/50 rounded up slices |
| Commit.Prefixed | procare_downloader.py:158 | name i is the prefix joined to key i, one per key |
| Commit.AddMediaToAlbum | procare_media_syncer.py:188-211 | an empty dict sends nothing; there is one request per slice; every key is uploaded once, in key order; request c carries the items of slice c (earlier revision: procare_downloader.py:138-166) |
| Commit.UploadBatch | procare_media_syncer.py:203-211 | each key of the slice is uploaded in order and becomes its item, with its own upload's token |
| Commit.BatchesJoinToKeys | procare_media_syncer.py:201-203 | the slices joined are exactly the key list |
| Commit.BatchSizes | procare_media_syncer.py:201-203 | every slice but the last holds 50 keys; the last holds 1 to 50 |
| Commit.ItemsAt | procare_media_syncer.py:203-211 | item t of a slice carries key t's description, file name and upload token |
| Commit.DescriptionIsOwnCaption | procare_media_syncer.py:206 | with distinct keys, each key's item carries that key's own caption |
| Commit.ItemsFileNames | procare_media_syncer.py:208 | the items' file names are the slice's keys under the prefix |
| Commit.CommitsCarryKeys | procare_media_syncer.py:201-211 | all requests together commit every key once, in key order (earlier revision: procare_downloader.py:151-166) |
| KidAlbums.StoredIds | procare_media_syncer.py:420-421 | one album id per stored line, in order |
| KidAlbums.CreateKidProfiles | procare_media_syncer.py:423-434 | kid i gets album id i; stored ids are an unchanged prefix; albums are created only past the stored list, in kid order; the final list has max(stored, kids) entries |
| Sync.SyncPass | procare_media_syncer.py:455-465 | the listed names are every answered search page's filenames up to the last request; the walk runs against them; a failed walk commits nothing; otherwise every key is uploaded once and committed under the prefix, no uploaded key was listed, and every request goes to the album |
| Sync.CommitAll | procare_media_syncer.py:465 | every key is uploaded and committed once, in key order, to the given album |
| Sync.SyncerPass | procare_media_syncer.py:455-465 | the later revision lists the kid's album, walks against it, and commits the bare keys to that album |
| Sync.DownloaderPass | procare_downloader.py:318-326 | the earlier revision lists the fixed album, walks against it, and commits the keys under the downloads directory to that album |
| Sync.SecondPassFindsNothing | procare_media_syncer.py:455-465 | for any naming function: after a pass commits bare identities, a second pass over the same feed finds and downloads nothing |
| Sync.OnePhotoWalk | procare_media_syncer.py:334-357 | for any naming function: a one-photo feed against an album lacking the photo's identity yields one key and one download |
| Sync.PrefixedNameIsNew | procare_downloader.py:158 | a key committed under a non-empty prefix is not listed under its own name |
| Sync.DownloaderSecondPassRefetches | procare_downloader.py:151-166 | for any naming function: on the one-photo feed, the earlier revision's second pass finds the photo new again and downloads it again |
| Sync.DownloaderSecondPassRepeats | procare_downloader.py:151-166 | on any feed whose identities do not begin with the downloads directory, the earlier revision's second pass finds the first pass's dict again and downloads as many files again |

## Left out

- OAuth and credential handling (`authenticate_with_google_photos`, `authenticate_with_procare`): foreign library calls and credential files.
- HTTP and JSON. Every response is an input; status codes are reduced to failed or answered.
- File I/O: writing downloads, reading upload bytes, and reading and rewriting the album-id file. Only the list transformation of `create_kid_profiles` is modelled.
- EXIF rewriting (`update_photo_exif_data`), the `touch` subprocess and `mimetypes.guess_type`: external libraries and OS effects.
- `urlparse`: a URL is held as its components; only the path is used.
- The `datetime.today()` cutoff sent with each feed request: a parameter the feed answers already reflect.
- Printing and the `__main__` wiring, except the order list → walk → commit that `Sync` follows.
- The earlier revision's hard-coded kid id in the feed request: the feed answers stand for it.
- `create_album`'s request, and the undefined `print_error` it calls on failure: `createAlbum` returns the id the answer holds, or `None`.
- The global `photos_creds` used instead of `creds` for uploads: credentials are not modelled.
- A failed kids request is not checked by the script, which then reads the failed answer; the model takes the kid list as given.
- An album id of `None` is written back to the file as the text "None"; file contents are not modelled.
- A search result whose media item has no `filename` lists `None`; the model lists strings only.
- Sync.SyncPass: when the walk returns `None`, the script never reaches its commit step. It raises a `TypeError` at the print of `len(filename_desc_map)` (`procare_media_syncer.py:463`, `procare_downloader.py:324`), and the uncaught error ends the whole run, so the later revision processes no further kid. The model's pass commits nothing and ends; the loop over kids is not modelled, so neither is the end of the run.
- Sync.SyncerPass: in the later revision a failed photo download leaves no file. `update_photo_exif_data` then opens that missing file (`procare_media_syncer.py:350-354`, `:71`) and raises, which ends the run. The model keeps the key and commits it, as the script does after a failed video download.
- Identity.FilenameOf: appends nothing when `get_file_ext` gives `None`, where the script would raise on concatenating `None`. This case is unreachable, because only photo and video activities have a media URL, and `GetFileExt` always gives an extension for those.
- Sync.AlbumAfter: assumes the album lists each committed item under the `fileName` it was given, and that every upload and commit succeeds.

## Findings

| source | as written | input that shows it | evidently intended | confidence | as-written member | corrected member |
|---|---|---|---|---|---|---|
| procare_downloader.py:151-166 | the earlier revision commits `fileName = DOWNLOADS_DIR + filename` but de-duplicates the next pass against bare identities | a feed with one photo (`Sync.DownloaderSecondPassRefetches`); after the first pass the album lists the prefixed name, so the second pass finds the photo new again and downloads and re-uploads it; on any feed every item comes back | commit under the bare identity, as the later revision does, so a second pass finds nothing | not executed; assumes the album lists each item under the `fileName` it was given | Sync.DownloaderSecondPassRepeats | Sync.SecondPassFindsNothing |
