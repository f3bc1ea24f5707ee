/** Committing the new media to an album (`add_media_to_album`, and
    `add_photos_to_album` in the earlier revision): the dict's keys are
    taken in order in slices of 50; every key of a slice is uploaded and
    becomes one new media item; each slice is one batch-create request. */
module Commit {
  import opened Types
  import OM = OrderedMap

  /** `batch_size`. */
  const BatchSize: nat := 50

  /** One entry of `newMediaItems`: description, `simpleMediaItem.fileName`
      and `simpleMediaItem.uploadToken`. A failed upload's token is `None`
      and the item is sent regardless. */
  datatype NewMediaItem = NewMediaItem(description: Option<string>, fileName: string, uploadToken: Option<string>)

  /** One batch-create request body. */
  datatype BatchCreate = BatchCreate(albumId: string, newMediaItems: seq<NewMediaItem>)

  /** `filename_desc_map.get(filename)`: the stored caption, and `None` for
      a missing key as for a key whose caption is `None`. */
  function Description(m: seq<OM.Entry>, k: string): (r: Option<string>)
    ensures k !in OM.Keys(m) ==> r == None
  {
    match OM.Get(m, k)
    case None => None
    case Some(caption) => caption
  }

  function Min(a: int, b: int): int {
    if a <= b then a else b
  }

  /** The number of slices `range(0, n, 50)` yields: n / 50 rounded up. */
  function NumBatches(n: nat): (r: nat)
    ensures r * BatchSize >= n && (r == 0 || (r - 1) * BatchSize < n)
  {
    (n + BatchSize - 1) / BatchSize
  }

  /** `filenames[i : i + 50]` for the c-th slice, i = 50 * c. */
  function BatchKeys(keys: seq<string>, c: nat): seq<string>
    requires c * BatchSize <= |keys|
  {
    keys[c * BatchSize..Min(c * BatchSize + BatchSize, |keys|)]
  }

  /** The item a key becomes, given the token its upload returned. */
  function ItemFor(m: seq<OM.Entry>, k: string, token: Option<string>, prefix: string): NewMediaItem {
    NewMediaItem(Description(m, k), prefix + k, token)
  }

  /** The items of a slice, in order. */
  function Items(m: seq<OM.Entry>, ks: seq<string>, upload: string -> Option<string>, prefix: string): (r: seq<NewMediaItem>)
    ensures |r| == |ks|
  {
    if ks == [] then []
    else Items(m, ks[..|ks| - 1], upload, prefix) + [ItemFor(m, ks[|ks| - 1], upload(ks[|ks| - 1]), prefix)]
  }

  /** The file names of the items, in order. */
  function FileNames(items: seq<NewMediaItem>): (r: seq<string>)
    ensures |r| == |items|
  {
    if items == [] then [] else FileNames(items[..|items| - 1]) + [items[|items| - 1].fileName]
  }

  /** The file names a run of requests commits, in order. */
  function CommittedFileNames(commits: seq<BatchCreate>): seq<string> {
    if commits == [] then []
    else CommittedFileNames(commits[..|commits| - 1]) + FileNames(commits[|commits| - 1].newMediaItems)
  }

  /** `prefix + k` for every key, in order. */
  function Prefixed(prefix: string, ks: seq<string>): (r: seq<string>)
    ensures |r| == |ks|
    ensures forall i :: 0 <= i < |ks| ==> r[i] == prefix + ks[i]
  {
    if ks == [] then [] else Prefixed(prefix, ks[..|ks| - 1]) + [prefix + ks[|ks| - 1]]
  }

  /** Request number c + 1 sends the items of the c-th slice of the keys to
      `albumId`. */
  ghost predicate IsBatch(b: BatchCreate, c: nat, albumId: string, m: seq<OM.Entry>,
                          upload: string -> Option<string>, prefix: string) {
    c * BatchSize <= |m| && b == BatchCreate(albumId, Items(m, BatchKeys(OM.Keys(m), c), upload, prefix))
  }

  lemma AppendBatch(commits: seq<BatchCreate>, b: BatchCreate, albumId: string, m: seq<OM.Entry>,
                    upload: string -> Option<string>, prefix: string)
    requires forall c :: 0 <= c < |commits| ==> IsBatch(commits[c], c, albumId, m, upload, prefix)
    requires IsBatch(b, |commits|, albumId, m, upload, prefix)
    ensures forall c :: 0 <= c < |commits| + 1 ==> IsBatch((commits + [b])[c], c, albumId, m, upload, prefix)
  {
    forall c | 0 <= c < |commits| + 1 ensures IsBatch((commits + [b])[c], c, albumId, m, upload, prefix) {
      if c < |commits| {
        assert (commits + [b])[c] == commits[c];
      }
    }
  }

  /** The batching loop, with `fileName` set to `prefix + filename` (the
      later revision commits the bare filename, the earlier one prefixes
      the downloads directory). `upload` is the upload's outcome per
      filename; `uploads` logs the upload calls. */
  method AddMediaToAlbum(albumId: string, m: seq<OM.Entry>, upload: string -> Option<string>, prefix: string)
    returns (commits: seq<BatchCreate>, uploads: seq<string>)
    ensures |m| == 0 ==> commits == [] && uploads == []
    ensures |commits| == NumBatches(|m|)
    ensures uploads == OM.Keys(m)
    ensures forall c :: 0 <= c < |commits| ==> IsBatch(commits[c], c, albumId, m, upload, prefix)
  {
    var keys := OM.Keys(m);
    commits := [];
    uploads := [];
    if |keys| == 0 {
      return;
    }
    var i := 0;
    while i < |keys|
      invariant i == |commits| * BatchSize
      invariant i <= |keys| + BatchSize - 1
      invariant uploads == keys[..Min(i, |keys|)]
      invariant forall c :: 0 <= c < |commits| ==> IsBatch(commits[c], c, albumId, m, upload, prefix)
    {
      var end := Min(i + BatchSize, |keys|);
      var items, uploaded := UploadBatch(m, keys[i..end], upload, prefix);
      assert keys[..i] + keys[i..end] == keys[..end];
      uploads := uploads + uploaded;
      assert IsBatch(BatchCreate(albumId, items), |commits|, albumId, m, upload, prefix);
      AppendBatch(commits, BatchCreate(albumId, items), albumId, m, upload, prefix);
      commits := commits + [BatchCreate(albumId, items)];
      i := i + BatchSize;
    }
  }

  /** The inner loop: upload each key of the slice, in order, and make its
      item from the token the upload returned. */
  method UploadBatch(m: seq<OM.Entry>, ks: seq<string>, upload: string -> Option<string>, prefix: string)
    returns (items: seq<NewMediaItem>, uploaded: seq<string>)
    ensures items == Items(m, ks, upload, prefix)
    ensures uploaded == ks
  {
    items := [];
    uploaded := [];
    var j := 0;
    while j < |ks|
      invariant j <= |ks|
      invariant items == Items(m, ks[..j], upload, prefix)
      invariant uploaded == ks[..j]
    {
      var token := upload(ks[j]);
      uploaded := uploaded + [ks[j]];
      assert ks[..j + 1][..j] == ks[..j];
      items := items + [ItemFor(m, ks[j], token, prefix)];
      j := j + 1;
    }
    assert ks[..j] == ks;
  }

  /** The slices of `keys` for the first n batches, joined. */
  function JoinBatches(keys: seq<string>, n: nat): seq<string>
    requires n == 0 || (n - 1) * BatchSize <= |keys|
  {
    if n == 0 then [] else JoinBatches(keys, n - 1) + BatchKeys(keys, n - 1)
  }

  /** The first n slices joined are the keys up to position 50 n. */
  lemma {:induction false} JoinedPrefix(keys: seq<string>, n: nat)
    requires n == 0 || (n - 1) * BatchSize <= |keys|
    ensures JoinBatches(keys, n) == keys[..Min(n * BatchSize, |keys|)]
  {
    if n > 0 {
      JoinedPrefix(keys, n - 1);
      assert keys[..(n - 1) * BatchSize] + BatchKeys(keys, n - 1) == keys[..Min(n * BatchSize, |keys|)];
    }
  }

  /** Batching loses, repeats and reorders nothing: the slices joined are
      the key list. */
  lemma BatchesJoinToKeys(keys: seq<string>)
    ensures NumBatches(|keys|) == 0 || (NumBatches(|keys|) - 1) * BatchSize <= |keys|
    ensures JoinBatches(keys, NumBatches(|keys|)) == keys
  {
    JoinedPrefix(keys, NumBatches(|keys|));
  }

  /** Every slice but the last holds 50 keys; the last holds 1 to 50. */
  lemma BatchSizes(keys: seq<string>, c: nat)
    requires c < NumBatches(|keys|)
    ensures c * BatchSize < |keys|
    ensures c + 1 < NumBatches(|keys|) ==> |BatchKeys(keys, c)| == BatchSize
    ensures c + 1 == NumBatches(|keys|) ==> 1 <= |BatchKeys(keys, c)| <= BatchSize
  {
  }

  /** Item t of a slice is key t's, carrying its own upload's token. */
  lemma {:induction false} ItemsAt(m: seq<OM.Entry>, ks: seq<string>, upload: string -> Option<string>, prefix: string)
    ensures forall t :: 0 <= t < |ks| ==>
      Items(m, ks, upload, prefix)[t] == NewMediaItem(Description(m, ks[t]), prefix + ks[t], upload(ks[t]))
    decreases |ks|
  {
    if ks != [] {
      ItemsAt(m, ks[..|ks| - 1], upload, prefix);
    }
  }

  /** With distinct keys, as the feed walk's dict has, every key's item
      carries that key's own caption. */
  lemma {:induction false} DescriptionIsOwnCaption(m: seq<OM.Entry>, j: nat)
    requires OM.Distinct(OM.Keys(m))
    requires j < |m|
    ensures Description(m, m[j].key) == m[j].value
    decreases |m|
  {
    OM.KeysAt(m);
    if j > 0 {
      assert OM.Keys(m[1..]) == OM.Keys(m)[1..];
      assert OM.Get(m, m[j].key) == OM.Get(m[1..], m[j].key);
      DescriptionIsOwnCaption(m[1..], j - 1);
    }
  }

  lemma {:induction false} ItemsFileNames(m: seq<OM.Entry>, ks: seq<string>, upload: string -> Option<string>, prefix: string)
    ensures FileNames(Items(m, ks, upload, prefix)) == Prefixed(prefix, ks)
    decreases |ks|
  {
    if ks != [] {
      ItemsFileNames(m, ks[..|ks| - 1], upload, prefix);
      assert Items(m, ks, upload, prefix)[..|ks| - 1] == Items(m, ks[..|ks| - 1], upload, prefix);
    }
  }

  lemma {:induction false} PrefixedAppend(prefix: string, xs: seq<string>, ys: seq<string>)
    ensures Prefixed(prefix, xs + ys) == Prefixed(prefix, xs) + Prefixed(prefix, ys)
    decreases |ys|
  {
    if ys == [] {
      assert xs + ys == xs;
    } else {
      assert (xs + ys)[..|xs + ys| - 1] == xs + ys[..|ys| - 1];
      PrefixedAppend(prefix, xs, ys[..|ys| - 1]);
    }
  }

  /** The requests of the first n batches commit the prefixed keys of those
      batches. */
  lemma {:induction false} CommittedPrefix(albumId: string, m: seq<OM.Entry>, upload: string -> Option<string>,
                                           prefix: string, commits: seq<BatchCreate>, n: nat)
    requires n <= |commits|
    requires forall c :: 0 <= c < |commits| ==> IsBatch(commits[c], c, albumId, m, upload, prefix)
    requires n == 0 || IsBatch(commits[n - 1], n - 1, albumId, m, upload, prefix)
    ensures CommittedFileNames(commits[..n]) == Prefixed(prefix, JoinBatches(OM.Keys(m), n))
  {
    if n > 0 {
      var keys := OM.Keys(m);
      var batch := BatchKeys(keys, n - 1);
      if n > 1 {
        assert IsBatch(commits[n - 2], n - 2, albumId, m, upload, prefix);
      }
      CommittedPrefix(albumId, m, upload, prefix, commits, n - 1);
      CommittedSnoc(commits, n);
      ItemsFileNames(m, batch, upload, prefix);
      PrefixedAppend(prefix, JoinBatches(keys, n - 1), batch);
    }
  }

  lemma CommittedSnoc(commits: seq<BatchCreate>, n: nat)
    requires 0 < n <= |commits|
    ensures CommittedFileNames(commits[..n]) ==
      CommittedFileNames(commits[..n - 1]) + FileNames(commits[n - 1].newMediaItems)
  {
    assert commits[..n][..n - 1] == commits[..n - 1];
  }

  /** The requests `AddMediaToAlbum` makes commit every key once, in key
      order, under `prefix + key`. */
  lemma CommitsCarryKeys(albumId: string, m: seq<OM.Entry>, upload: string -> Option<string>,
                         prefix: string, commits: seq<BatchCreate>)
    requires |commits| == NumBatches(|m|)
    requires forall c :: 0 <= c < |commits| ==> IsBatch(commits[c], c, albumId, m, upload, prefix)
    ensures CommittedFileNames(commits) == Prefixed(prefix, OM.Keys(m))
  {
    if |commits| > 0 {
      assert IsBatch(commits[|commits| - 1], |commits| - 1, albumId, m, upload, prefix);
    }
    CommittedPrefix(albumId, m, upload, prefix, commits, |commits|);
    assert commits[..|commits|] == commits;
    BatchesJoinToKeys(OM.Keys(m));
  }
}
