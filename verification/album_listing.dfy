/** Listing the filenames already in an album (`list_media_in_album`, and
    `list_photos_in_album` in the earlier revision): search requests are
    repeated with the previous answer's `nextPageToken` while that token is
    present and non-empty; every answered page's filenames are appended in
    order; a failed request ends the listing with what was gathered. */
module AlbumListing {
  import opened Types

  /** The answer to one search request: a non-200 status, or the page's
      `mediaItems` filenames and its `nextPageToken`. */
  datatype SearchResponse = SearchFail | SearchOk(filenames: seq<string>, nextPageToken: Option<string>)

  /** The answer to request number i + 1; requests past the end fail. */
  function ResponseAt(rs: seq<SearchResponse>, i: nat): SearchResponse {
    if i < |rs| then rs[i] else SearchFail
  }

  /** A page after which the listing asks again: answered, with a token
      that is present and not empty (Python truthiness). */
  predicate HasMore(r: SearchResponse) {
    r.SearchOk? && r.nextPageToken.Some? && r.nextPageToken.value != ""
  }

  /** The filenames a response contributes; a failed one contributes none. */
  function NamesOf(r: SearchResponse): seq<string> {
    if r.SearchOk? then r.filenames else []
  }

  /** Index of the last request the listing makes: the first response that
      failed or carries no usable token. */
  function LastRequest(rs: seq<SearchResponse>): (r: nat)
    ensures r <= |rs|
    ensures forall j :: 0 <= j < r ==> HasMore(rs[j])
    ensures !HasMore(ResponseAt(rs, r))
  {
    LastRequestFrom(rs, 0)
  }

  function LastRequestFrom(rs: seq<SearchResponse>, i: nat): (r: nat)
    requires i <= |rs|
    ensures i <= r <= |rs|
    ensures forall j :: i <= j < r ==> HasMore(rs[j])
    ensures !HasMore(ResponseAt(rs, r))
    decreases |rs| - i
  {
    if i == |rs| || !HasMore(rs[i]) then i else LastRequestFrom(rs, i + 1)
  }

  /** The filenames of the first n responses, in order. */
  function NamesBefore(rs: seq<SearchResponse>, n: nat): seq<string>
    requires n <= |rs|
  {
    if n == 0 then [] else NamesBefore(rs, n - 1) + NamesOf(rs[n - 1])
  }

  /** The listing loop. `tokensSent` is the `pageToken` each request carried
      (`None` for the first). Every response up to the first that stops the
      listing is consumed and no other; the result is their filenames, in
      order, and on a failed request the filenames gathered before it. */
  method ListMediaInAlbum(rs: seq<SearchResponse>) returns (names: seq<string>, tokensSent: seq<Option<string>>)
    ensures var s := LastRequest(rs);
      && names == NamesBefore(rs, s) + NamesOf(ResponseAt(rs, s))
      && (ResponseAt(rs, s).SearchFail? ==> names == NamesBefore(rs, s))
      && |tokensSent| == s + 1
      && tokensSent[0] == None
      && forall j :: 0 <= j < s ==> tokensSent[j + 1] == rs[j].nextPageToken
  {
    names := [];
    tokensSent := [];
    var token: Option<string> := None;
    var i := 0;
    while true
      invariant i <= LastRequest(rs)
      invariant names == NamesBefore(rs, i)
      invariant |tokensSent| == i
      invariant forall j :: 0 < j < i ==> tokensSent[j] == rs[j - 1].nextPageToken
      invariant i > 0 ==> tokensSent[0] == None
      invariant token == if i == 0 then None else rs[i - 1].nextPageToken
      decreases |rs| - i
    {
      tokensSent := tokensSent + [token];
      var r := ResponseAt(rs, i);
      if r.SearchFail? {
        return;
      }
      names := names + r.filenames;
      if HasMore(r) {
        token := r.nextPageToken;
        i := i + 1;
      } else {
        return;
      }
    }
  }

  /** Responses after the last request are never read: extending the
      answers past it changes neither where the listing stops nor what it
      gathers, so `ListMediaInAlbum` returns the same names. */
  lemma LaterResponsesIgnored(rs: seq<SearchResponse>, more: seq<SearchResponse>)
    requires LastRequest(rs) < |rs|
    ensures var s := LastRequest(rs);
      && LastRequest(rs + more) == s
      && NamesBefore(rs + more, s) == NamesBefore(rs, s)
      && ResponseAt(rs + more, s) == ResponseAt(rs, s)
  {
    var s := LastRequest(rs);
    LaterResponsesIgnoredFrom(rs, more, 0);
    NamesBeforeAppend(rs, more, s);
    assert (rs + more)[s] == rs[s];
  }

  lemma {:induction false} LaterResponsesIgnoredFrom(rs: seq<SearchResponse>, more: seq<SearchResponse>, i: nat)
    requires i <= LastRequest(rs) < |rs|
    ensures LastRequestFrom(rs + more, i) == LastRequestFrom(rs, i)
    decreases |rs| - i
  {
    assert (rs + more)[i] == rs[i];
    if i < LastRequest(rs) {
      LaterResponsesIgnoredFrom(rs, more, i + 1);
    }
  }

  /** The names of the first n responses do not depend on later ones. */
  lemma {:induction false} NamesBeforeAppend(rs: seq<SearchResponse>, more: seq<SearchResponse>, n: nat)
    requires n <= |rs|
    ensures NamesBefore(rs + more, n) == NamesBefore(rs, n)
  {
    if n > 0 {
      NamesBeforeAppend(rs, more, n - 1);
      assert (rs + more)[n - 1] == rs[n - 1];
    }
  }
}
