/** Kid -> album assignment (`create_kid_profiles`, later revision only):
    the stored album ids are read one per line; kid i of the provider's
    list gets album id i, and an album is created for a kid only when the
    stored list has no entry at its index. The list written back is the
    stored one extended by the created ids. */
module KidAlbums {
  import opened Types

  /** One entry of the provider's `kids` list: `id` and `first_name`. */
  datatype Kid = Kid(id: string, firstName: string)

  /** `KidProfile(kid_id, name, album_id)`. */
  datatype KidProfile = KidProfile(kidId: string, name: string, albumId: Option<string>)

  function Max(a: int, b: int): int {
    if a >= b then a else b
  }

  /** The stored lines as album ids. */
  function StoredIds(lines: seq<string>): (r: seq<Option<string>>)
    ensures |r| == |lines|
    ensures forall i :: 0 <= i < |lines| ==> r[i] == Some(lines[i])
  {
    if lines == [] then [] else [Some(lines[0])] + StoredIds(lines[1..])
  }

  /** The profile loop. `createAlbum(name, i)` is the id the album service
      returns (`None` when its answer has no id) for the album created for
      kid `name` as entry i of the list; `created` logs the names albums
      were created for. */
  method CreateKidProfiles(kids: seq<Kid>, stored: seq<string>, createAlbum: (string, nat) -> Option<string>)
    returns (profiles: seq<KidProfile>, albumIds: seq<Option<string>>, created: seq<string>)
    ensures |albumIds| == Max(|stored|, |kids|)
    ensures forall i :: 0 <= i < |stored| ==> albumIds[i] == Some(stored[i])
    ensures forall i :: |stored| <= i < |kids| ==> albumIds[i] == createAlbum(kids[i].firstName, i)
    ensures |profiles| == |kids|
    ensures forall i :: 0 <= i < |kids| ==> profiles[i] == KidProfile(kids[i].id, kids[i].firstName, albumIds[i])
    ensures |created| == Max(0, |kids| - |stored|)
    ensures forall j :: 0 <= j < |created| ==> created[j] == kids[|stored| + j].firstName
  {
    albumIds := StoredIds(stored);
    profiles := [];
    created := [];
    var index := 0;
    while index < |kids|
      invariant index <= |kids|
      invariant |albumIds| == Max(|stored|, index)
      invariant forall i :: 0 <= i < |stored| ==> albumIds[i] == Some(stored[i])
      invariant forall i :: |stored| <= i < index ==> albumIds[i] == createAlbum(kids[i].firstName, i)
      invariant |profiles| == index
      invariant forall i :: 0 <= i < index ==> profiles[i] == KidProfile(kids[i].id, kids[i].firstName, albumIds[i])
      invariant |created| == Max(0, index - |stored|)
      invariant forall j :: 0 <= j < |created| ==> created[j] == kids[|stored| + j].firstName
    {
      var kidName := kids[index].firstName;
      if index + 1 > |albumIds| {
        albumIds := albumIds + [createAlbum(kidName, |albumIds|)];
        created := created + [kidName];
      }
      profiles := profiles + [KidProfile(kids[index].id, kidName, albumIds[index])];
      index := index + 1;
    }
  }
}
