/** The list logic of the photo store (utils/photoStorage.ts). The stored
    metadata list is a value; copying and deleting image files, and the
    file sizes behind `totalSize`, are left out. The two `Date.now()`
    readings of `savePhoto` (one for the id, one for the timestamp) and the
    document directory are parameters. */
module PhotoStorage {
  import opened Wrappers
  import SeqUtil
  import Text

  datatype StoredPhoto = StoredPhoto(
    id: string,
    uri: string,
    timestamp: int,
    filter: Option<string>,
    rotation: Option<int>)

  /** At most this many records are kept. */
  const MaxPhotos: nat := 50

  /** `photo_${Date.now()}`. */
  function PhotoId(idClock: nat): (id: string)
    ensures |id| > 6 && id[..6] == "photo_" && id[6..] == Text.DecimalString(idClock)
  {
    "photo_" + Text.DecimalString(idClock)
  }

  /** The metadata record `savePhoto` builds; its uri is the document
      directory followed by the id and ".jpg". */
  function NewRecord(documentDirectory: string, idClock: nat, savedAt: int, filter: Option<string>, rotation: Option<int>): (p: StoredPhoto)
    ensures p.id == PhotoId(idClock)
    ensures p.uri == documentDirectory + PhotoId(idClock) + ".jpg"
    ensures p.timestamp == savedAt && p.filter == filter && p.rotation == rotation
  {
    var id := PhotoId(idClock);
    StoredPhoto(id, documentDirectory + id + ".jpg", savedAt, filter, rotation)
  }

  /** The list stored after `savePhoto`: append, then `slice(-50)`. */
  function Append(photos: seq<StoredPhoto>, p: StoredPhoto): (r: seq<StoredPhoto>)
    ensures |r| <= MaxPhotos
    ensures |r| <= |photos| + 1
    ensures |r| > 0 && r[|r| - 1] == p
    ensures |photos| < MaxPhotos ==> r == photos + [p]
    ensures |photos| >= MaxPhotos ==> |r| == MaxPhotos && r[..|r| - 1] == photos[|photos| - (MaxPhotos - 1)..]
  {
    var all := photos + [p];
    var r := SeqUtil.JsSlice(all, -(MaxPhotos as int), |all|);
    assert |all| <= MaxPhotos ==> r == all;
    assert |all| > MaxPhotos ==> r == all[|all| - MaxPhotos..];
    r
  }

  /** `savePhoto`: the new list and the returned local uri. */
  function SavePhoto(photos: seq<StoredPhoto>, documentDirectory: string, idClock: nat, savedAt: int,
                     filter: Option<string>, rotation: Option<int>): (r: (seq<StoredPhoto>, string))
    ensures var rec := NewRecord(documentDirectory, idClock, savedAt, filter, rotation);
      r.0 == Append(photos, rec) && r.1 == rec.uri
  {
    var rec := NewRecord(documentDirectory, idClock, savedAt, filter, rotation);
    (Append(photos, rec), rec.uri)
  }

  /** Saving to a full store drops exactly the oldest record. */
  lemma SaveToFullDropsOldest(photos: seq<StoredPhoto>, p: StoredPhoto)
    requires |photos| == MaxPhotos
    ensures Append(photos, p) == photos[1..] + [p]
  {
    var r := Append(photos, p);
    assert r[..|r| - 1] == photos[1..];
    assert r == r[..|r| - 1] + [r[|r| - 1]];
  }

  /** Whatever the starting list, repeated saves never hold more than 50
      records, and the newest record is always last. */
  lemma {:induction false} SavesStayBounded(photos: seq<StoredPhoto>, news: seq<StoredPhoto>)
    requires |news| > 0
    ensures var r := SaveAll(photos, news); 0 < |r| <= MaxPhotos && r[|r| - 1] == news[|news| - 1]
    decreases |news|
  {
    if |news| > 1 {
      SavesStayBounded(Append(photos, news[0]), news[1..]);
    }
  }

  /** Appends several records in turn. */
  function SaveAll(photos: seq<StoredPhoto>, news: seq<StoredPhoto>): seq<StoredPhoto>
    decreases |news|
  {
    if |news| == 0 then photos else SaveAll(Append(photos, news[0]), news[1..])
  }

  /** `getAllPhotos`: the stored list, or [] when nothing is stored. */
  function GetAllPhotos(stored: Option<seq<StoredPhoto>>): (r: seq<StoredPhoto>)
    ensures stored.None? ==> r == []
    ensures stored.Some? ==> r == stored.value
  {
    match stored
    case None => []
    case Some(photos) => photos
  }

  /** `deletePhoto`: an unknown id leaves the list as it is; otherwise every
      record with that id goes and the rest keep their order. */
  function DeletePhoto(photos: seq<StoredPhoto>, photoId: string): (r: seq<StoredPhoto>)
    ensures (forall k :: 0 <= k < |photos| ==> photos[k].id != photoId) ==> r == photos
    ensures forall k :: 0 <= k < |r| ==> r[k].id != photoId && r[k] in photos
    ensures forall k :: 0 <= k < |photos| && photos[k].id != photoId ==> photos[k] in r
    ensures SeqUtil.IsSubsequence(r, photos)
    ensures forall k :: 0 <= k < |photos| && photos[k].id != photoId ==> multiset(r)[photos[k]] == multiset(photos)[photos[k]]
  {
    if SeqUtil.Find(photos, (p: StoredPhoto) => p.id == photoId).None? then
      SeqUtil.SubsequenceReflexive(photos);
      photos
    else SeqUtil.Filter(photos, (p: StoredPhoto) => p.id != photoId)
  }

  /** Deleting twice is deleting once. */
  lemma DeleteIdempotent(photos: seq<StoredPhoto>, photoId: string)
    ensures DeletePhoto(DeletePhoto(photos, photoId), photoId) == DeletePhoto(photos, photoId)
  {
  }

  /** `clearAllPhotos` removes the entry, which `getAllPhotos` then reads
      as the empty list. */
  function ClearAllPhotos(): (stored: Option<seq<StoredPhoto>>)
    ensures GetAllPhotos(stored) == []
  {
    None
  }

  /** `getStorageInfo().count`. The file system is asked about each stored
      photo's uri in turn; `infoThrows(uri)` says whether that call throws,
      and the first throw sends the whole function to its catch, which
      reports a count of 0. */
  function StorageCount(stored: Option<seq<StoredPhoto>>, infoThrows: string -> bool): (n: nat)
    ensures (forall k :: 0 <= k < |GetAllPhotos(stored)| ==> !infoThrows(GetAllPhotos(stored)[k].uri)) ==>
      n == |GetAllPhotos(stored)|
    ensures (exists k :: 0 <= k < |GetAllPhotos(stored)| && infoThrows(GetAllPhotos(stored)[k].uri)) ==>
      n == 0
    ensures stored.None? ==> n == 0
  {
    var photos := GetAllPhotos(stored);
    if SeqUtil.FindIndex(photos, (p: StoredPhoto) => infoThrows(p.uri)) == -1 then |photos| else 0
  }
}
