/** The photo endpoints (`backend/routers/photos.py`): the couple's photos
    newest first, uploading a photo attributed to the current user, and
    deleting a photo either partner uploaded. */
module PhotosApi {
  import opened Wrappers
  import opened Tables
  import opened Database

  datatype PhotoCreate = PhotoCreate(imageBase64: string, caption: string, date: string)

  const PhotoLimit: nat := 1000
  const PhotoMissing := "Photo not found"
  const NotOurs := "You can only delete photos from your relationship"
  const PhotoDeleted := "Photo deleted successfully"

  /** Photos uploaded by the user or by the partner. */
  function CouplePhoto(current: CurrentUser): Photo -> bool {
    (p: Photo) => OfCouple(current, p.uploadedBy)
  }

  /** `get_photos`: the couple's photos, newest first, at most 1000; all of
      them when there are no more. */
  method GetPhotos(db: Db, current: CurrentUser) returns (r: seq<Photo>)
    ensures |r| <= PhotoLimit && NewestFirst(r, PhotoCreatedAt)
    ensures forall i :: 0 <= i < |r| ==> r[i] in db.photos && OfCouple(current, r[i].uploadedBy)
    ensures |Filter(db.photos, CouplePhoto(current))| <= PhotoLimit ==>
              multiset(r) == multiset(Filter(db.photos, CouplePhoto(current)))
  {
    r := Query(db.photos, CouplePhoto(current), PhotoCreatedAt, PhotoLimit);
    QuerySpec(db.photos, CouplePhoto(current), PhotoCreatedAt, PhotoLimit);
  }

  /** `upload_photo`: the uploader's id and display name come from the token;
      the photo is added to the table. */
  method UploadPhoto(db: Db, req: PhotoCreate, current: CurrentUser, id: string, now: int)
    returns (r: Photo)
    modifies db`photos
    ensures r.uploadedBy == current.id && r.uploaderName == current.displayName
    ensures r.imageBase64 == req.imageBase64 && r.caption == req.caption && r.date == req.date
    ensures r.id == id && r.createdAt == now
    ensures db.photos == old(db.photos) + [r]
  {
    r := Photo(id, req.imageBase64, req.caption, req.date, current.id, current.displayName, now);
    db.photos := db.photos + [r];
  }

  /** A photo newer than every stored one heads the listing of the uploader
      and, once linked, of the uploader's partner. */
  lemma NewPhotoListedFirst(photos: seq<Photo>, p: Photo, current: CurrentUser)
    requires OfCouple(current, p.uploadedBy)
    requires forall x :: x in photos ==> x.createdAt < p.createdAt
    ensures var listed := Query(photos + [p], CouplePhoto(current), PhotoCreatedAt, PhotoLimit);
            |listed| > 0 && listed[0] == p
  {
    NewestAfterInsert(photos, p, CouplePhoto(current), PhotoCreatedAt);
    QueryStartsWithNewest(photos + [p], CouplePhoto(current), PhotoCreatedAt, PhotoLimit);
  }

  /** Linked partners see the same photo listing. */
  lemma PartnersSeeSamePhotos(photos: seq<Photo>, a: CurrentUser, b: CurrentUser)
    requires Linked(a, b)
    ensures Query(photos, CouplePhoto(a), PhotoCreatedAt, PhotoLimit)
            == Query(photos, CouplePhoto(b), PhotoCreatedAt, PhotoLimit)
  {
    forall x | x in photos ensures CouplePhoto(a)(x) == CouplePhoto(b)(x) {
      LinkedCoupleAgrees(a, b, x.uploadedBy);
    }
    FilterAgrees(photos, CouplePhoto(a), CouplePhoto(b));
  }

  /** `delete_photo`: 404 for an unknown photo and 403 for a photo neither
      partner uploaded, both without change; otherwise exactly that photo is
      removed and the others keep their order. */
  method DeletePhoto(db: Db, photoId: string, current: CurrentUser) returns (r: Outcome<string>)
    modifies db`photos
    ensures (forall p :: p in old(db.photos) ==> p.id != photoId) ==>
              r == Error(NotFound, PhotoMissing) && db.photos == old(db.photos)
    ensures var found := First(old(db.photos), KeyIs(PhotoId, photoId));
            found.Some? && !OfCouple(current, found.value.uploadedBy) ==>
              r == Error(Forbidden, NotOurs) && db.photos == old(db.photos)
    ensures var found := First(old(db.photos), KeyIs(PhotoId, photoId));
            found.Some? && OfCouple(current, found.value.uploadedBy) ==>
              r == Ok(PhotoDeleted)
              && db.photos == RemoveFirst(old(db.photos), KeyIs(PhotoId, photoId))
              && multiset(db.photos) + multiset{found.value} == multiset(old(db.photos))
              && (UniqueKeys(old(db.photos), PhotoId) ==> forall p :: p in db.photos ==> p.id != photoId)
  {
    var found := First(db.photos, KeyIs(PhotoId, photoId));
    FirstIndexSpec(db.photos, KeyIs(PhotoId, photoId));
    FirstSpec(db.photos, KeyIs(PhotoId, photoId));
    if found.None? {
      return Error(NotFound, PhotoMissing);
    }
    assert PhotoId(found.value) == photoId;
    if !OfCouple(current, found.value.uploadedBy) {
      return Error(Forbidden, NotOurs);
    }
    RemoveFirstSpec(db.photos, KeyIs(PhotoId, photoId), FirstIndex(db.photos, KeyIs(PhotoId, photoId)).value);
    if UniqueKeys(db.photos, PhotoId) {
      RemoveFirstByKey(db.photos, PhotoId, photoId);
    }
    db.photos := RemoveFirst(db.photos, KeyIs(PhotoId, photoId));
    r := Ok(PhotoDeleted);
  }
}
