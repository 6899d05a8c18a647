/** The shared photo gallery (`pages/Gallery.tsx`): the photo list read from
    the `photos` table, the lightbox with its previous/next buttons, and the
    upload form. The table is passed in as a sequence of rows; the storage
    upload's outcome and public URL are parameters. */
module GalleryPage {
  import opened Wrappers
  import opened Tables
  import opened Cyclic
  import opened SpaceContext
  import opened Uploads

  /** A row of the `photos` table. */
  datatype Photo = Photo(id: string, imageUrl: string, caption: Option<string>,
                         uploadedBy: string, createdAt: int)

  function CreatedAt(p: Photo): int {
    p.createdAt
  }

  /** The row `handleUpload` inserts: the public URL, the caption with "" as
      null, and this space's name as uploader. */
  function NewPhoto(publicUrl: string, caption: string, space: Option<Space>, id: string,
                    now: int): (p: Photo)
    ensures p.imageUrl == publicUrl && p.uploadedBy == DisplayName(space)
    ensures p.caption.None? <==> caption == ""
    ensures p.caption.Some? ==> p.caption.value == caption
  {
    Photo(id, publicUrl, if caption == "" then None else Some(caption), DisplayName(space), now)
  }

  class Gallery {
    /** The photos shown, newest first. */
    var memories: seq<Photo>
    /** The photo open in the lightbox, if any. */
    var selectedIndex: Option<nat>
    var showUploadForm: bool
    /** The upload form (`uploadData`); the preview's data URL is opaque text. */
    var file: Option<PhotoFile>
    var caption: string
    var preview: Option<string>

    /** The lightbox shows `memories[selectedIndex]`, so an open lightbox
        needs its index inside the list. */
    predicate LightboxValid()
      reads this
    {
      selectedIndex.Some? ==> selectedIndex.value < |memories|
    }

    constructor ()
      ensures memories == [] && selectedIndex.None? && !showUploadForm
      ensures file.None? && caption == "" && preview.None?
      ensures LightboxValid()
    {
      memories := [];
      selectedIndex := None;
      showUploadForm := false;
      file := None;
      caption := "";
      preview := None;
    }

    /** `loadPhotos`: every photo, newest first; a failed read keeps the list. */
    method LoadPhotos(table: seq<Photo>, readFails: bool)
      modifies this`memories
      ensures readFails ==> memories == old(memories)
      ensures !readFails ==> memories == SortNewestFirst(table, CreatedAt)
    {
      if !readFails {
        memories := SortNewestFirst(table, CreatedAt);
      }
    }

    /** Clicking a photo opens it. */
    method OpenPhoto(index: nat)
      requires index < |memories|
      modifies this`selectedIndex
      ensures selectedIndex == Some(index) && LightboxValid()
    {
      selectedIndex := Some(index);
    }

    method ClosePhoto()
      modifies this`selectedIndex
      ensures selectedIndex.None? && LightboxValid()
    {
      selectedIndex := None;
    }

    /** `nextPhoto`: one step forward around the list; nothing without an open photo. */
    method NextPhoto()
      requires LightboxValid()
      modifies this`selectedIndex
      ensures old(selectedIndex).None? ==> selectedIndex.None?
      ensures old(selectedIndex).Some? ==>
                selectedIndex == Some(Next(old(selectedIndex).value, |memories|))
      ensures LightboxValid()
    {
      if selectedIndex.Some? {
        selectedIndex := Some(Next(selectedIndex.value, |memories|));
      }
    }

    /** `prevPhoto`: one step back around the list; nothing without an open photo. */
    method PrevPhoto()
      requires LightboxValid()
      modifies this`selectedIndex
      ensures old(selectedIndex).None? ==> selectedIndex.None?
      ensures old(selectedIndex).Some? ==>
                selectedIndex == Some(Prev(old(selectedIndex).value, |memories|))
      ensures LightboxValid()
    {
      if selectedIndex.Some? {
        selectedIndex := Some(Prev(selectedIndex.value, |memories|));
      }
    }

    /** `handleFileChange`: a chosen file replaces the form's file (the
        preview is read asynchronously and left out). */
    method ChooseFile(chosen: Option<PhotoFile>)
      modifies this`file
      ensures chosen.Some? ==> file == chosen
      ensures chosen.None? ==> file == old(file)
    {
      if chosen.Some? {
        file := chosen;
      }
    }

    /** `handleUpload`: nothing without a file or a space. Otherwise the file
        is uploaded, then one photo row is inserted; on success the form is
        reset and closed and the list reloaded (a failed reload keeps the list
        shown), on failure nothing changes.
        `uploaded` is the name stored in the bucket, if the upload went through. */
    method HandleUpload(space: Option<Space>, table: seq<Photo>, id: string, now: nat,
                        uploadFails: bool, publicUrl: string, insertFails: bool,
                        reloadFails: bool)
      returns (table': seq<Photo>, uploaded: Option<string>)
      modifies this`memories, this`file, this`caption, this`preview, this`showUploadForm
      ensures uploaded == if old(file).Some? && space.Some? && !uploadFails
                          then Some(UploadName(DisplayName(space), now, old(file).value.name))
                          else None
      ensures old(file).Some? && space.Some? && !uploadFails && !insertFails ==>
                table' == table + [NewPhoto(publicUrl, old(caption), space, id, now)]
                && file.None? && caption == "" && preview.None? && !showUploadForm
                && memories == (if reloadFails then old(memories) else SortNewestFirst(table', CreatedAt))
      ensures !(old(file).Some? && space.Some? && !uploadFails && !insertFails) ==>
                table' == table && file == old(file) && caption == old(caption)
                && preview == old(preview) && showUploadForm == old(showUploadForm)
                && memories == old(memories)
    {
      table' := table;
      uploaded := None;
      if file.Some? && space.Some? && !uploadFails {
        uploaded := Some(UploadName(DisplayName(space), now, file.value.name));
        if !insertFails {
          table' := table + [NewPhoto(publicUrl, caption, space, id, now)];
          file := None;
          caption := "";
          preview := None;
          showUploadForm := false;
          LoadPhotos(table', reloadFails);
        }
      }
    }
  }

  /** Stepping forward then back, or back then forward, returns to the same photo. */
  lemma StepsUndoEachOther(i: nat, n: nat)
    requires i < n
    ensures Prev(Next(i, n), n) == i && Next(Prev(i, n), n) == i
  {
    PrevUndoesNext(i, n);
    NextUndoesPrev(i, n);
  }
}
