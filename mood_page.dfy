/** The mood page (`pages/MoodEnhanced.tsx`): choosing one of eight moods,
    an optional note and photo, sharing the mood, the mood history and the
    latest mood of each partner. The `moods` table is passed in as a sequence
    of rows; the photo upload's outcome and public URL are parameters. */
module MoodPage {
  import opened Wrappers
  import opened Text
  import opened Tables
  import opened SpaceContext
  import opened Realtime
  import opened Uploads

  /** A row of the `moods` table. */
  datatype Mood = Mood(id: string, userName: string, emoji: string, moodLabel: string,
                       color: string, note: Option<string>, photoUrl: Option<string>,
                       createdAt: int)

  /** One of the offered moods (`romanticMoods`). */
  datatype MoodChoice = MoodChoice(emoji: string, moodLabel: string, color: string)

  const RomanticMoods: seq<MoodChoice> := [
    MoodChoice("\U{1F60D}", "In Love", "#ec4899"),
    MoodChoice("\U{1F970}", "Blissful", "#f472b6"),
    MoodChoice("\U{1F618}", "Missing You", "#fb923c"),
    MoodChoice("\U{1F495}", "Grateful", "#c084fc"),
    MoodChoice("\U{1F60A}", "Happy", "#fbbf24"),
    MoodChoice("\U{1F319}", "Dreamy", "#6366f1"),
    MoodChoice("\U{2728}", "Excited", "#22d3ee"),
    MoodChoice("\U{1F917}", "Cozy", "#a78bfa")
  ]

  const DefaultColor: string := "#ec4899"
  const MaxNoteLength: nat := 500
  const MaxPhotoBytes: nat := 5 * 1024 * 1024
  const HistoryLimit: nat := 20

  function CreatedAt(m: Mood): int {
    m.createdAt
  }

  function ByAuthor(name: string): Mood -> bool {
    (m: Mood) => m.userName == name
  }

  /** The note check: an empty note always passes, any other at most 500
      UTF-16 code units (`note.length`). */
  predicate NoteAccepted(note: string) {
    !(note != "" && Utf16Length(note) > MaxNoteLength)
  }

  /** The photo check: no photo, or one of at most 5 MiB. */
  predicate PhotoAccepted(photo: Option<PhotoFile>) {
    !(photo.Some? && photo.value.size > MaxPhotoBytes)
  }

  lemma NoteBoundary(note: string)
    ensures NoteAccepted(note) <==> Utf16Length(note) <= 500
    ensures NoteAccepted("")
  {
  }

  /** Emoji count twice: 300 hearts make 600 code units and are refused,
      250 hearts make exactly 500 and pass. */
  lemma EmojiNoteCountsTwice()
    ensures !NoteAccepted(seq(300, _ => '\U{1F495}'))
    ensures NoteAccepted(seq(250, _ => '\U{1F495}'))
  {
    Utf16LengthAstral(seq(300, _ => '\U{1F495}'));
    Utf16LengthAstral(seq(250, _ => '\U{1F495}'));
  }

  lemma PhotoBoundary(name: string, size: nat)
    ensures PhotoAccepted(Some(PhotoFile(name, size))) <==> size <= 5242880
    ensures PhotoAccepted(None)
  {
  }

  /** What the photo is uploaded as, if there is one. */
  function PhotoUpload(space: Option<Space>, now: nat, photo: Option<PhotoFile>): (r: Option<string>)
    ensures r.Some? <==> photo.Some?
  {
    if photo.Some? then Some(UploadName(DisplayName(space), now, photo.value.name)) else None
  }

  /** The checks `handleSubmitMood` makes before writing anything. */
  predicate SubmitAccepted(selected: Option<nat>, space: Option<Space>, note: string,
                           photo: Option<PhotoFile>) {
    selected.Some? && space.Some? && NoteAccepted(note) && PhotoAccepted(photo)
  }

  /** Whether `handleSubmitMood` ends with a new row. */
  predicate Inserted(selected: Option<nat>, space: Option<Space>, note: string,
                     photo: Option<PhotoFile>, uploadFails: bool, insertFails: bool) {
    SubmitAccepted(selected, space, note, photo) && !(photo.Some? && uploadFails) && !insertFails
  }

  /** The row `handleSubmitMood` inserts. */
  function NewMood(space: Option<Space>, choice: nat, color: string, note: string,
                   photoUrl: Option<string>, id: string, now: int): (m: Mood)
    requires choice < |RomanticMoods|
    ensures m.userName == DisplayName(space)
    ensures m.emoji == RomanticMoods[choice].emoji && m.moodLabel == RomanticMoods[choice].moodLabel
    ensures m.color == color && m.photoUrl == photoUrl
    ensures m.note.None? <==> note == ""
    ensures m.note.Some? ==> m.note.value == note
  {
    Mood(id, DisplayName(space), RomanticMoods[choice].emoji, RomanticMoods[choice].moodLabel,
         color, if note == "" then None else Some(note), photoUrl, now)
  }

  class MoodPage {
    var selectedMood: Option<nat>
    var selectedColor: string
    var note: string
    var photoFile: Option<PhotoFile>
    var photoPreview: Option<string>
    /** The history shown: at most 20 moods, newest first. */
    var moods: seq<Mood>
    var myLatestMood: Option<Mood>
    var partnerLatestMood: Option<Mood>

    constructor ()
      ensures selectedMood.None? && selectedColor == DefaultColor && note == ""
      ensures photoFile.None? && photoPreview.None?
      ensures moods == [] && myLatestMood.None? && partnerLatestMood.None?
    {
      selectedMood := None;
      selectedColor := DefaultColor;
      note := "";
      photoFile := None;
      photoPreview := None;
      moods := [];
      myLatestMood := None;
      partnerLatestMood := None;
    }

    /** `loadMoods`: the 20 newest moods; a failed read keeps the history. */
    method LoadMoods(table: seq<Mood>, readFails: bool)
      modifies this`moods
      ensures readFails ==> moods == old(moods)
      ensures !readFails ==> moods == Take(SortNewestFirst(table, CreatedAt), HistoryLimit)
      ensures |moods| <= HistoryLimit || moods == old(moods)
    {
      if !readFails {
        moods := Take(SortNewestFirst(table, CreatedAt), HistoryLimit);
      }
    }

    /** `loadLatestMoods`: each partner's newest mood, overwriting the shown one
        only when that partner has a mood. The two reads are separate
        queries; a failed one returns no row, so it keeps that side only. */
    method LoadLatestMoods(space: Option<Space>, table: seq<Mood>, myReadFails: bool, partnerReadFails: bool)
      modifies this`myLatestMood, this`partnerLatestMood
      ensures myReadFails ==> myLatestMood == old(myLatestMood)
      ensures partnerReadFails ==> partnerLatestMood == old(partnerLatestMood)
      ensures !myReadFails ==>
                var mine := Newest(table, ByAuthor(DisplayName(space)), CreatedAt);
                myLatestMood == if mine.Some? then mine else old(myLatestMood)
      ensures !partnerReadFails ==>
                var theirs := Newest(table, ByAuthor(PartnerName(space)), CreatedAt);
                partnerLatestMood == if theirs.Some? then theirs else old(partnerLatestMood)
    {
      if !myReadFails {
        var mine := Newest(table, ByAuthor(DisplayName(space)), CreatedAt);
        if mine.Some? {
          myLatestMood := mine;
        }
      }
      if !partnerReadFails {
        var theirs := Newest(table, ByAuthor(PartnerName(space)), CreatedAt);
        if theirs.Some? {
          partnerLatestMood := theirs;
        }
      }
    }

    /** The realtime callback: reloads the history and both latest moods, each
        read on its own; reports whether the "New mood update" toast is shown. */
    method OnMoodChange(space: Option<Space>, ev: ChangeEvent, table: seq<Mood>,
                        historyFails: bool, myReadFails: bool, partnerReadFails: bool)
      returns (notify: bool)
      modifies this`moods, this`myLatestMood, this`partnerLatestMood
      ensures notify <==> ev.kind == Insert && ev.author != DisplayName(space)
      ensures moods == if historyFails then old(moods)
                       else Take(SortNewestFirst(table, CreatedAt), HistoryLimit)
      ensures var mine := Newest(table, ByAuthor(DisplayName(space)), CreatedAt);
              myLatestMood == if myReadFails || mine.None? then old(myLatestMood) else mine
      ensures var theirs := Newest(table, ByAuthor(PartnerName(space)), CreatedAt);
              partnerLatestMood == if partnerReadFails || theirs.None? then old(partnerLatestMood) else theirs
    {
      LoadMoods(table, historyFails);
      LoadLatestMoods(space, table, myReadFails, partnerReadFails);
      notify := ShouldNotify(ev, DisplayName(space));
    }

    /** `handleSubmitMood`. Without a chosen mood or a space, with a note over
        500 characters or a photo over 5 MiB nothing happens. Otherwise the
        photo, if any, is uploaded first (a failed upload ends the submit),
        then one mood is inserted; on success the form is reset and both views
        reloaded, each by its own read (a failed read keeps what it would have replaced). `uploaded` is the name stored in the photo bucket, if any. */
    method HandleSubmitMood(space: Option<Space>, table: seq<Mood>, id: string, now: nat,
                            uploadFails: bool, publicUrl: string, insertFails: bool,
                            historyReloadFails: bool, myReloadFails: bool, partnerReloadFails: bool)
      returns (table': seq<Mood>, uploaded: Option<string>)
      requires selectedMood.Some? ==> selectedMood.value < |RomanticMoods|
      modifies this`selectedMood, this`note, this`photoFile, this`photoPreview, this`selectedColor
      modifies this`moods, this`myLatestMood, this`partnerLatestMood
      ensures uploaded == if SubmitAccepted(old(selectedMood), space, old(note), old(photoFile))
                                && !uploadFails
                             then PhotoUpload(space, now, old(photoFile)) else None
      ensures Inserted(old(selectedMood), space, old(note), old(photoFile), uploadFails, insertFails) ==>
                table' == table + [NewMood(space, old(selectedMood).value, old(selectedColor), old(note),
                                           if old(photoFile).Some? then Some(publicUrl) else None, id, now)]
                && selectedMood.None? && note == "" && photoFile.None? && photoPreview.None?
                && selectedColor == DefaultColor
                && moods == (if historyReloadFails then old(moods)
                             else Take(SortNewestFirst(table', CreatedAt), HistoryLimit))
      ensures Inserted(old(selectedMood), space, old(note), old(photoFile), uploadFails, insertFails) ==>
                var mine := Newest(table', ByAuthor(DisplayName(space)), CreatedAt);
                myLatestMood == (if myReloadFails || mine.None? then old(myLatestMood) else mine)
      ensures Inserted(old(selectedMood), space, old(note), old(photoFile), uploadFails, insertFails) ==>
                var theirs := Newest(table', ByAuthor(PartnerName(space)), CreatedAt);
                partnerLatestMood == (if partnerReloadFails || theirs.None? then old(partnerLatestMood) else theirs)
      ensures !Inserted(old(selectedMood), space, old(note), old(photoFile), uploadFails, insertFails) ==>
                table' == table && selectedMood == old(selectedMood) && note == old(note)
                && photoFile == old(photoFile) && photoPreview == old(photoPreview)
                && selectedColor == old(selectedColor) && moods == old(moods)
                && myLatestMood == old(myLatestMood) && partnerLatestMood == old(partnerLatestMood)
    {
      table' := table;
      uploaded := None;
      if SubmitAccepted(selectedMood, space, note, photoFile) && !(photoFile.Some? && uploadFails) {
        uploaded := PhotoUpload(space, now, photoFile);
        var photoUrl: Option<string> := if photoFile.Some? then Some(publicUrl) else None;
        if !insertFails {
          table' := table + [NewMood(space, selectedMood.value, selectedColor, note, photoUrl, id, now)];
          selectedMood := None;
          note := "";
          photoFile := None;
          photoPreview := None;
          selectedColor := DefaultColor;
          LoadMoods(table', historyReloadFails);
          LoadLatestMoods(space, table', myReloadFails, partnerReloadFails);
        }
      }
    }
  }

  /** After sharing, the new mood is the sharer's latest as long as it is newer
      than every earlier mood of theirs. */
  lemma SharedMoodBecomesLatest(table: seq<Mood>, m: Mood)
    requires forall x :: x in table && x.userName == m.userName ==> x.createdAt < m.createdAt
    ensures Newest(table + [m], ByAuthor(m.userName), CreatedAt) == Some(m)
  {
    NewestAfterInsert(table, m, ByAuthor(m.userName), CreatedAt);
  }
}
