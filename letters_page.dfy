/** The love-letters page (`pages/Letters.tsx`): the letter list read from the
    `letters` table, the write form with its validation, sending a letter, and
    the reaction to realtime changes. The remote table is passed in as a
    sequence of rows and the table after a write is returned. */
module LettersPage {
  import opened Wrappers
  import opened Text
  import opened Tables
  import opened SpaceContext
  import opened Realtime

  /** A row of the `letters` table; `createdAt` orders rows in time. */
  datatype Letter = Letter(id: string, title: string, content: string,
                           fromUser: string, toUser: string, createdAt: int)

  /** The write form (`newLetter`). */
  datatype Draft = Draft(title: string, content: string)

  /** What is wrong with the title, if anything. */
  datatype TitleError = TitleOk | TitleRequired | TitleTooLong

  /** What is wrong with the content, if anything. */
  datatype ContentError = ContentOk | ContentRequired | ContentTooShort | ContentTooLong

  /** The per-field messages (`errors`). */
  datatype FormErrors = FormErrors(title: TitleError, content: ContentError)

  const NoErrors: FormErrors := FormErrors(TitleOk, ContentOk)
  const EmptyDraft: Draft := Draft("", "")

  /** The text shown under the title field; "" for no error. */
  function TitleMessage(e: TitleError): string {
    match e
    case TitleOk => ""
    case TitleRequired => "Title is required"
    case TitleTooLong => "Title must be less than 100 characters"
  }

  /** The text shown under the content field; "" for no error. */
  function ContentMessage(e: ContentError): string {
    match e
    case ContentOk => ""
    case ContentRequired => "Content is required"
    case ContentTooShort => "Content must be at least 10 characters"
    case ContentTooLong => "Content must be less than 5000 characters"
  }

  /** Only the absence of an error shows no message. */
  lemma MessagesDistinguishErrors(t: TitleError, c: ContentError)
    ensures TitleMessage(t) == "" <==> t == TitleOk
    ensures ContentMessage(c) == "" <==> c == ContentOk
  {
  }

  function CreatedAt(l: Letter): int {
    l.createdAt
  }

  /** The title check: required (`trim()` leaves something, i.e. not blank),
      then at most 100 UTF-16 code units, counted on the untrimmed title. */
  function CheckTitle(title: string): (e: TitleError)
    ensures e == TitleOk <==> !IsBlank(title) && Utf16Length(title) <= 100
    ensures e == TitleRequired <==> IsBlank(title)
  {
    if IsBlank(title) then TitleRequired
    else if Utf16Length(title) > 100 then TitleTooLong
    else TitleOk
  }

  /** The content check: required (not blank), then between 10 and 5000
      UTF-16 code units, counted on the untrimmed content. */
  function CheckContent(content: string): (e: ContentError)
    ensures e == ContentOk <==> !IsBlank(content) && 10 <= Utf16Length(content) <= 5000
    ensures e == ContentRequired <==> IsBlank(content)
    ensures e == ContentTooShort <==> !IsBlank(content) && Utf16Length(content) < 10
  {
    if IsBlank(content) then ContentRequired
    else if Utf16Length(content) < 10 then ContentTooShort
    else if Utf16Length(content) > 5000 then ContentTooLong
    else ContentOk
  }

  /** `validateForm`'s result: each field is checked on its own. */
  function Validate(d: Draft): FormErrors {
    FormErrors(CheckTitle(d.title), CheckContent(d.content))
  }

  /** The form is valid exactly when neither field has an error. */
  predicate IsValid(d: Draft) {
    Validate(d) == NoErrors
  }

  lemma ValidIff(d: Draft)
    ensures IsValid(d) <==>
              !IsBlank(d.title) && Utf16Length(d.title) <= 100
              && !IsBlank(d.content) && 10 <= Utf16Length(d.content) <= 5000
  {
  }

  /** The length limits sit exactly at 100 code units for the title and at
      10 and 5000 for the content. */
  lemma LengthBoundaries(d: Draft)
    requires !IsBlank(d.title) && !IsBlank(d.content)
    ensures Utf16Length(d.title) == 100 ==> CheckTitle(d.title) == TitleOk
    ensures Utf16Length(d.title) == 101 ==> CheckTitle(d.title) == TitleTooLong
    ensures Utf16Length(d.content) == 9 ==> CheckContent(d.content) == ContentTooShort
    ensures Utf16Length(d.content) == 10 || Utf16Length(d.content) == 5000 ==>
              CheckContent(d.content) == ContentOk
    ensures Utf16Length(d.content) == 5001 ==> CheckContent(d.content) == ContentTooLong
  {
  }

  /** Emoji count twice: a title of 60 hearts is 120 code units long and
      too long, although it has only 60 characters; 50 hearts pass. */
  lemma EmojiTitleCountsTwice()
    ensures CheckTitle(seq(60, _ => '\U{1F495}')) == TitleTooLong
    ensures CheckTitle(seq(50, _ => '\U{1F495}')) == TitleOk
  {
    var long := seq(60, _ => '\U{1F495}');
    var short := seq(50, _ => '\U{1F495}');
    Utf16LengthAstral(long);
    Utf16LengthAstral(short);
    assert !IsSpace(long[0]) && !IsSpace(short[0]);
  }

  /** An empty form gets both messages at once. */
  lemma BothMessagesAtOnce()
    ensures Validate(EmptyDraft) == FormErrors(TitleRequired, ContentRequired)
  {
  }

  /** The row `handleSubmit` inserts: trimmed title and content, sent from
      this space's name to the partner's. `id` and `createdAt` are filled in by
      the store. */
  function NewLetter(d: Draft, space: Option<Space>, id: string, now: int): (l: Letter)
    ensures l.fromUser == DisplayName(space) && l.toUser == PartnerName(space)
    ensures l.title == Trim(d.title) && l.content == Trim(d.content)
    ensures |l.title| <= |d.title| && |l.content| <= |d.content|
  {
    Letter(id, Trim(d.title), Trim(d.content), DisplayName(space), PartnerName(space), now)
  }

  /** The draft of the next lemma passes validation: both fields are
      non-blank and within their limits, counted before trimming. */
  lemma PaddedDraftIsValid()
    ensures IsValid(Draft("Hi", "x         "))
  {
    var d := Draft("Hi", "x         ");
    Utf16LengthBmp(d.content);
    Utf16LengthBmp(d.title);
    assert !IsSpace(d.content[0]) && !IsSpace(d.title[0]);
    ValidIff(d);
  }

  /** Content that passes validation can still be stored shorter than 10
      characters, because the length is checked before trimming. */
  lemma StoredContentCanBeShort(space: Option<Space>, id: string, now: int)
    ensures IsValid(Draft("Hi", "x         "))
    ensures |NewLetter(Draft("Hi", "x         "), space, id, now).content| == 1
  {
    PaddedDraftIsValid();
    var c := "x         ";
    assert c == "x" + "         ";
    TrimEndBlankSuffix("x", "         ");
    assert !IsSpace(c[0]);
  }

  class LettersPage {
    /** The list shown, newest first. */
    var letters: seq<Letter>
    var isWriting: bool
    var newLetter: Draft
    var errors: FormErrors

    constructor ()
      ensures letters == [] && !isWriting && newLetter == EmptyDraft && errors == NoErrors
    {
      letters := [];
      isWriting := false;
      newLetter := EmptyDraft;
      errors := NoErrors;
    }

    /** `loadLetters`: the whole table newest first; a failed read keeps the list. */
    method LoadLetters(table: seq<Letter>, readFails: bool)
      modifies this`letters
      ensures readFails ==> letters == old(letters)
      ensures !readFails ==> letters == SortNewestFirst(table, CreatedAt)
    {
      if !readFails {
        letters := SortNewestFirst(table, CreatedAt);
      }
    }

    /** `validateForm`: records the messages and answers whether there are none. */
    method ValidateForm() returns (valid: bool)
      modifies this`errors
      ensures errors == Validate(newLetter)
      ensures valid <==> IsValid(newLetter)
    {
      var e := NoErrors;
      valid := true;
      if Trim(newLetter.title) == [] {
        e := e.(title := TitleRequired);
        valid := false;
      } else if Utf16Length(newLetter.title) > 100 {
        e := e.(title := TitleTooLong);
        valid := false;
      }
      if Trim(newLetter.content) == [] {
        e := e.(content := ContentRequired);
        valid := false;
      } else if Utf16Length(newLetter.content) < 10 {
        e := e.(content := ContentTooShort);
        valid := false;
      } else if Utf16Length(newLetter.content) > 5000 {
        e := e.(content := ContentTooLong);
        valid := false;
      }
      errors := e;
    }

    /** `handleSubmit`: validates (always, even with no space selected), then
        inserts one letter. On success the form is cleared and closed and the
        list reloaded (a failed reload keeps the list shown); when the insert
        fails the draft stays as it was. */
    method HandleSubmit(space: Option<Space>, table: seq<Letter>, id: string, now: int,
                        insertFails: bool, reloadFails: bool) returns (table': seq<Letter>)
      modifies this
      ensures !IsValid(old(newLetter)) || space.None? || insertFails ==>
                errors == Validate(old(newLetter)) && table' == table && letters == old(letters) && isWriting == old(isWriting)
                && newLetter == old(newLetter)
      ensures IsValid(old(newLetter)) && space.Some? && !insertFails ==>
                table' == table + [NewLetter(old(newLetter), space, id, now)]
                && newLetter == EmptyDraft && errors == NoErrors && !isWriting
                && letters == (if reloadFails then old(letters) else SortNewestFirst(table', CreatedAt))
    {
      var valid := ValidateForm();
      if valid && space.Some? && !insertFails {
        table' := table + [NewLetter(newLetter, space, id, now)];
        newLetter := EmptyDraft;
        errors := NoErrors;
        isWriting := false;
        LoadLetters(table', reloadFails);
      } else {
        table' := table;
      }
    }

    /** The realtime callback: reloads on every event and reports whether the
        "New Love Letter" toast is shown. */
    method OnLetterChange(space: Option<Space>, ev: ChangeEvent, table: seq<Letter>, readFails: bool)
      returns (notify: bool)
      modifies this`letters
      ensures notify <==> ev.kind == Insert && ev.author != DisplayName(space)
      ensures readFails ==> letters == old(letters)
      ensures !readFails ==> letters == SortNewestFirst(table, CreatedAt)
    {
      LoadLetters(table, readFails);
      notify := ShouldNotify(ev, DisplayName(space));
    }
  }
}
