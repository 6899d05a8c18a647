/** The dashboard's local letter box (`components/LoveLetters.tsx`): three
    letters to start with, a write form, and new letters put in front. Nothing
    is stored remotely; `Date.now()` is a parameter. */
module LoveLetters {
  import opened Wrappers
  import opened Text
  import opened Calendar

  /** A letter; `date` is its time in milliseconds. */
  datatype LoveLetter = LoveLetter(id: string, title: string, content: string, from: string, date: int)

  /** The write form (`newLetter`). */
  datatype LetterForm = LetterForm(title: string, content: string, from: string)

  const EmptyForm: LetterForm := LetterForm("", "", "")

  /** The letters shown at first, dated at local midnight. */
  const InitialLetters: seq<LoveLetter> := [
    LoveLetter("1", "My First Letter to You",
      "Every moment with you feels like a beautiful dream I never want to wake up from. You are my sunshine, my everything. The way you smile lights up my entire world, and I am so grateful to have you in my life. \U{1F495}",
      "Your Love", DayNumber(2024, 1, 14) * MsPerDay),
    LoveLetter("2", "To My Soulmate",
      "I fall in love with you more each day. Thank you for being my best friend, my partner, and my forever person. You make every ordinary day feel extraordinary. \U{2728}",
      "Forever Yours", DayNumber(2024, 3, 20) * MsPerDay),
    LoveLetter("3", "Missing You",
      "Distance means nothing when someone means everything. I'm counting every second until I can hold you again. You're always in my heart. \U{1F319}",
      "Always Thinking of You", DayNumber(2024, 5, 5) * MsPerDay)
  ]

  /** A form is sent only with all three fields non-empty (untrimmed). */
  predicate Complete(f: LetterForm) {
    f.title != "" && f.content != "" && f.from != ""
  }

  /** The letter `handleSubmit` adds: the form's fields, `Date.now()` as id and date. */
  function Compose(f: LetterForm, now: nat): (l: LoveLetter)
    ensures l.title == f.title && l.content == f.content && l.from == f.from && l.date == now
    ensures AllDigits(l.id) && DigitsValue(l.id) == now
  {
    NatToStringRoundTrip(now);
    LoveLetter(NatToString(now), f.title, f.content, f.from, now)
  }

  class LoveLetters {
    /** The letters shown, most recently written first. */
    var letters: seq<LoveLetter>
    var isWriting: bool
    var selectedLetter: Option<LoveLetter>
    var newLetter: LetterForm

    constructor ()
      ensures letters == InitialLetters && !isWriting && selectedLetter.None? && newLetter == EmptyForm
    {
      letters := InitialLetters;
      isWriting := false;
      selectedLetter := None;
      newLetter := EmptyForm;
    }

    /** The "write" button opens or closes the form. */
    method ToggleWriting()
      modifies this`isWriting
      ensures isWriting == !old(isWriting)
    {
      isWriting := !isWriting;
    }

    /** Typing into one of the three fields. */
    method EditForm(f: LetterForm)
      modifies this`newLetter
      ensures newLetter == f
    {
      newLetter := f;
    }

    /** Opening a letter, or closing it with None. */
    method SelectLetter(l: Option<LoveLetter>)
      modifies this`selectedLetter
      ensures selectedLetter == l
    {
      selectedLetter := l;
    }

    /** `handleSubmit`: with every field filled, the new letter goes in front
        of all earlier ones, which keep their order; the form is emptied and
        closed. Otherwise nothing changes. */
    method HandleSubmit(now: nat)
      modifies this`letters, this`newLetter, this`isWriting
      ensures Complete(old(newLetter)) ==>
                letters == [Compose(old(newLetter), now)] + old(letters)
                && newLetter == EmptyForm && !isWriting
      ensures !Complete(old(newLetter)) ==>
                letters == old(letters) && newLetter == old(newLetter) && isWriting == old(isWriting)
    {
      if newLetter.title != "" && newLetter.content != "" && newLetter.from != "" {
        letters := [Compose(newLetter, now)] + letters;
        newLetter := EmptyForm;
        isWriting := false;
      }
    }
  }
}
