# Love OS, modelled in Dafny

Love OS is a private app for one couple, "Cookie" and "Senorita". It has two
halves, and this project models the logic of both.

- **The React front end.** Each partner picks a space (`/cookie` or
  `/senorita`). The space decides the display name and the partner's name.
  The pages then read and write shared Supabase tables:
  - love letters, with a validated form;
  - moods, with a note, an optional photo and the latest mood of each partner;
  - a question of the day and each partner's answer;
  - a photo gallery with a lightbox.

  Widgets on the dashboard cover the rest: an anniversary countdown, a
  demo photo strip, a rotating daily question, a demo letter box, nickname
  tickers, the partners' latest moods, and the colour theme with a
  light/dark/system appearance.
- **The FastAPI back end.** Its routers work over Mongo collections:
  - registration, login and partner linking;
  - letters, photos and moods of the couple;
  - a question of the day with one answer per user;
  - notifications, plus a pass that files anniversary reminders.

## How the model is built

- **Shared modules:**
  - `Tables`: a store's table is a sequence of rows in insertion order, and its queries are functions over it. "First match" stands for `find_one`, "sort newest first then take n" for `.sort("created_at", -1).to_list(n)` and Supabase's `.order(...)`, and "remove first match" for `delete_one`.
  - `Text`: JavaScript's `trim`, its `length` in UTF-16 code units, decimal strings, `padStart` and the first-occurrence `replace`.
  - `Calendar`: proleptic Gregorian day numbers, for JavaScript's `Date` and Python's `date`.
  - `IsoDates`: `isoformat`/`strptime`.
  - `Cyclic`: the modular steps used by every carousel.
- **Components** with `useState` are classes whose fields are the state. Their handlers are methods with `modifies` frames.
  - A remote table is passed in as a sequence, and a write returns the new table.
  - A failed read or write is a boolean parameter, one per query, and so is a failed reload after a write.
  - A reload re-reads the table it is given.
- **The back end's database** is a class `Database.Db` with one sequence field per collection. Each route is a method that names the collections it changes.
- **Parameters.** Clocks, new identifiers, `random` choices, public URLs and the `prefers-color-scheme` flag are parameters. So are password hashing, its verification and token signing.

## Model

| member | source | states |
|---|---|---|
| Cyclic.Next | frontend/src/pages/Gallery.tsx:143 | `(i+1) % n` stays in `[0, n)`: the next index, or 0 after the last |
| Cyclic.Prev | frontend/src/pages/Gallery.tsx:144 | `(i-1+n) % n` stays in `[0, n)`: the previous index, or the last one before 0 |
| Cyclic.PrevUndoesNext | frontend/src/pages/Gallery.tsx:143-144 | a step back after a step forward returns to the same index |
| Cyclic.NextUndoesPrev | frontend/src/pages/Gallery.tsx:143-144 | a step forward after a step back returns to the same index |
| Cyclic.StepsWrap | frontend/src/components/NicknameCycle.tsx:21-23 | k steps (k ≤ n) from i land on i+k, wrapping once past n |
| Cyclic.CycleReturns | frontend/src/components/NicknameCycle.tsx:21-23 | n steps around a cycle of n return to the start |
| Text.Trim | frontend/src/pages/Letters.tsx:105 | `trim()` is empty exactly for blank text, and otherwise starts and ends with a non-space |
| Text.TrimSpec | frontend/src/pages/Letters.tsx:105 | `trim()` is `s` with a blank prefix and a blank suffix cut off and nothing else changed, and what remains has no white space at either end |
| Text.PadStart | frontend/src/components/DaysCounter.tsx:124 | `padStart` adds fill characters on the left up to the width and never cuts the text |
| Text.IndexOf | frontend/src/components/PhotoGallery.tsx:173 | the position found is the earliest occurrence of the pattern; none means it does not occur |
| Text.ReplaceFirstAt | frontend/src/components/PhotoGallery.tsx:173 | when the pattern first occurs after `prefix`, the result is `prefix + rep + suffix` |
| Text.AfterLastDot | frontend/src/pages/MoodEnhanced.tsx:193 | `split('.').pop()` contains no dot and is the whole name when there is none |
| Text.AfterLastDotAppend | frontend/src/pages/MoodEnhanced.tsx:193 | the extension of `x.e` (e without dots) is `e` |
| Text.Utf16Length | frontend/src/pages/Letters.tsx:108 | JavaScript's `length` of a string lies between its number of code points and twice that |
| Text.Utf16LengthBmp | frontend/src/pages/Letters.tsx:108 | a string of Basic Multilingual Plane characters has one code unit per character |
| Text.Utf16LengthAstral | frontend/src/pages/MoodEnhanced.tsx:168 | a string of characters above U+FFFF has two code units per character |
| Tables.FilterEmptyIff | frontend/src/pages/Questions.tsx:56-68 | a filter selects nothing exactly when no row matches |
| Text.NatToStringRoundTrip | frontend/src/components/DaysCounter.tsx:124 | reading back the decimal string of n gives n |
| Uploads.UploadNameExtension | frontend/src/pages/MoodEnhanced.tsx:193-194 | the uploaded file keeps the extension of the chosen file |
| Uploads.UploadNameStamp | frontend/src/pages/Gallery.tsx:101-102 | between `displayName-` and the extension the upload name holds exactly the decimal timestamp |
| Realtime.NotifiesExactlyPartnerInserts | frontend/src/pages/Letters.tsx:85 | a change event notifies iff it is an INSERT by someone other than the user: the partner's inserts notify, the user's own rows and non-inserts never do |
| SpaceContext.SpaceOfPath | frontend/src/contexts/SpaceContext.tsx:29-30 | only `/cookie` and `/senorita` name a space, and the space's route is that path |
| SpaceContext.InitialSpace | frontend/src/contexts/SpaceContext.tsx:21-33 | a stored "cookie" or "senorita" wins; any other stored value or none falls back to the path |
| SpaceContext.NamesDiffer | frontend/src/contexts/SpaceContext.tsx:65-66 | display and partner names always differ and are Cookie and Senorita; the user is Cookie exactly in the cookie space |
| SpaceContext.NamesMirror | frontend/src/contexts/SpaceContext.tsx:65-66 | each space's display name is the other space's partner name |
| SpaceContext.StoredSpaceRestored | frontend/src/contexts/SpaceContext.tsx:21-24 | `getInitialSpace` returns a persisted space whatever the path; on a space route the route effect may then switch it (`Mount`) |
| SpaceContext.LoggedOutFollowsRoute | frontend/src/contexts/SpaceContext.tsx:27-32 | after the key is removed the start-up space is decided by the path alone |
| SpaceContext.SpaceProvider.constructor | frontend/src/contexts/SpaceContext.tsx:35 | the provider starts in the initial space over the given storage |
| SpaceContext.SpaceProvider.SyncWithPath | frontend/src/contexts/SpaceContext.tsx:38-49 | a space route that differs from the current space switches to it and persists it; other paths, or the same space, change nothing |
| SpaceContext.SpaceProvider.SetCurrentSpace | frontend/src/contexts/SpaceContext.tsx:51-58 | the space is set and stored when present; for none the stored key is removed |
| SpaceContext.SpaceProvider.Logout | frontend/src/contexts/SpaceContext.tsx:60-63 | after logout no space is selected and the stored key is absent |
| SpaceContext.Mount | frontend/src/contexts/SpaceContext.tsx:34-49 | at start-up a space route overrides a stored space and is stored when it differs from the initial space; other routes keep the initial space and the storage; with no stored key, a space route selects its space without storing it |
| ThemeContext.ParseColorTheme | frontend/src/contexts/ThemeContext.tsx:3 | a recognised name is the name of the theme it parses to |
| ThemeContext.ThemeNameRoundTrip | frontend/src/contexts/ThemeContext.tsx:3 | each of the six themes parses back from its own name |
| ThemeContext.Entries | frontend/src/contexts/ThemeContext.tsx:14-111 | every palette lists the same five CSS variables in the same order |
| ThemeContext.SetAllSpec | frontend/src/contexts/ThemeContext.tsx:158-160 | setting distinct properties one by one leaves each with its value and every other property as it was |
| ThemeContext.VariableNamesDistinct | frontend/src/contexts/ThemeContext.tsx:14-111 | a palette never names a variable twice |
| ThemeContext.UnknownStoredThemeHasNoPalette | frontend/src/contexts/ThemeContext.tsx:116-118 | every stored non-empty text outside the six theme names ("teal" among them) becomes the theme unchanged and the palette lookup finds nothing |
| ThemeContext.InitialColorThemeSpec | frontend/src/contexts/ThemeContext.tsx:116-118 | the start-up theme always has a palette, keeps a valid stored theme and is pink when nothing is stored |
| ThemeContext.IsDarkSpec | frontend/src/contexts/ThemeContext.tsx:143-149 | dark is dark, light is light, system follows the media query; with nothing stored the mode is light and not dark |
| ThemeContext.ThemeProvider.constructor | frontend/src/contexts/ThemeContext.tsx:115-125 | the provider starts with the corrected start-up theme (see Findings), the stored mode or "light", and not dark |
| ThemeContext.ThemeProvider.SyncIsDark | frontend/src/contexts/ThemeContext.tsx:143-149 | the dark flag is resolved from the mode and the system flag |
| ThemeContext.ThemeProvider.OnSystemChange | frontend/src/contexts/ThemeContext.tsx:129-141 | a system change reaches the dark flag only in system mode |
| ThemeContext.ThemeProvider.SetColorTheme | frontend/src/contexts/ThemeContext.tsx:170-173 | the theme is set and stored, so the next start reads back the same theme |
| ThemeContext.ThemeProvider.SetAppearanceMode | frontend/src/contexts/ThemeContext.tsx:175-178 | the mode is set and stored, so the next start reads back the same mode |
| ThemeContext.ThemeProvider.ApplyTheme | frontend/src/contexts/ThemeContext.tsx:152-168 | the root gets the palette of the theme for the current dark flag, and the dark class iff dark |
| ThemeContext.AppliedPaletteIsComplete | frontend/src/contexts/ThemeContext.tsx:152-160 | after applying, every one of the five variables holds the palette's value and no other property changes |
| DaysCounter.NextAnniversaryNotBefore | frontend/src/components/DaysCounter.tsx:24-30 | the next anniversary is never before now, and it is this year's date whenever that has not passed |
| DaysCounter.TotalSeconds | frontend/src/components/DaysCounter.tsx:35 | the countdown in whole seconds is never negative and is 0 when under a second remains |
| DaysCounter.TotalSecondsBounds | frontend/src/components/DaysCounter.tsx:35 | the countdown is the floor of the remaining milliseconds over 1000 |
| DaysCounter.SplitRecombines | frontend/src/components/DaysCounter.tsx:36-39 | days, hours, minutes and seconds recombine to the total, with hours < 24 and minutes, seconds < 60 |
| DaysCounter.AnniversaryGreetingLastsUnderASecond | frontend/src/components/DaysCounter.tsx:51 | as written the greeting shows iff less than a second remains before the next anniversary midnight |
| DaysCounter.NoGreetingAnHourIn | frontend/src/components/DaysCounter.tsx:26-27 | one hour into the anniversary day the greeting is not shown |
| DaysCounter.AnniversaryDayIsWholeDay | frontend/src/components/DaysCounter.tsx:51 | the corrected greeting holds exactly during the anniversary's local day |
| DaysCounter.TwoDigitsSpec | frontend/src/components/DaysCounter.tsx:124 | a padded value has at least two digits, denotes the value, and is unpadded from 10 on |
| DaysCounter.ThreeDigitDays | frontend/src/components/DaysCounter.tsx:124 | 365 days shows as "365", not truncated |
| PhotoGallery.LightboxUrlOfThumbnail | frontend/src/components/PhotoGallery.tsx:173 | the lightbox URL of a thumbnail asks for 1200×800 instead of 400×300 and keeps the rest |
| PhotoGallery.PositionInRange | frontend/src/components/PhotoGallery.tsx:189 | the counter "(i+1) / n" is between 1 and n |
| PhotoGallery.ExactlyOneDot | frontend/src/components/PhotoGallery.tsx:217-218 | exactly one dot, the selected one, is highlighted |
| PhotoGallery.PhotoGallery.constructor | frontend/src/components/PhotoGallery.tsx:54 | nothing is selected at first |
| PhotoGallery.PhotoGallery.Open | frontend/src/components/PhotoGallery.tsx:100 | clicking a photo selects it |
| PhotoGallery.PhotoGallery.Close | frontend/src/components/PhotoGallery.tsx:140 | closing clears the selection |
| PhotoGallery.PhotoGallery.NextPhoto | frontend/src/components/PhotoGallery.tsx:56-60 | the selection moves one forward around the six photos; with none selected nothing changes |
| PhotoGallery.PhotoGallery.PrevPhoto | frontend/src/components/PhotoGallery.tsx:62-66 | the selection moves one back around the six photos; with none selected nothing changes |
| DailyQuestion.HighlightedDot | frontend/src/components/DailyQuestion.tsx:158 | the highlighted dot index is below five |
| DailyQuestion.ExactlyOneDot | frontend/src/components/DailyQuestion.tsx:154-158 | exactly one of the five dots is highlighted |
| DailyQuestion.DotsRepeatEveryFive | frontend/src/components/DailyQuestion.tsx:158 | questions five apart highlight the same dot |
| DailyQuestion.DailyQuestion.constructor | frontend/src/components/DailyQuestion.tsx:22-25 | the component starts on the first question with an empty, unsubmitted answer |
| DailyQuestion.DailyQuestion.GetNewQuestion | frontend/src/components/DailyQuestion.tsx:27-28 | asking for a new question starts the animation |
| DailyQuestion.DailyQuestion.OnNewQuestionTimeout | frontend/src/components/DailyQuestion.tsx:29-34 | the timeout moves to the next of the ten questions, clears the answer and submitted flag and ends the animation |
| DailyQuestion.DailyQuestion.HandleSubmit | frontend/src/components/DailyQuestion.tsx:37-41 | a non-blank answer is marked submitted; a blank one changes nothing |
| DailyQuestion.TenQuestionsComeBack | frontend/src/components/DailyQuestion.tsx:30 | ten new-question steps come back to the same question |
| LoveLetters.Compose | frontend/src/components/LoveLetters.tsx:49-56 | the new letter carries the form's title, content and sender, and its id is the timestamp's digits |
| LoveLetters.LoveLetters.constructor | frontend/src/components/LoveLetters.tsx:19-45 | the box starts with the three sample letters, not writing, with an empty form |
| LoveLetters.LoveLetters.ToggleWriting | frontend/src/components/LoveLetters.tsx:84 | the write button flips writing mode |
| LoveLetters.LoveLetters.EditForm | frontend/src/components/LoveLetters.tsx:108-120 | editing a field stores the new form |
| LoveLetters.LoveLetters.SelectLetter | frontend/src/components/LoveLetters.tsx:142 | opening or closing a letter sets the selection |
| LoveLetters.LoveLetters.HandleSubmit | frontend/src/components/LoveLetters.tsx:47-60 | with all three fields non-empty exactly one letter is put in front of the others, and the form resets and closes; otherwise nothing changes |
| NicknameCycle.Nicknames1 | frontend/src/components/NicknameCycle.tsx:16-18 | the first ticker has four names: the partner's name for the space, then its three defaults |
| NicknameCycle.Nicknames2 | frontend/src/components/NicknameCycle.tsx:51-53 | the second ticker has four names: the other partner name, then its three defaults |
| NicknameCycle.CyclesStartApart | frontend/src/components/NicknameCycle.tsx:16-18 | with distinct partner names the two tickers start on different names |
| NicknameCycle.Ticker.constructor | frontend/src/components/NicknameCycle.tsx:13 | a ticker starts at its first name |
| NicknameCycle.Ticker.Tick | frontend/src/components/NicknameCycle.tsx:21-23 | each tick moves to the next name, wrapping around |
| NicknameCycle.TickerComesBack | frontend/src/components/NicknameCycle.tsx:56-58 | as many ticks as names come back to the same name |
| MoodSharing.MoodSharing.constructor | frontend/src/components/MoodSharing.tsx:24-25 | no mood is shown at first |
| MoodSharing.MoodSharing.LoadLatestMoods | frontend/src/components/MoodSharing.tsx:34-62 | without a space nothing changes; a side whose own read fails is kept; otherwise each side becomes that name's newest mood, or keeps its value when there is none, so a shown connection stays |
| MoodSharing.MoodSharing.OnMoodChange | frontend/src/components/MoodSharing.tsx:74-76 | any change to the moods table reloads both latest moods; without a space both are kept, and a side whose own read fails is kept |
| MoodSharing.BothMoodsConnect | frontend/src/components/MoodSharing.tsx:185 | once each partner has a mood, both latest moods exist, belong to the right partner and are at least as new as any of theirs |
| LettersPage.CheckTitle | frontend/src/pages/Letters.tsx:105-111 | a title is accepted iff it is not blank and at most 100 UTF-16 code units long, as JavaScript's `length` counts; "required" is reported exactly for blank titles |
| LettersPage.CheckContent | frontend/src/pages/Letters.tsx:113-122 | content is accepted iff not blank and 10 to 5000 UTF-16 code units long; "required" for blank, "too short" for non-blank under 10 code units |
| LettersPage.MessagesDistinguishErrors | frontend/src/pages/Letters.tsx:101-126 | an error message is empty exactly when there is no error |
| LettersPage.ValidIff | frontend/src/pages/Letters.tsx:101-126 | the form is valid iff both fields pass, measured in UTF-16 code units on the untrimmed text |
| LettersPage.LengthBoundaries | frontend/src/pages/Letters.tsx:108-121 | a non-blank title of 100 UTF-16 code units passes and one of 101 fails; non-blank content of 9 or 5001 code units fails, 10 and 5000 pass |
| LettersPage.EmojiTitleCountsTwice | frontend/src/pages/Letters.tsx:108-111 | a title of 60 emoji outside the Basic Multilingual Plane is too long (120 code units) while 50 of them pass |
| LettersPage.BothMessagesAtOnce | frontend/src/pages/Letters.tsx:102-125 | an empty form reports both errors at once |
| LettersPage.NewLetter | frontend/src/pages/Letters.tsx:134-139 | the stored letter is from the display name to the partner name, and its title and content are the draft's, trimmed |
| LettersPage.PaddedDraftIsValid | frontend/src/pages/Letters.tsx:101-126 | a draft whose content is one letter and nine spaces passes validation |
| LettersPage.StoredContentCanBeShort | frontend/src/pages/Letters.tsx:113-139 | valid content can be stored with a single character after trimming |
| LettersPage.LettersPage.constructor | frontend/src/pages/Letters.tsx:31-37 | the page starts with no letters, an empty draft, no errors and writing closed |
| LettersPage.LettersPage.LoadLetters | frontend/src/pages/Letters.tsx:48-68 | a successful read lists the table newest first; a failed one keeps the list |
| LettersPage.LettersPage.ValidateForm | frontend/src/pages/Letters.tsx:101-126 | the errors shown are those of the draft, and the answer is the draft's validity |
| LettersPage.LettersPage.HandleSubmit | frontend/src/pages/Letters.tsx:128-162 | a draft invalid by the UTF-16 length rules, no space or a failed insert writes nothing and keeps the draft; otherwise exactly one letter is added, the draft and errors reset, writing closes and the list is reloaded, or kept when the reload fails |
| LettersPage.LettersPage.OnLetterChange | frontend/src/pages/Letters.tsx:80-91 | every change reloads the list; a notification fires iff the partner inserted a letter |
| MoodPage.NoteBoundary | frontend/src/pages/MoodEnhanced.tsx:167-174 | a note is accepted iff at most 500 UTF-16 code units long; the empty note passes |
| MoodPage.EmojiNoteCountsTwice | frontend/src/pages/MoodEnhanced.tsx:167-174 | a note of 300 emoji outside the Basic Multilingual Plane is refused (600 code units) while 250 of them pass |
| MoodPage.PhotoBoundary | frontend/src/pages/MoodEnhanced.tsx:177-184 | a photo is accepted iff at most 5 MiB; no photo passes |
| MoodPage.PhotoUpload | frontend/src/pages/MoodEnhanced.tsx:191-205 | a photo is uploaded exactly when one is attached |
| MoodPage.NewMood | frontend/src/pages/MoodEnhanced.tsx:209-216 | the record takes the chosen mood's emoji and label, the colour, the photo URL and the display name; an empty note is stored as none |
| MoodPage.MoodPage.constructor | frontend/src/pages/MoodEnhanced.tsx:47-55 | the page starts with nothing chosen, the default colour and no moods |
| MoodPage.MoodPage.LoadMoods | frontend/src/pages/MoodEnhanced.tsx:72-90 | a successful read keeps the 20 newest moods, newest first; a failed one keeps the history |
| MoodPage.MoodPage.LoadLatestMoods | frontend/src/pages/MoodEnhanced.tsx:92-118 | each side becomes the newest mood of that name, or keeps its value when that name has none or that side's own read fails |
| MoodPage.MoodPage.OnMoodChange | frontend/src/pages/MoodEnhanced.tsx:128-140 | every change reloads the history and both latest moods by three separate reads, each kept when its own read fails; a toast fires iff the partner inserted a mood |
| MoodPage.MoodPage.HandleSubmitMood | frontend/src/pages/MoodEnhanced.tsx:163-243 | without a chosen mood, with a note over 500 UTF-16 code units or a photo over 5 MiB, or on a failure nothing is written; otherwise the photo is uploaded under its stamped name, one mood is inserted, the form resets, and the history and both latest moods are reloaded from the new table, each kept when its own read fails |
| MoodPage.SharedMoodBecomesLatest | frontend/src/pages/MoodEnhanced.tsx:92-118 | a mood newer than the author's others becomes the author's latest |
| QuestionsPage.TodaysQuestionSpec | frontend/src/pages/Questions.tsx:47-75 | a single question for today is used; otherwise the first question stands in; with no questions there is none |
| QuestionsPage.NoQuestionTodayFallsBack | frontend/src/pages/Questions.tsx:56-68 | with no question dated today the first stored question is shown |
| QuestionsPage.QuestionAt | frontend/src/pages/Questions.tsx:157-162 | the row at the random offset exists exactly when the offset is below the count |
| QuestionsPage.UpdateTextSpec | frontend/src/pages/Questions.tsx:114-117 | the update by id changes the text of the rows with that id and nothing else |
| QuestionsPage.UpdateLastRow | frontend/src/pages/Questions.tsx:114-117 | updating a just-inserted row with a fresh id changes only that row |
| QuestionsPage.NewAnswer | frontend/src/pages/Questions.tsx:124-128 | the inserted answer is for the question, by the display name, with the untrimmed text |
| QuestionsPage.MyAnswerSpec | frontend/src/pages/Questions.tsx:88-89 | the user's answer is a stored answer to the question by that name, and is none iff there is none |
| QuestionsPage.SecondSubmitUpdatesFirst | frontend/src/pages/Questions.tsx:112-138 | two submissions leave one answer by the user, with the first id and the second text |
| QuestionsPage.QuestionsPage.constructor | frontend/src/pages/Questions.tsx:33-36 | the page starts with no question and no answers |
| QuestionsPage.QuestionsPage.LoadAnswers | frontend/src/pages/Questions.tsx:77-104 | a read sets both partners' answers and the draft to the user's text or ""; a failed read changes nothing |
| QuestionsPage.QuestionsPage.ShowQuestion | frontend/src/pages/Questions.tsx:64-74 | a question found is shown with both answers and the draft loaded for it (kept when that read fails); none changes nothing |
| QuestionsPage.QuestionsPage.LoadTodaysQuestion | frontend/src/pages/Questions.tsx:47-75 | the question shown is today's, or the fallback, or the first row when the date query fails, with both answers and the draft loaded for it; with no questions nothing changes |
| QuestionsPage.QuestionsPage.GetNewQuestion | frontend/src/pages/Questions.tsx:150-169 | the question at the offset is shown with both answers and the draft loaded for it; past the table nothing changes |
| QuestionsPage.QuestionsPage.HandleSubmit | frontend/src/pages/Questions.tsx:106-148 | a blank answer, no space or question, or a failure writes nothing; otherwise the answer is updated or inserted, and both answers and the draft are reloaded from the new table (kept when the reload fails) |
| GalleryPage.NewPhoto | frontend/src/pages/Gallery.tsx:116-120 | the record has the public URL and the display name as uploader; an empty caption is stored as none |
| GalleryPage.Gallery.constructor | frontend/src/pages/Gallery.tsx:27-35 | the page starts empty with no selection and the form closed |
| GalleryPage.Gallery.LoadPhotos | frontend/src/pages/Gallery.tsx:46-58 | a successful read lists the photos newest first; a failed one keeps the list |
| GalleryPage.Gallery.OpenPhoto | frontend/src/pages/Gallery.tsx:268 | clicking a photo selects it |
| GalleryPage.Gallery.ClosePhoto | frontend/src/pages/Gallery.tsx:291 | closing clears the selection |
| GalleryPage.Gallery.NextPhoto | frontend/src/pages/Gallery.tsx:143 | the selection moves forward around the photos; with none selected nothing changes |
| GalleryPage.Gallery.PrevPhoto | frontend/src/pages/Gallery.tsx:144 | the selection moves back around the photos; with none selected nothing changes |
| GalleryPage.Gallery.ChooseFile | frontend/src/pages/Gallery.tsx:81-92 | choosing a file selects it; cancelling keeps the earlier one |
| GalleryPage.Gallery.HandleUpload | frontend/src/pages/Gallery.tsx:94-141 | without a file or space, or on a failure nothing is written and the form stays; otherwise the file is uploaded under its stamped name, one photo is added, the form resets and closes and the list reloads, or is kept when the reload fails |
| GalleryPage.StepsUndoEachOther | frontend/src/pages/Gallery.tsx:143-144 | next and previous undo each other |
| IsoDates.IsoFormat | backend/routers/questions.py:38 | `isoformat` gives ten characters |
| IsoDates.ParseIsoDate | backend/services/notification_service.py:20 | a parsed date is a real date within Python's years |
| IsoDates.ParseFormatRoundTrip | backend/services/notification_service.py:20 | parsing what `isoformat` writes gives the date back |
| IsoDates.ReplaceYear | backend/services/notification_service.py:23 | `replace(year=y)` keeps month and day and sets the year |
| IsoDates.ReplaceYearFailsOnlyOnLeapDay | backend/services/notification_service.py:23-27 | moving a date to another year fails exactly for 29 February in a common year |
| Calendar.LeapDayRollsOver | frontend/src/components/DaysCounter.tsx:25-27 | a 29 February anniversary in a common year falls on 1 March, as `Date` rolls it over |
| Tables.FilterSpec | backend/routers/letters.py:18-25 | a filter keeps every copy of each matching row and no other row |
| Tables.FilterAppend | backend/routers/letters.py:18-25 | a row appended to the table is appended to the filtered table when it matches, so kept rows stay in table order |
| Tables.FirstSpec | backend/routers/letters.py:58 | `find_one` gives a matching row, and none exactly when no row matches |
| Tables.FirstIsEarliest | backend/routers/letters.py:58 | `find_one` gives the earliest matching row |
| Tables.TakeSpec | backend/routers/questions.py:111 | `to_list(n)` keeps the first n rows |
| Tables.SortSpec | frontend/src/pages/Gallery.tsx:47-50 | ordering by `created_at` descending is newest first and a permutation of the rows |
| Tables.QuerySpec | backend/routers/letters.py:18-25 | filter, sort and limit give at most n matching rows newest first, all of them when there are no more than n |
| Tables.NewestSpec | backend/routers/moods.py:35-38 | `find_one` sorted by `created_at` descending gives a matching row at least as new as every other match |
| Tables.NewestAfterInsert | backend/routers/moods.py:35-38 | a row newer than all matching rows becomes the newest |
| Tables.QueryStartsWithNewest | backend/routers/letters.py:18-25 | a newest-first listing starts with the newest match |
| Tables.RemoveFirstSpec | backend/routers/letters.py:72 | `delete_one` removes the first matching row and keeps the others in order |
| Tables.RemoveFirstByKey | backend/routers/photos.py:70 | with unique ids, deleting by id leaves no row with that id |
| Tables.UpdateFirstIdempotent | backend/routers/notifications.py:51-54 | an update that keeps the row matching and is itself idempotent, applied twice by `update_one`, is applied once |
| Tables.UpdateByUniqueKey | backend/routers/questions.py:77-81 | with unique ids, `update_one` by id changes that row only |
| Tables.FilterCountsMatches | backend/routers/notifications.py:63-66 | the number of rows a filter keeps is the number of matching positions |
| Tables.FilterKeepsUniqueKeys | backend/routers/questions.py:105-111 | a filter keeps keys unique |
| AuthApi.NewUser | backend/routers/auth.py:35-44 | the user stores the request's fields, the password's hash and no partner |
| AuthApi.RegisterKeepsUsernamesUnique | backend/routers/auth.py:20-25 | adding a user whose name is new keeps usernames unique |
| AuthApi.Register | backend/routers/auth.py:15-47 | a taken username fails first, then a role other than boyfriend or girlfriend, both without change; otherwise exactly one user is added and returned, and usernames stay unique |
| AuthApi.Login | backend/routers/auth.py:50-85 | an unknown user and a wrong password give the same 401; a success carries a token for a stored user whose password verifies, and with unique usernames one exists iff login succeeds |
| AuthApi.RegisteredUserIsFound | backend/routers/auth.py:55 | a registered user is the one login finds by name |
| AuthApi.GetMe | backend/routers/auth.py:88-99 | the user with the token's id is returned, and 404 exactly when there is none |
| AuthApi.LinkIsSymmetric | backend/routers/auth.py:125-133 | linking sets each partner's `partner_id` to the other and touches no other user |
| AuthApi.LinkPartner | backend/routers/auth.py:102-135 | an unknown partner gives 404 and a same-role partner 400, both without change; otherwise both are linked |
| QuestionsApi.QuestionOfTheDay | backend/routers/questions.py:48-59 | a question stored for a new date is the one a later lookup of that date finds |
| QuestionsApi.GetDailyQuestion | backend/routers/questions.py:34-59 | today's stored question is returned without change; otherwise the chosen pool entry is stored for today; either way it is today's question from then on |
| QuestionsApi.SubmitKeepsOneAnswerEach | backend/routers/questions.py:70-93 | submitting keeps at most one answer per user and question |
| QuestionsApi.SubmitRecordsText | backend/routers/questions.py:70-93 | after submitting, the user's answer holds the text; a resubmission keeps the earlier answer's id |
| QuestionsApi.SubmitAnswer | backend/routers/questions.py:62-95 | an existing answer gets the new text and no row is added; otherwise one answer is added with the token's id, username and role |
| QuestionsApi.CoupleAnswersAtMostTwo | backend/routers/questions.py:105-111 | with one answer per user a couple has at most two answers to a question |
| QuestionsApi.GetAnswers | backend/routers/questions.py:98-113 | at most ten answers to the question, each by the user or the partner; with one answer per user, exactly the couple's answers in stored order |
| NotificationService.DaysUntilBounds | backend/services/notification_service.py:23-29 | days until the anniversary is between 0 and 365 |
| NotificationService.NextAnniversaryBounds | backend/services/notification_service.py:23-29 | the next anniversary is today or within the next 365 days |
| NotificationService.AnniversaryDayIsZero | backend/services/notification_service.py:23-29 | on the anniversary itself days until is 0 |
| NotificationService.LeapDaySkippedInCommonYear | backend/services/notification_service.py:20-27 | a 29 February anniversary raises in a common year and the user is skipped |
| NotificationService.SameDayNextYear | backend/services/notification_service.py:27 | the same date a year on is 365 or 366 days later |
| NotificationService.NotifyUserSpec | backend/services/notification_service.py:54-70 | one user's turn appends at most one reminder, leaves the due one filed, and adds nothing when it already is |
| NotificationService.GenerateAppends | backend/services/notification_service.py:14-74 | the pass only appends, no more rows than there are users, each an unread anniversary reminder with the stored date and the message the user is due |
| NotificationService.GenerateOnePerUser | backend/services/notification_service.py:14-74 | with distinct user ids, no two reminders a pass appends share a `user_id` |
| NotificationService.GenerateCoversAll | backend/services/notification_service.py:14-74 | after the pass every user's due reminder is filed |
| NotificationService.GenerateWhenCovered | backend/services/notification_service.py:54-70 | when every due reminder is filed the pass changes nothing |
| NotificationService.GenerateIdempotent | backend/services/notification_service.py:54-70 | running the pass again the same day adds nothing |
| NotificationService.GenerateAnniversaryNotifications | backend/services/notification_service.py:6-74 | the loop leaves the notifications that the whole pass over the candidate users files |
| NotificationService.NotifyOne | backend/services/notification_service.py:15-70 | one iteration files exactly that user's reminder when it is due and not yet filed |
| NotificationService.GetUserNotifications | backend/services/notification_service.py:76-83 | at most 100 of the user's notifications, newest first, all of them when there are no more |
| NotificationsApi.GetNotifications | backend/routers/notifications.py:14-24 | the pass runs first; the listing holds at most 100 of the user's notifications, newest first, and all of them when there are no more, so a reminder due to the user is listed |
| NotificationsApi.MarkAsRead | backend/routers/notifications.py:27-56 | 404 for an unknown id and 403 for another user's, both without change; otherwise that notification is marked read |
| NotificationsApi.MarkReadIdempotent | backend/routers/notifications.py:51-54 | marking twice is marking once |
| NotificationsApi.MarkReadOnlyThatOne | backend/routers/notifications.py:51-54 | with unique ids only that notification changes, and only its read flag |
| NotificationsApi.MarkReadLowersUnread | backend/routers/notifications.py:51-66 | marking an unread notification lowers its owner's unread count by one |
| NotificationsApi.GetUnreadCount | backend/routers/notifications.py:59-68 | the count is the number of the user's notifications not yet read |
| LettersApi.GetLetters | backend/routers/letters.py:13-27 | at most 1000 letters sent or received by the couple, newest first; all of them when there are no more |
| LettersApi.CreateLetter | backend/routers/letters.py:30-47 | the sender is the token's user, never the request; one letter is added |
| LettersApi.NewLetterListedFirst | backend/routers/letters.py:18-25 | a new letter heads its sender's listing |
| LettersApi.PartnersSeeSameLetters | backend/routers/letters.py:18-25 | two linked partners list the same letters |
| LettersApi.DeleteLetter | backend/routers/letters.py:50-74 | 404 for an unknown letter and 403 for a non-sender, both without change; the sender's delete removes exactly that letter |
| PhotosApi.GetPhotos | backend/routers/photos.py:13-25 | at most 1000 photos uploaded by the couple, newest first; all of them when there are no more |
| PhotosApi.UploadPhoto | backend/routers/photos.py:28-45 | the uploader is the token's user; one photo is added |
| PhotosApi.NewPhotoListedFirst | backend/routers/photos.py:18-23 | a new photo heads its uploader's listing |
| PhotosApi.PartnersSeeSamePhotos | backend/routers/photos.py:18-23 | two linked partners list the same photos |
| PhotosApi.DeletePhoto | backend/routers/photos.py:48-72 | 404 for an unknown photo and 403 for one outside the couple, both without change; either partner's delete removes exactly that photo |
| MoodsApi.GetMoods | backend/routers/moods.py:13-25 | at most 1000 moods of the couple, newest first; all of them when there are no more |
| MoodsApi.PartnersSeeSameMoods | backend/routers/moods.py:18-23 | two linked partners list the same moods |
| MoodsApi.GetLatestMoods | backend/routers/moods.py:28-51 | the user's newest mood first if any, then the partner's newest if linked and any; each as new as any mood of its user |
| MoodsApi.ShareMood | backend/routers/moods.py:54-72 | the mood is attributed to the token's user; one mood is added |
| MoodsApi.SharedMoodIsLatest | backend/routers/moods.py:35-38 | a mood newer than its user's others is that user's latest |

## Left out

- Supabase and Mongo clients, realtime channels and their unsubscribe closures: each table is a sequence, and a change event is a method call.
- Storage uploads, `getPublicUrl`, `FileReader` previews, toasts, `console` output and navigation: side effects outside the data. The public URL and upload failures are parameters.
- The `isLoading`, `isSubmitting` and `isUploading` flags: they only disable buttons.
- Timers (`setInterval`, `setTimeout`): each tick or timeout is an explicit method call.
- `Math.random` and `random.seed`/`random.choice`: the chosen offset or pool index is a parameter.
- Password hashing, its verification and JWT signing: they are function parameters. `backend/middleware/auth_middleware.py` is not part of this model, so the current user is an input record.
- Concurrency: overlapping requests and reloads, and the check-then-insert races in `backend/routers/questions.py`. Every operation runs atomically.
- Time zones and daylight saving: a local midnight is a whole number of days, and `format(new Date(), 'yyyy-MM-dd')` is an input string.
- `strptime`: only the strict ten-character `YYYY-MM-DD` form is parsed. Python also accepts unpadded fields.
- Ties in `created_at`: the order among rows with equal stamps is not stated.
- Pydantic and TypeScript schemas: they appear only as datatypes. `created_at` is an integer.
- Presentation components, `frontend/src/App.tsx`, `SpaceSelection.tsx`, `SenoritaDashboard.tsx`, `Settings.tsx`, `CoupleContext.tsx` and the superseded `Letters.backup.tsx`: not part of this model.
- Reminder messages: kept exactly as stored, including the mis-decoded emoji bytes.
- ThemeContext.ThemeProvider.constructor: the provider starts from the corrected start-up theme of the Findings, so its `colorTheme` is always one of the six. The stored text is not kept as written, and the failing palette lookup it leads to is stated only by `UnknownStoredThemeHasNoPalette`.
- GalleryPage.Gallery.NextPhoto: requires the selection to index a loaded photo. A reload that shrinks the list under an open lightbox is not modelled.
- GalleryPage.Gallery.PrevPhoto: same requirement as `NextPhoto`.
- LettersApi.GetLetters: beyond 1000 matching letters, states only that the result is a newest-first selection of them, not that it is the newest 1000.
- PhotosApi.GetPhotos: the same limit caveat as `GetLetters`.
- MoodsApi.GetMoods: the same limit caveat as `GetLetters`.
- NotificationService.GetUserNotifications: the same limit caveat, for 100 notifications.
- QuestionsApi.GetAnswers: when answers are not unique per user, states only that at most ten couple answers are returned, not which ten.
- NotificationsApi.GetNotifications: beyond 100 notifications of the user, states only that the listing is a newest-first selection of them, so the reminder is promised only up to 100.

## Findings

| source | as written | input that shows it | evidently intended | confidence | as-written member | corrected member |
|---|---|---|---|---|---|---|
| frontend/src/components/DaysCounter.tsx:26-27,35,51 | `isAnniversaryToday` needs all four countdown values to be 0. Once the anniversary midnight has passed, the countdown targets next year. | `now` one hour after the anniversary midnight: the countdown is about 365 days and no greeting shows | the greeting shows for the whole anniversary day | high, not executed | DaysCounter.AnniversaryGreetingLastsUnderASecond | DaysCounter.AnniversaryDayIsWholeDay |
| frontend/src/contexts/ThemeContext.tsx:116-118,155 | the start-up theme is any non-empty stored text, cast to a theme name | a stored value "teal": `colorThemes["teal"]` is undefined, and reading `[mode]` from it fails | fall back to pink unless the stored text names one of the six themes | medium, not executed | ThemeContext.UnknownStoredThemeHasNoPalette | ThemeContext.InitialColorThemeSpec |
