/** Anniversary reminders (`backend/services/notification_service.py`): a
    pass over the users with an anniversary date that files a reminder seven
    days before, one day before and on the day, at most once per message, and
    the per-user listing. The local date (`datetime.now().date()`), the new
    identifiers and `created_at` are parameters. */
module NotificationService {
  import opened Wrappers
  import opened Tables
  import opened Calendar
  import opened IsoDates
  import opened Database

  const Anniversary := "anniversary"

  /** The three messages, character for character as the service stores
      them: the emoji are UTF-8 bytes read back as Windows-1252 text. */
  const WeekAhead := "Your anniversary is coming up in 7 days! \U{F0}\U{178}\U{2019}\U{2022}"
  const DayAhead := "Tomorrow is your special day! Don't forget to celebrate \U{F0}\U{178}\U{17D}\U{2030}"
  const OnTheDay :=
    "Happy Anniversary! \U{F0}\U{178}\U{2019}\U{2022}\U{F0}\U{178}\U{17D}\U{160} Wishing you both a wonderful day!"

  const UserLimit: nat := 1000
  const ListLimit: nat := 100

  // ---------------------------------------------------------------------
  // Days until the next anniversary

  /** This year's anniversary, or next year's once this year's has passed;
      None where `date.replace` raises. */
  function NextAnniversary(anniversary: Date, today: Date): Option<Date>
    requires PyDate(today)
  {
    match ReplaceYear(anniversary, today.year)
    case None => None
    case Some(thisYear) =>
      if Ordinal(thisYear) < Ordinal(today) then ReplaceYear(anniversary, today.year + 1)
      else Some(thisYear)
  }

  /** `days_until` for a stored anniversary string, or None where parsing or
      moving the date raises (the user is then skipped). */
  function DaysUntil(anniversaryDate: string, today: Date): Option<int>
    requires PyDate(today)
  {
    match ParseIsoDate(anniversaryDate)
    case None => None
    case Some(a) =>
      match NextAnniversary(a, today)
      case None => None
      case Some(next) => Some(Ordinal(next) - Ordinal(today))
  }

  /** A leap year is followed by a common one. */
  lemma LeapThenCommon(y: int)
    requires IsLeap(y)
    ensures !IsLeap(y + 1)
  {
    assert y % 4 == 0;
    assert (y + 1) % 4 == 1;
  }

  /** The same day a year later is at most 366 days on. */
  lemma SameDayNextYear(a: Date, b: Date)
    requires ValidDate(a) && ValidDate(b)
    requires b == Date(a.year + 1, a.month, a.day)
    ensures 365 <= Ordinal(b) - Ordinal(a) <= 366
  {
    YearLength(a.year);
    if IsLeap(a.year) {
      LeapThenCommon(a.year);
    }
  }

  /** `days_until` is never negative and less than a year. */
  lemma DaysUntilBounds(anniversaryDate: string, today: Date)
    requires PyDate(today)
    ensures DaysUntil(anniversaryDate, today).Some? ==> 0 <= DaysUntil(anniversaryDate, today).value <= 365
  {
    match ParseIsoDate(anniversaryDate)
    case None =>
    case Some(a) =>
      NextAnniversaryBounds(a, today);
  }

  /** The next anniversary is today or later, and less than a year away. */
  lemma NextAnniversaryBounds(a: Date, today: Date)
    requires PyDate(today)
    ensures NextAnniversary(a, today).Some? ==>
              0 <= Ordinal(NextAnniversary(a, today).value) - Ordinal(today) <= 365
  {
    match ReplaceYear(a, today.year)
    case None =>
    case Some(thisYear) =>
      SameYearBounds(thisYear, today);
      if Ordinal(thisYear) < Ordinal(today) {
        match ReplaceYear(a, today.year + 1)
        case None =>
        case Some(next) =>
          SameDayNextYear(thisYear, next);
      }
  }

  /** Two days of one year are less than a year apart. */
  lemma SameYearBounds(d: Date, today: Date)
    requires ValidDate(d) && ValidDate(today) && d.year == today.year
    ensures Ordinal(d) - Ordinal(today) <= 365
  {
    DateWithinYear(today);
    DateWithinYear(d);
    YearLength(today.year);
  }

  /** On the anniversary itself `days_until` is 0. */
  lemma AnniversaryDayIsZero(anniversaryDate: string, today: Date)
    requires PyDate(today)
    requires ParseIsoDate(anniversaryDate).Some?
    requires ParseIsoDate(anniversaryDate).value.month == today.month
    requires ParseIsoDate(anniversaryDate).value.day == today.day
    ensures DaysUntil(anniversaryDate, today) == Some(0)
  {
    var a := ParseIsoDate(anniversaryDate).value;
    assert ReplaceYear(a, today.year) == Some(today);
  }

  /** A 29 February anniversary raises in a common year, so its user gets
      no reminder that year. */
  lemma LeapDaySkippedInCommonYear(anniversaryDate: string, today: Date)
    requires PyDate(today) && !IsLeap(today.year)
    requires ParseIsoDate(anniversaryDate).Some?
    requires ParseIsoDate(anniversaryDate).value.month == 2 && ParseIsoDate(anniversaryDate).value.day == 29
    ensures DaysUntil(anniversaryDate, today).None?
  {
  }

  // ---------------------------------------------------------------------
  // One user's reminder

  /** The reminder for `days_until` days ahead, if any. */
  function Message(days: int): Option<string> {
    if days == 7 then Some(WeekAhead)
    else if days == 1 then Some(DayAhead)
    else if days == 0 then Some(OnTheDay)
    else None
  }

  /** The reminder a user is due today: none without a non-empty
      anniversary date, where the date raises, or off the three days. */
  function Due(u: User, today: Date): Option<string>
    requires PyDate(today)
  {
    if u.anniversaryDate.None? || u.anniversaryDate.value == "" then None
    else
      match DaysUntil(u.anniversaryDate.value, today)
      case None => None
      case Some(days) => Message(days)
  }

  /** The notifications equal to a reminder in user, type, date and message. */
  function SameNotice(userId: string, date: string, message: string): Notification -> bool {
    (n: Notification) => n.userId == userId && n.kind == Anniversary && n.date == date && n.message == message
  }

  /** The user's due reminder is already filed (or none is due). */
  predicate Covered(notes: seq<Notification>, u: User, today: Date)
    requires PyDate(today)
  {
    Due(u, today).Some? ==>
      First(notes, SameNotice(u.id, u.anniversaryDate.value, Due(u, today).value)).Some?
  }

  /** One user's turn of the loop: the due reminder is filed, with the
      stored anniversary string as its date and unread, unless an equal one
      exists. */
  function NotifyUser(notes: seq<Notification>, u: User, today: Date, id: string, now: int): seq<Notification>
    requires PyDate(today)
  {
    if Covered(notes, u, today) then notes
    else notes + [Notification(id, u.id, Anniversary, Due(u, today).value, u.anniversaryDate.value, false, now)]
  }

  /** The query `{"anniversary_date": {"$exists": True, "$ne": None}}` with
      `to_list(1000)`. */
  function Candidates(users: seq<User>): seq<User> {
    Take(Filter(users, (u: User) => u.anniversaryDate.Some?), UserLimit)
  }

  /** The whole pass over `users`, in order; the `k`-th user's reminder gets
      identifier `ids(k)`. */
  function GenerateFor(notes: seq<Notification>, users: seq<User>, today: Date, ids: nat -> string, now: int)
    : seq<Notification>
    requires PyDate(today)
    decreases |users|
  {
    if users == [] then notes
    else
      var k := |users| - 1;
      NotifyUser(GenerateFor(notes, users[..k], today, ids, now), users[k], today, ids(k), now)
  }

  // ---------------------------------------------------------------------
  // What a pass files

  /** A filed reminder stays filed when the table grows. */
  lemma CoveredGrows(notes: seq<Notification>, longer: seq<Notification>, u: User, today: Date)
    requires PyDate(today) && Covered(notes, u, today) && notes <= longer
    ensures Covered(longer, u, today)
  {
    if Due(u, today).Some? {
      var p := SameNotice(u.id, u.anniversaryDate.value, Due(u, today).value);
      FirstSpec(notes, p);
      FirstSpec(longer, p);
      var n := First(notes, p).value;
      var i :| 0 <= i < |notes| && notes[i] == n;
      assert longer[i] == n;
    }
  }

  /** One user's turn files at most one notification, leaves the earlier
      ones alone, and leaves that user's reminder filed. */
  lemma NotifyUserSpec(notes: seq<Notification>, u: User, today: Date, id: string, now: int)
    requires PyDate(today)
    ensures var r := NotifyUser(notes, u, today, id, now);
            && notes <= r && |r| <= |notes| + 1
            && Covered(r, u, today)
            && (Covered(notes, u, today) ==> r == notes)
  {
    var r := NotifyUser(notes, u, today, id, now);
    if !Covered(notes, u, today) {
      var n := Notification(id, u.id, Anniversary, Due(u, today).value, u.anniversaryDate.value, false, now);
      var p := SameNotice(u.id, u.anniversaryDate.value, Due(u, today).value);
      assert r == notes + [n];
      assert p(n) && n in r;
      FirstSpec(r, p);
    }
  }

  /** A pass only appends: what it adds are unread anniversary reminders,
      at most one per user, each carrying a due message of one of the users
      and that user's stored anniversary string. */
  lemma {:induction false} GenerateAppends(notes: seq<Notification>, users: seq<User>, today: Date,
                                           ids: nat -> string, now: int)
    requires PyDate(today)
    decreases |users|
    ensures var r := GenerateFor(notes, users, today, ids, now);
            && notes <= r && |r| <= |notes| + |users|
            && forall i :: |notes| <= i < |r| ==>
                 r[i].kind == Anniversary && !r[i].read
                 && exists u :: u in users && r[i].userId == u.id && Due(u, today) == Some(r[i].message)
                                && u.anniversaryDate == Some(r[i].date)
  {
    if users != [] {
      var k := |users| - 1;
      var before := GenerateFor(notes, users[..k], today, ids, now);
      GenerateAppends(notes, users[..k], today, ids, now);
      NotifyUserSpec(before, users[k], today, ids(k), now);
      var r := GenerateFor(notes, users, today, ids, now);
      forall i | |notes| <= i < |r|
        ensures r[i].kind == Anniversary && !r[i].read
        ensures exists u :: u in users && r[i].userId == u.id && Due(u, today) == Some(r[i].message)
                            && u.anniversaryDate == Some(r[i].date)
      {
        if i < |before| {
          assert r[i] == before[i];
          var u :| u in users[..k] && before[i].userId == u.id && Due(u, today) == Some(before[i].message)
                   && u.anniversaryDate == Some(before[i].date);
          assert u in users;
        } else {
          assert users[k] in users;
        }
      }
    }
  }

  /** The ids of a sequence of users. */
  ghost function UserIds(users: seq<User>): set<string> {
    set u | u in users :: u.id
  }

  /** A user's turn that files a row files it for that user. */
  lemma NotifyUserFilesFor(notes: seq<Notification>, u: User, today: Date, id: string, now: int)
    requires PyDate(today)
    ensures var r := NotifyUser(notes, u, today, id, now);
            notes <= r && |r| <= |notes| + 1 && (|r| > |notes| ==> r[|notes|].userId == u.id)
  {
  }

  /** A pass keeps the table it starts from as a prefix. */
  lemma {:induction false} GenerateGrows(notes: seq<Notification>, users: seq<User>, today: Date,
                                         ids: nat -> string, now: int)
    requires PyDate(today)
    decreases |users|
    ensures notes <= GenerateFor(notes, users, today, ids, now)
  {
    if users != [] {
      var k := |users| - 1;
      GenerateGrows(notes, users[..k], today, ids, now);
      NotifyUserFilesFor(GenerateFor(notes, users[..k], today, ids, now), users[k], today, ids(k), now);
    }
  }

  /** With distinct ids, the last user's id is new to the ones before. */
  lemma LastUserIdIsNew(users: seq<User>)
    requires users != []
    requires forall a, b :: 0 <= a < b < |users| ==> users[a].id != users[b].id
    ensures users[|users| - 1].id !in UserIds(users[..|users| - 1])
    ensures UserIds(users) == UserIds(users[..|users| - 1]) + {users[|users| - 1].id}
  {
    var k := |users| - 1;
    assert users == users[..k] + [users[k]];
    forall u | u in users[..k]
      ensures u.id != users[k].id
    {
      var a :| 0 <= a < k && users[..k][a] == u;
      assert users[a] == u;
    }
  }

  /** Appending at most one row for a new id keeps the appended rows' ids
      distinct. */
  lemma OnePerUserStep(notes: seq<Notification>, before: seq<Notification>, r: seq<Notification>,
                       ids: set<string>, newId: string)
    requires |notes| <= |before| && before <= r && |r| <= |before| + 1
    requires |r| > |before| ==> r[|before|].userId == newId
    requires newId !in ids
    requires forall i :: |notes| <= i < |before| ==> before[i].userId in ids
    requires forall i, j :: |notes| <= i < j < |before| ==> before[i].userId != before[j].userId
    ensures forall i :: |notes| <= i < |r| ==> r[i].userId in ids + {newId}
    ensures forall i, j :: |notes| <= i < j < |r| ==> r[i].userId != r[j].userId
  {
    forall i | |notes| <= i < |r|
      ensures r[i].userId in ids + {newId}
    {
      if i < |before| {
        assert r[i] == before[i];
      }
    }
    forall i, j | |notes| <= i < j < |r|
      ensures r[i].userId != r[j].userId
    {
      assert r[i] == before[i];
      if j < |before| {
        assert r[j] == before[j];
      }
    }
  }

  /** With distinct user ids a pass files at most one reminder per user: no
      two appended rows share a `user_id`, and each belongs to a user of the
      pass. */
  lemma {:induction false} GenerateOnePerUser(notes: seq<Notification>, users: seq<User>, today: Date,
                                              ids: nat -> string, now: int)
    requires PyDate(today)
    requires forall a, b :: 0 <= a < b < |users| ==> users[a].id != users[b].id
    decreases |users|
    ensures forall i :: |notes| <= i < |GenerateFor(notes, users, today, ids, now)| ==>
              GenerateFor(notes, users, today, ids, now)[i].userId in UserIds(users)
    ensures forall i, j :: |notes| <= i < j < |GenerateFor(notes, users, today, ids, now)| ==>
              GenerateFor(notes, users, today, ids, now)[i].userId
              != GenerateFor(notes, users, today, ids, now)[j].userId
  {
    if users != [] {
      var k := |users| - 1;
      var before := GenerateFor(notes, users[..k], today, ids, now);
      GenerateOnePerUser(notes, users[..k], today, ids, now);
      GenerateGrows(notes, users[..k], today, ids, now);
      NotifyUserFilesFor(before, users[k], today, ids(k), now);
      LastUserIdIsNew(users);
      OnePerUserStep(notes, before, GenerateFor(notes, users, today, ids, now), UserIds(users[..k]), users[k].id);
    }
  }

  /** The pass over one more user is that user's turn after the shorter pass. */
  lemma GenerateStep(notes: seq<Notification>, users: seq<User>, i: nat, today: Date,
                     ids: nat -> string, now: int)
    requires PyDate(today) && i < |users|
    ensures GenerateFor(notes, users[..i + 1], today, ids, now)
            == NotifyUser(GenerateFor(notes, users[..i], today, ids, now), users[i], today, ids(i), now)
  {
    assert users[..i + 1][..i] == users[..i] && users[..i + 1][i] == users[i];
  }

  /** After a pass every user of the pass has their due reminder filed. */
  lemma {:induction false} GenerateCoversAll(notes: seq<Notification>, users: seq<User>, today: Date,
                                             ids: nat -> string, now: int)
    requires PyDate(today)
    decreases |users|
    ensures forall u :: u in users ==> Covered(GenerateFor(notes, users, today, ids, now), u, today)
  {
    if users != [] {
      var k := |users| - 1;
      var before := GenerateFor(notes, users[..k], today, ids, now);
      var r := GenerateFor(notes, users, today, ids, now);
      GenerateCoversAll(notes, users[..k], today, ids, now);
      NotifyUserSpec(before, users[k], today, ids(k), now);
      assert users == users[..k] + [users[k]];
      forall u | u in users[..k] ensures Covered(r, u, today) {
        CoveredGrows(before, r, u, today);
      }
    }
  }

  /** A pass over users whose reminders are all filed changes nothing. */
  lemma {:induction false} GenerateWhenCovered(notes: seq<Notification>, users: seq<User>, today: Date,
                                               ids: nat -> string, now: int)
    requires PyDate(today)
    requires forall u :: u in users ==> Covered(notes, u, today)
    decreases |users|
    ensures GenerateFor(notes, users, today, ids, now) == notes
  {
    if users != [] {
      var k := |users| - 1;
      GenerateWhenCovered(notes, users[..k], today, ids, now);
      assert users[k] in users;
      NotifyUserSpec(notes, users[k], today, ids(k), now);
    }
  }

  /** Running the pass twice on the same day files nothing the second time. */
  lemma GenerateIdempotent(notes: seq<Notification>, users: seq<User>, today: Date,
                           ids: nat -> string, now: int, ids2: nat -> string, now2: int)
    requires PyDate(today)
    ensures var once := GenerateFor(notes, users, today, ids, now);
            GenerateFor(once, users, today, ids2, now2) == once
  {
    var once := GenerateFor(notes, users, today, ids, now);
    GenerateCoversAll(notes, users, today, ids, now);
    GenerateWhenCovered(once, users, today, ids2, now2);
  }

  // ---------------------------------------------------------------------
  // The service's two entry points

  /** `generate_anniversary_notifications`: the loop over the candidates.
      A user without a usable date is skipped (`continue`, or the `except`
      branch) and the loop goes on with the next one. */
  method GenerateAnniversaryNotifications(db: Db, today: Date, ids: nat -> string, now: int)
    requires PyDate(today)
    modifies db`notifications
    ensures db.notifications == GenerateFor(old(db.notifications), Candidates(db.users), today, ids, now)
  {
    ghost var start := db.notifications;
    var users := Candidates(db.users);
    var i := 0;
    while i < |users|
      invariant 0 <= i <= |users|
      invariant db.notifications == GenerateFor(start, users[..i], today, ids, now)
    {
      ghost var before := db.notifications;
      GenerateStep(start, users, i, today, ids, now);
      NotifyOne(db, users[i], today, ids(i), now);
      assert db.notifications == NotifyUser(before, users[i], today, ids(i), now);
      i := i + 1;
    }
    assert users[..|users|] == users;
  }

  /** The body of the loop for one user: the days until the anniversary,
      the message for that many days, and the insert unless an equal
      notification is already stored. */
  method NotifyOne(db: Db, user: User, today: Date, id: string, now: int)
    requires PyDate(today)
    modifies db`notifications
    ensures db.notifications == NotifyUser(old(db.notifications), user, today, id, now)
  {
    if user.anniversaryDate.Some? && user.anniversaryDate.value != "" {
      var days := DaysUntil(user.anniversaryDate.value, today);
      if days.Some? {
        var message := Message(days.value);
        if message.Some? {
          var existing := First(db.notifications, SameNotice(user.id, user.anniversaryDate.value, message.value));
          if existing.None? {
            var notification :=
              Notification(id, user.id, Anniversary, message.value, user.anniversaryDate.value, false, now);
            db.notifications := db.notifications + [notification];
          }
        }
      }
    }
  }

  /** `get_user_notifications`: the user's own notifications, newest first,
      at most 100; all of them when there are no more. */
  method GetUserNotifications(db: Db, userId: string) returns (r: seq<Notification>)
    ensures |r| <= ListLimit && NewestFirst(r, NotificationCreatedAt)
    ensures forall i :: 0 <= i < |r| ==> r[i] in db.notifications && r[i].userId == userId
    ensures |Filter(db.notifications, (n: Notification) => n.userId == userId)| <= ListLimit ==>
              multiset(r) == multiset(Filter(db.notifications, (n: Notification) => n.userId == userId))
  {
    var mine := (n: Notification) => n.userId == userId;
    r := Query(db.notifications, mine, NotificationCreatedAt, ListLimit);
    QuerySpec(db.notifications, mine, NotificationCreatedAt, ListLimit);
  }
}
