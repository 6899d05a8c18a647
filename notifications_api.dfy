/** The notification endpoints (`backend/routers/notifications.py`): the
    listing, which runs the anniversary pass first, marking one notification
    read, and the unread count. */
module NotificationsApi {
  import opened Wrappers
  import opened Tables
  import opened Calendar
  import opened IsoDates
  import opened Database
  import opened NotificationService

  const NoticeMissing := "Notification not found"
  const NotYours := "This notification doesn't belong to you"
  const MarkedRead := "Notification marked as read"

  function OwnedBy(userId: string): Notification -> bool {
    (n: Notification) => n.userId == userId
  }

  function UnreadOf(userId: string): Notification -> bool {
    (n: Notification) => n.userId == userId && !n.read
  }

  function SetRead(): Notification -> Notification {
    (n: Notification) => n.(read := true)
  }

  /** `mark_as_read`'s `update_one`. */
  function MarkRead(notes: seq<Notification>, notificationId: string): seq<Notification> {
    UpdateFirst(notes, KeyIs(NotificationId, notificationId), SetRead())
  }

  /** `get_notifications`: the anniversary pass, then the user's listing:
      at most 100 of the user's notifications, newest first, and all of them
      when there are no more, so a reminder the pass files for the user is in
      that listing. */
  method GetNotifications(db: Db, current: CurrentUser, today: Date, ids: nat -> string, now: int)
    returns (r: seq<Notification>)
    requires PyDate(today)
    modifies db`notifications
    ensures db.notifications == GenerateFor(old(db.notifications), Candidates(db.users), today, ids, now)
    ensures |r| <= ListLimit && NewestFirst(r, NotificationCreatedAt)
    ensures forall i :: 0 <= i < |r| ==> r[i] in db.notifications && r[i].userId == current.id
    ensures |Filter(db.notifications, OwnedBy(current.id))| <= ListLimit ==>
              multiset(r) == multiset(Filter(db.notifications, OwnedBy(current.id)))
    ensures forall u :: u in Candidates(db.users) && u.id == current.id && Due(u, today).Some?
                        && |Filter(db.notifications, OwnedBy(current.id))| <= ListLimit ==>
              exists n :: n in r && n.message == Due(u, today).value && n.kind == Anniversary
  {
    GenerateAnniversaryNotifications(db, today, ids, now);
    GenerateCoversAll(old(db.notifications), Candidates(db.users), today, ids, now);
    r := Query(db.notifications, OwnedBy(current.id), NotificationCreatedAt, ListLimit);
    QuerySpec(db.notifications, OwnedBy(current.id), NotificationCreatedAt, ListLimit);
    FilterSpec(db.notifications, OwnedBy(current.id));
    forall u | u in Candidates(db.users) && u.id == current.id && Due(u, today).Some?
               && |Filter(db.notifications, OwnedBy(current.id))| <= ListLimit
      ensures exists n :: n in r && n.message == Due(u, today).value && n.kind == Anniversary
    {
      var p := SameNotice(u.id, u.anniversaryDate.value, Due(u, today).value);
      FirstSpec(db.notifications, p);
      var n := First(db.notifications, p).value;
      assert n in Filter(db.notifications, OwnedBy(current.id));
      assert n in multiset(r);
    }
  }

  /** `mark_as_read`: 404 for an unknown notification and 403 for another
      user's, both without change; otherwise that notification is marked read. */
  method MarkAsRead(db: Db, notificationId: string, current: CurrentUser) returns (r: Outcome<string>)
    modifies db`notifications
    ensures (forall n :: n in old(db.notifications) ==> n.id != notificationId) ==>
              r == Error(NotFound, NoticeMissing) && db.notifications == old(db.notifications)
    ensures var found := First(old(db.notifications), KeyIs(NotificationId, notificationId));
            found.Some? && found.value.userId != current.id ==>
              r == Error(Forbidden, NotYours) && db.notifications == old(db.notifications)
    ensures var found := First(old(db.notifications), KeyIs(NotificationId, notificationId));
            found.Some? && found.value.userId == current.id ==>
              r == Ok(MarkedRead) && db.notifications == MarkRead(old(db.notifications), notificationId)
  {
    var found := First(db.notifications, KeyIs(NotificationId, notificationId));
    FirstSpec(db.notifications, KeyIs(NotificationId, notificationId));
    if found.None? {
      return Error(NotFound, NoticeMissing);
    }
    assert NotificationId(found.value) == notificationId;
    if found.value.userId != current.id {
      return Error(Forbidden, NotYours);
    }
    db.notifications := UpdateFirst(db.notifications, KeyIs(NotificationId, notificationId), SetRead());
    r := Ok(MarkedRead);
  }

  /** Marking twice is marking once. */
  lemma MarkReadIdempotent(notes: seq<Notification>, notificationId: string)
    ensures MarkRead(MarkRead(notes, notificationId), notificationId) == MarkRead(notes, notificationId)
  {
    UpdateFirstIdempotent(notes, KeyIs(NotificationId, notificationId), SetRead());
  }

  /** With unique ids, marking sets `read` on that notification only. */
  lemma MarkReadOnlyThatOne(notes: seq<Notification>, notificationId: string)
    requires UniqueKeys(notes, NotificationId)
    ensures |MarkRead(notes, notificationId)| == |notes|
    ensures forall i :: 0 <= i < |notes| ==>
              MarkRead(notes, notificationId)[i]
              == if notes[i].id == notificationId then notes[i].(read := true) else notes[i]
  {
    UpdateByUniqueKey(notes, NotificationId, notificationId, SetRead());
  }

  /** Marking one of the user's unread notifications lowers their unread
      count by one. */
  lemma MarkReadLowersUnread(notes: seq<Notification>, k: nat)
    requires UniqueKeys(notes, NotificationId)
    requires k < |notes| && !notes[k].read
    ensures var after := MarkRead(notes, notes[k].id);
            |Filter(after, UnreadOf(notes[k].userId))| + 1 == |Filter(notes, UnreadOf(notes[k].userId))|
  {
    var uid := notes[k].userId;
    var after := MarkRead(notes, notes[k].id);
    MarkReadOnlyThatOne(notes, notes[k].id);
    FilterCountsMatches(after, UnreadOf(uid));
    FilterCountsMatches(notes, UnreadOf(uid));
    var before := Positions(notes, UnreadOf(uid));
    var now := Positions(after, UnreadOf(uid));
    forall i | 0 <= i < |notes| ensures (i in now) == (i in before && i != k) {
      if i != k {
        assert notes[i].id != notes[k].id;
        assert after[i] == notes[i];
      }
    }
    assert now == before - {k};
    assert k in before;
  }

  /** `get_unread_count`: the number of the user's notifications not yet read. */
  method GetUnreadCount(db: Db, current: CurrentUser) returns (count: nat)
    ensures count == |set i | 0 <= i < |db.notifications| && db.notifications[i].userId == current.id
                                && !db.notifications[i].read|
  {
    count := |Filter(db.notifications, UnreadOf(current.id))|;
    FilterCountsMatches(db.notifications, UnreadOf(current.id));
    var matching := Positions(db.notifications, UnreadOf(current.id));
    var unread := set i | 0 <= i < |db.notifications| && db.notifications[i].userId == current.id
                          && !db.notifications[i].read;
    forall i | 0 <= i < |db.notifications| ensures (i in matching) == (i in unread) { }
    assert matching == unread;
  }
}
