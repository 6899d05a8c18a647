/** The mood endpoints (`backend/routers/moods.py`): the couple's mood
    history newest first, the latest mood of the user and of the partner,
    and sharing a mood attributed to the current user. */
module MoodsApi {
  import opened Wrappers
  import opened Tables
  import opened Database

  datatype MoodCreate = MoodCreate(mood: string, emoji: string, note: string)

  const MoodLimit: nat := 1000

  /** Moods shared by the user or by the partner. */
  function CoupleMood(current: CurrentUser): Mood -> bool {
    (m: Mood) => OfCouple(current, m.userId)
  }

  /** Moods shared by one user (`{"user_id": ...}`). */
  function MoodOf(userId: string): Mood -> bool {
    (m: Mood) => m.userId == userId
  }

  /** `if current_user.get("partner_id")`: a partner id that is present and
      not empty. */
  predicate HasPartner(current: CurrentUser) {
    current.partnerId.Some? && current.partnerId.value != ""
  }

  /** Whether the user has shared any mood. */
  ghost predicate HasMood(moods: seq<Mood>, userId: string) {
    exists m :: m in moods && m.userId == userId
  }

  /** `get_moods`: the couple's moods, newest first, at most 1000; all of
      them when there are no more. */
  method GetMoods(db: Db, current: CurrentUser) returns (r: seq<Mood>)
    ensures |r| <= MoodLimit && NewestFirst(r, MoodCreatedAt)
    ensures forall i :: 0 <= i < |r| ==> r[i] in db.moods && OfCouple(current, r[i].userId)
    ensures |Filter(db.moods, CoupleMood(current))| <= MoodLimit ==>
              multiset(r) == multiset(Filter(db.moods, CoupleMood(current)))
  {
    r := Query(db.moods, CoupleMood(current), MoodCreatedAt, MoodLimit);
    QuerySpec(db.moods, CoupleMood(current), MoodCreatedAt, MoodLimit);
  }

  /** Linked partners see the same mood history. */
  lemma PartnersSeeSameMoods(moods: seq<Mood>, a: CurrentUser, b: CurrentUser)
    requires Linked(a, b)
    ensures Query(moods, CoupleMood(a), MoodCreatedAt, MoodLimit)
            == Query(moods, CoupleMood(b), MoodCreatedAt, MoodLimit)
  {
    forall x | x in moods ensures CoupleMood(a)(x) == CoupleMood(b)(x) {
      LinkedCoupleAgrees(a, b, x.userId);
    }
    FilterAgrees(moods, CoupleMood(a), CoupleMood(b));
  }

  /** `get_latest_moods`: the user's newest mood when there is one, then the
      partner's newest when the token names a partner and that partner has
      shared a mood; each listed mood is the latest of its author. */
  method GetLatestMoods(db: Db, current: CurrentUser) returns (r: seq<Mood>)
    ensures |r| == (if HasMood(db.moods, current.id) then 1 else 0)
                   + (if HasPartner(current) && HasMood(db.moods, current.partnerId.value) then 1 else 0)
    ensures forall i :: 0 <= i < |r| ==>
              r[i] in db.moods && OfCouple(current, r[i].userId)
              && forall m :: m in db.moods && m.userId == r[i].userId ==> m.createdAt <= r[i].createdAt
    ensures HasMood(db.moods, current.id) ==> r[0].userId == current.id
    ensures |r| == 2 ==> r[1].userId == current.partnerId.value
  {
    r := [];
    var mine := Newest(db.moods, MoodOf(current.id), MoodCreatedAt);
    NewestSpec(db.moods, MoodOf(current.id), MoodCreatedAt);
    if mine.Some? {
      r := r + [mine.value];
    }
    if HasPartner(current) {
      var partner := current.partnerId.value;
      var theirs := Newest(db.moods, MoodOf(partner), MoodCreatedAt);
      NewestSpec(db.moods, MoodOf(partner), MoodCreatedAt);
      if theirs.Some? {
        r := r + [theirs.value];
      }
    }
  }

  /** `share_mood`: the author's id, username and role come from the token;
      the mood is added to the table. */
  method ShareMood(db: Db, req: MoodCreate, current: CurrentUser, id: string, now: int)
    returns (r: Mood)
    modifies db`moods
    ensures r.userId == current.id && r.username == current.username && r.role == current.role
    ensures r.mood == req.mood && r.emoji == req.emoji && r.note == req.note
    ensures r.id == id && r.createdAt == now
    ensures db.moods == old(db.moods) + [r]
  {
    r := Mood(id, current.id, current.username, current.role, req.mood, req.emoji, req.note, now);
    db.moods := db.moods + [r];
  }

  /** A mood shared after every earlier mood of its author becomes that
      author's latest mood. */
  lemma SharedMoodIsLatest(moods: seq<Mood>, m: Mood)
    requires forall x :: x in moods && x.userId == m.userId ==> x.createdAt < m.createdAt
    ensures Newest(moods + [m], MoodOf(m.userId), MoodCreatedAt) == Some(m)
  {
    NewestAfterInsert(moods, m, MoodOf(m.userId), MoodCreatedAt);
  }
}
