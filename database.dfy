/** The backend's Mongo collections and the documents stored in them
    (the Pydantic models under `backend/models`). A document is a datatype; a collection is a
    sequence of documents in insertion order, held in a field of `Db` that the
    request handlers reassign. Identifiers (`uuid4`) and `created_at`
    (`datetime.utcnow`) are parameters of the handlers; `created_at` is a
    number of milliseconds. */
module Database {
  import opened Wrappers

  datatype User = User(
    id: string, username: string, passwordHash: string, role: string, displayName: string,
    partnerId: Option<string>, anniversaryDate: Option<string>, relationshipStart: Option<string>,
    createdAt: int)

  datatype Letter = Letter(
    id: string, title: string, content: string, fromUserId: string, fromName: string,
    toUserId: string, createdAt: int)

  datatype Photo = Photo(
    id: string, imageBase64: string, caption: string, date: string, uploadedBy: string,
    uploaderName: string, createdAt: int)

  datatype Mood = Mood(
    id: string, userId: string, username: string, role: string, mood: string, emoji: string,
    note: string, createdAt: int)

  /** `kind` is the document's `type` field. */
  datatype Notification = Notification(
    id: string, userId: string, kind: string, message: string, date: string, read: bool,
    createdAt: int)

  datatype Question = Question(id: string, questionText: string, category: string, date: string)

  datatype Answer = Answer(
    id: string, questionId: string, userId: string, username: string, role: string,
    answerText: string, createdAt: int)

  /** The claims of the bearer token, as the auth middleware hands them to a
      handler. `partnerId` is the partner at login time. */
  datatype CurrentUser = CurrentUser(
    id: string, username: string, role: string, displayName: string, partnerId: Option<string>)

  /** A handler's answer: its response, or an `HTTPException`. */
  datatype Outcome<T> = Ok(value: T) | Error(status: nat, detail: string)

  const BadRequest: nat := 400
  const Unauthorized: nat := 401
  const Forbidden: nat := 403
  const NotFound: nat := 404

  /** `{"user_id": current_user.get("partner_id", "")}`: the token always
      carries the key, so a missing partner is `None`, which matches no stored
      (string) user id. */
  predicate IsPartner(current: CurrentUser, userId: string) {
    current.partnerId == Some(userId)
  }

  /** The user or the partner (the couple's `$or` filters). */
  predicate OfCouple(current: CurrentUser, userId: string) {
    userId == current.id || IsPartner(current, userId)
  }

  /** Two tokens of partners linked to each other. */
  predicate Linked(a: CurrentUser, b: CurrentUser) {
    a.partnerId == Some(b.id) && b.partnerId == Some(a.id)
  }

  /** Linked partners' couple filters pick out the same two users. */
  lemma LinkedCoupleAgrees(a: CurrentUser, b: CurrentUser, userId: string)
    requires Linked(a, b)
    ensures OfCouple(a, userId) <==> OfCouple(b, userId)
    ensures OfCouple(a, userId) <==> userId == a.id || userId == b.id
  {
  }

  function UserId(u: User): string { u.id }
  function Username(u: User): string { u.username }
  function LetterId(l: Letter): string { l.id }
  function PhotoId(p: Photo): string { p.id }
  function NotificationId(n: Notification): string { n.id }
  function AnswerId(a: Answer): string { a.id }

  function LetterCreatedAt(l: Letter): int { l.createdAt }
  function PhotoCreatedAt(p: Photo): int { p.createdAt }
  function MoodCreatedAt(m: Mood): int { m.createdAt }
  function NotificationCreatedAt(n: Notification): int { n.createdAt }

  /** The database: one sequence per collection. */
  class Db {
    var users: seq<User>
    var letters: seq<Letter>
    var photos: seq<Photo>
    var moods: seq<Mood>
    var notifications: seq<Notification>
    var questions: seq<Question>
    var answers: seq<Answer>

    constructor ()
      ensures users == [] && letters == [] && photos == [] && moods == []
      ensures notifications == [] && questions == [] && answers == []
    {
      users, letters, photos, moods := [], [], [], [];
      notifications, questions, answers := [], [], [];
    }
  }
}
