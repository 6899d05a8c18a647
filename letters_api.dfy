/** The letter endpoints (`backend/routers/letters.py`): the couple's
    letters newest first, writing a letter signed by the current user, and
    deleting one's own letter. */
module LettersApi {
  import opened Wrappers
  import opened Tables
  import opened Database

  datatype LetterCreate = LetterCreate(title: string, content: string, toUserId: string)

  const LetterLimit: nat := 1000
  const LetterMissing := "Letter not found"
  const NotSender := "You can only delete your own letters"
  const LetterDeleted := "Letter deleted successfully"

  /** Letters sent or received by the user or by the partner. */
  function CoupleLetter(current: CurrentUser): Letter -> bool {
    (l: Letter) => OfCouple(current, l.fromUserId) || OfCouple(current, l.toUserId)
  }

  /** `get_letters`: the couple's letters, newest first, at most 1000; all of
      them when there are no more. */
  method GetLetters(db: Db, current: CurrentUser) returns (r: seq<Letter>)
    ensures |r| <= LetterLimit && NewestFirst(r, LetterCreatedAt)
    ensures forall i :: 0 <= i < |r| ==>
              r[i] in db.letters && (OfCouple(current, r[i].fromUserId) || OfCouple(current, r[i].toUserId))
    ensures |Filter(db.letters, CoupleLetter(current))| <= LetterLimit ==>
              multiset(r) == multiset(Filter(db.letters, CoupleLetter(current)))
  {
    r := Query(db.letters, CoupleLetter(current), LetterCreatedAt, LetterLimit);
    QuerySpec(db.letters, CoupleLetter(current), LetterCreatedAt, LetterLimit);
  }

  /** `create_letter`: the sender's id and name come from the token, never
      from the request; the letter is added to the table. */
  method CreateLetter(db: Db, req: LetterCreate, current: CurrentUser, id: string, now: int)
    returns (r: Letter)
    modifies db`letters
    ensures r.fromUserId == current.id && r.fromName == current.displayName
    ensures r.title == req.title && r.content == req.content && r.toUserId == req.toUserId
    ensures r.id == id && r.createdAt == now
    ensures db.letters == old(db.letters) + [r]
  {
    r := Letter(id, req.title, req.content, current.id, current.displayName, req.toUserId, now);
    db.letters := db.letters + [r];
  }

  /** A letter newer than every stored one heads its sender's listing. */
  lemma NewLetterListedFirst(letters: seq<Letter>, l: Letter, current: CurrentUser)
    requires l.fromUserId == current.id
    requires forall x :: x in letters ==> x.createdAt < l.createdAt
    ensures var listed := Query(letters + [l], CoupleLetter(current), LetterCreatedAt, LetterLimit);
            |listed| > 0 && listed[0] == l
  {
    NewestAfterInsert(letters, l, CoupleLetter(current), LetterCreatedAt);
    QueryStartsWithNewest(letters + [l], CoupleLetter(current), LetterCreatedAt, LetterLimit);
  }

  /** Linked partners see the same letters. */
  lemma PartnersSeeSameLetters(letters: seq<Letter>, a: CurrentUser, b: CurrentUser)
    requires Linked(a, b)
    ensures Query(letters, CoupleLetter(a), LetterCreatedAt, LetterLimit)
            == Query(letters, CoupleLetter(b), LetterCreatedAt, LetterLimit)
  {
    forall x | x in letters ensures CoupleLetter(a)(x) == CoupleLetter(b)(x) {
      LinkedCoupleAgrees(a, b, x.fromUserId);
      LinkedCoupleAgrees(a, b, x.toUserId);
    }
    FilterAgrees(letters, CoupleLetter(a), CoupleLetter(b));
  }

  /** `delete_letter`: 404 for an unknown letter and 403 for someone else's,
      both without change; the sender's delete removes exactly that letter
      and keeps the others in order. */
  method DeleteLetter(db: Db, letterId: string, current: CurrentUser) returns (r: Outcome<string>)
    modifies db`letters
    ensures (forall l :: l in old(db.letters) ==> l.id != letterId) ==>
              r == Error(NotFound, LetterMissing) && db.letters == old(db.letters)
    ensures var found := First(old(db.letters), KeyIs(LetterId, letterId));
            found.Some? && found.value.fromUserId != current.id ==>
              r == Error(Forbidden, NotSender) && db.letters == old(db.letters)
    ensures var found := First(old(db.letters), KeyIs(LetterId, letterId));
            found.Some? && found.value.fromUserId == current.id ==>
              r == Ok(LetterDeleted)
              && db.letters == RemoveFirst(old(db.letters), KeyIs(LetterId, letterId))
              && multiset(db.letters) + multiset{found.value} == multiset(old(db.letters))
              && (UniqueKeys(old(db.letters), LetterId) ==> forall l :: l in db.letters ==> l.id != letterId)
  {
    var found := First(db.letters, KeyIs(LetterId, letterId));
    FirstIndexSpec(db.letters, KeyIs(LetterId, letterId));
    FirstSpec(db.letters, KeyIs(LetterId, letterId));
    if found.None? {
      return Error(NotFound, LetterMissing);
    }
    assert LetterId(found.value) == letterId;
    if found.value.fromUserId != current.id {
      return Error(Forbidden, NotSender);
    }
    RemoveFirstSpec(db.letters, KeyIs(LetterId, letterId), FirstIndex(db.letters, KeyIs(LetterId, letterId)).value);
    if UniqueKeys(db.letters, LetterId) {
      RemoveFirstByKey(db.letters, LetterId, letterId);
    }
    db.letters := RemoveFirst(db.letters, KeyIs(LetterId, letterId));
    r := Ok(LetterDeleted);
  }
}
