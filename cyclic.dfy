/** Stepping an index around a list of `n` entries, as the lightboxes, the
    question rotation and the nickname tickers do with `%`. JavaScript's `%`
    and Dafny's agree here because both operands are never negative. */
module Cyclic {

  /** `(i + 1) % n`. */
  function Next(i: int, n: int): (r: int)
    requires 0 <= i && n > 0
    ensures 0 <= r < n
    ensures i < n - 1 ==> r == i + 1
    ensures i == n - 1 ==> r == 0
  {
    (i + 1) % n
  }

  /** `(i - 1 + n) % n`. */
  function Prev(i: int, n: int): (r: int)
    requires 0 <= i < n
    ensures 0 <= r < n
    ensures 0 < i ==> r == i - 1
    ensures i == 0 ==> r == n - 1
  {
    (i - 1 + n) % n
  }

  lemma PrevUndoesNext(i: int, n: int)
    requires 0 <= i < n
    ensures Prev(Next(i, n), n) == i
  {
  }

  lemma NextUndoesPrev(i: int, n: int)
    requires 0 <= i < n
    ensures Next(Prev(i, n), n) == i
  {
  }

  /** `k` consecutive `Next` steps. */
  function Steps(i: int, n: int, k: nat): (r: int)
    requires 0 <= i && n > 0
    ensures 0 <= r
    ensures k > 0 ==> r < n
  {
    if k == 0 then i else Next(Steps(i, n, k - 1), n)
  }

  /** Within one round, `k` steps from `i` land on `i + k`, wrapping past the end once. */
  lemma {:induction false} StepsWrap(i: int, n: int, k: nat)
    requires 0 <= i < n && k <= n
    ensures Steps(i, n, k) == if i + k < n then i + k else i + k - n
  {
    if k > 0 {
      StepsWrap(i, n, k - 1);
    }
  }

  /** Going once round the cycle comes back to the start. */
  lemma CycleReturns(i: int, n: int)
    requires 0 <= i < n
    ensures Steps(i, n, n) == i
  {
    StepsWrap(i, n, n);
  }
}
