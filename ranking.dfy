/** The ranking step both queriers share: Python's sorted(scores,
    key=lambda x: x[1], reverse=True), which is stable (entries with equal
    scores keep their order), and the slice scores[:k]. */
module Ranking {
  import opened Wrappers
  import opened Errors

  /** A candidate paired with its custom score. */
  datatype Scored<T> = Scored(item: T, score: real)

  predicate SortedDescending<T>(s: seq<Scored<T>>) {
    forall i, j | 0 <= i < j < |s| :: s[i].score >= s[j].score
  }

  /** `x` placed into a descending sequence in front of every entry whose score
      is not greater than its own, so it precedes the equal scores of entries
      that came after it in the input. */
  function Insert<T>(x: Scored<T>, sorted: seq<Scored<T>>): (r: seq<Scored<T>>)
    ensures |r| == |sorted| + 1
    ensures multiset(r) == multiset(sorted) + multiset{x}
  {
    if sorted == [] || sorted[0].score <= x.score then [x] + sorted
    else
      assert sorted == [sorted[0]] + sorted[1..];
      [sorted[0]] + Insert(x, sorted[1..])
  }

  /** sorted(..., reverse=True) on the score */
  function SortByScoreDescending<T>(s: seq<Scored<T>>): (r: seq<Scored<T>>)
    ensures |r| == |s|
    decreases |s|
  {
    if s == [] then [] else Insert(s[0], SortByScoreDescending(s[1..]))
  }

  lemma {:induction false} InsertSorted<T>(x: Scored<T>, sorted: seq<Scored<T>>)
    requires SortedDescending(sorted)
    ensures SortedDescending(Insert(x, sorted))
    ensures Insert(x, sorted) != [] && (Insert(x, sorted)[0] == x || Insert(x, sorted)[0] == sorted[0])
  {
    if sorted == [] || sorted[0].score <= x.score {
    } else {
      InsertSorted(x, sorted[1..]);
      var rest := Insert(x, sorted[1..]);
      assert Insert(x, sorted) == [sorted[0]] + rest;
      assert rest[0] == x || rest[0] == sorted[1..][0];
    }
  }

  /** The ranking is in descending order of score. */
  lemma {:induction false} SortedByScore<T>(s: seq<Scored<T>>)
    ensures SortedDescending(SortByScoreDescending(s))
    decreases |s|
  {
    if s != [] {
      SortedByScore(s[1..]);
      InsertSorted(s[0], SortByScoreDescending(s[1..]));
    }
  }

  /** The ranking holds the same candidates, as often as the input does. */
  lemma {:induction false} RankingIsPermutation<T>(s: seq<Scored<T>>)
    ensures multiset(SortByScoreDescending(s)) == multiset(s)
    decreases |s|
  {
    if s != [] {
      RankingIsPermutation(s[1..]);
      assert s == [s[0]] + s[1..];
    }
  }

  /** The entries of `s` with score `v`, in their order in `s`. */
  function WithScore<T>(s: seq<Scored<T>>, v: real): seq<Scored<T>>
  {
    if s == [] then []
    else (if s[0].score == v then [s[0]] else []) + WithScore(s[1..], v)
  }

  lemma WithScoreOfCons<T>(x: Scored<T>, s: seq<Scored<T>>, v: real)
    ensures WithScore([x] + s, v) == (if x.score == v then [x] else []) + WithScore(s, v)
  {
    var l := [x] + s;
    assert l[0] == x && l[1..] == s;
  }

  lemma {:induction false} WithScoreOfInsert<T>(x: Scored<T>, sorted: seq<Scored<T>>, v: real)
    ensures WithScore(Insert(x, sorted), v) == (if x.score == v then [x] else []) + WithScore(sorted, v)
    decreases |sorted|
  {
    if sorted == [] || sorted[0].score <= x.score {
      WithScoreOfCons(x, sorted, v);
    } else {
      var rest := Insert(x, sorted[1..]);
      WithScoreOfInsert(x, sorted[1..], v);
      WithScoreOfCons(sorted[0], rest, v);
      WithScoreOfCons(sorted[0], sorted[1..], v);
      assert sorted == [sorted[0]] + sorted[1..];
      assert sorted[0].score != v || x.score != v;
    }
  }

  /** Stability: for every score, the entries with that score appear in the
      ranking in the order they had among the candidates. Together with the
      two lemmas above this determines the ranking completely. */
  lemma {:induction false} RankingIsStable<T>(s: seq<Scored<T>>, v: real)
    ensures WithScore(SortByScoreDescending(s), v) == WithScore(s, v)
    decreases |s|
  {
    if s != [] {
      RankingIsStable(s[1..], v);
      WithScoreOfInsert(s[0], SortByScoreDescending(s[1..]), v);
    }
  }

  /** Python's s[:k] for any integer k: a negative k counts from the end. */
  function PySliceTo<T>(s: seq<T>, k: int): (r: seq<T>)
    ensures r <= s
    ensures 0 <= k ==> |r| == (if k < |s| then k else |s|)
    ensures k < 0 ==> |r| == (if -k < |s| then |s| + k else 0)
  {
    if 0 <= k then (if k < |s| then s[..k] else s)
    else if -k < |s| then s[..|s| + k]
    else []
  }

  /** The items of the scored entries, in order. */
  function Ids<T>(s: seq<Scored<T>>): (r: seq<T>)
    ensures |r| == |s| && forall i | 0 <= i < |s| :: r[i] == s[i].item
  {
    seq(|s|, i requires 0 <= i < |s| => s[i].item)
  }

  /** The entries that make the top of the ranking are candidates. */
  lemma TopAreCandidates<T>(s: seq<Scored<T>>, k: int)
    ensures forall x | x in PySliceTo(SortByScoreDescending(s), k) :: x in s
  {
    RankingIsPermutation(s);
    forall x | x in PySliceTo(SortByScoreDescending(s), k) ensures x in s {
      assert x in multiset(SortByScoreDescending(s));
    }
  }

  /** The scoring loop both queriers run: for every (id, distance) pair the
      index returned, in order, `score` gives the candidate and its score or
      the error raised while reading its data. */
  function ScoreAll<T>(candidates: seq<(nat, real)>, score: (nat, real) -> Result<Scored<T>, Error>)
    : Result<seq<Scored<T>>, Error>
    decreases |candidates|
  {
    if candidates == [] then Success([])
    else
      var earlier :- ScoreAll(candidates[..|candidates| - 1], score);
      var last :- score(candidates[|candidates| - 1].0, candidates[|candidates| - 1].1);
      Success(earlier + [last])
  }

  /** The loop succeeds exactly when every candidate can be scored, and then
      gives every candidate's score in the order of the candidates; otherwise
      it stops at the first candidate that cannot be scored. */
  lemma {:induction false} ScoreAllCases<T>(candidates: seq<(nat, real)>, score: (nat, real) -> Result<Scored<T>, Error>)
    ensures ScoreAll(candidates, score).Success? <==>
      forall i | 0 <= i < |candidates| :: score(candidates[i].0, candidates[i].1).Success?
    ensures ScoreAll(candidates, score).Success? ==>
      && |ScoreAll(candidates, score).value| == |candidates|
      && forall i | 0 <= i < |candidates| ::
           ScoreAll(candidates, score).value[i] == score(candidates[i].0, candidates[i].1).value
    ensures ScoreAll(candidates, score).Failure? ==>
      exists i | 0 <= i < |candidates| ::
        && score(candidates[i].0, candidates[i].1) == Failure(ScoreAll(candidates, score).error)
        && forall j | 0 <= j < i :: score(candidates[j].0, candidates[j].1).Success?
    decreases |candidates|
  {
    if candidates != [] {
      var n := |candidates| - 1;
      var prefix := candidates[..n];
      ScoreAllCases(prefix, score);
      forall i | 0 <= i < n ensures prefix[i] == candidates[i] { }
    }
  }

  lemma {:induction false} ScoreAllPrefixFailure<T>(candidates: seq<(nat, real)>, k: nat,
                                                   score: (nat, real) -> Result<Scored<T>, Error>)
    requires k <= |candidates|
    requires ScoreAll(candidates[..k], score).Failure?
    ensures ScoreAll(candidates, score) == ScoreAll(candidates[..k], score)
    decreases |candidates| - k
  {
    if k < |candidates| {
      assert candidates[..k + 1][..k] == candidates[..k];
      ScoreAllPrefixFailure(candidates, k + 1, score);
    } else {
      assert candidates[..k] == candidates;
    }
  }

  /** The loop itself, appending each score to a list. */
  method ScoreCandidates<T>(candidates: seq<(nat, real)>, score: (nat, real) -> Result<Scored<T>, Error>)
    returns (r: Result<seq<Scored<T>>, Error>)
    ensures r == ScoreAll(candidates, score)
  {
    var scores := [];
    var i := 0;
    while i < |candidates|
      invariant 0 <= i <= |candidates|
      invariant ScoreAll(candidates[..i], score) == Success(scores)
    {
      assert candidates[..i + 1][..i] == candidates[..i];
      var next := score(candidates[i].0, candidates[i].1);
      if next.Failure? {
        ScoreAllPrefixFailure(candidates, i + 1, score);
        return Failure(next.error);
      }
      scores := scores + [next.value];
      i := i + 1;
    }
    assert candidates[..i] == candidates;
    return Success(scores);
  }
}
