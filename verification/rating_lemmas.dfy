/** The rating arithmetic: how `rate_file` moves the count and the sum behind
    `AVG(rating)`, that the average stays within the score range, and that a file's
    average depends on its own ratings only. */
module RatingLemmas {
  import opened Wrappers
  import opened Ordering
  import opened Db

  /** The sum over a set of raters may take any member out first. */
  lemma {:induction false} SumRemove(ratings: map<(int, int), int>, fileId: int, us: set<int>, u: int)
    requires u in us
    ensures SumScores(ratings, fileId, us) == ScoreOf(ratings, fileId, u) + SumScores(ratings, fileId, us - {u})
    decreases us
  {
    var m := MinOf(us);
    if u != m {
      SumRemove(ratings, fileId, us - {m}, u);
      SumRemove(ratings, fileId, us - {u}, m);
      assert us - {m} - {u} == us - {u} - {m};
    }
  }

  /** The sum only looks at the scores of the raters it sums over. */
  lemma {:induction false} SumFrame(r1: map<(int, int), int>, r2: map<(int, int), int>, fileId: int, us: set<int>)
    requires forall u | u in us :: ScoreOf(r1, fileId, u) == ScoreOf(r2, fileId, u)
    ensures SumScores(r1, fileId, us) == SumScores(r2, fileId, us)
    decreases us
  {
    if us != {} {
      SumFrame(r1, r2, fileId, us - {MinOf(us)});
    }
  }

  /** Scores within 1..5 sum to between one and five times their number. */
  lemma {:induction false} SumBounds(ratings: map<(int, int), int>, fileId: int, us: set<int>)
    requires forall u | u in us :: MinScore <= ScoreOf(ratings, fileId, u) <= MaxScore
    ensures MinScore * |us| <= SumScores(ratings, fileId, us) <= MaxScore * |us|
    decreases us
  {
    if us != {} {
      var m := MinOf(us);
      SumBounds(ratings, fileId, us - {m});
    }
  }

  /** `rate_file` keeps every constraint of the store. */
  lemma RateFileValid(st: Store, fileId: int, userId: int, score: int)
    requires Valid(st) && RateFile(st, fileId, userId, score).Ok?
    ensures Valid(RateFile(st, fileId, userId, score).value)
  {
  }

  /** The upsert: a new rater adds one score, a returning rater's score is replaced,
      so each (file, rater) pair holds at most one score. */
  lemma RateFileCountAndTotal(st: Store, fileId: int, userId: int, score: int)
    requires RateFile(st, fileId, userId, score).Ok?
    ensures var s := RateFile(st, fileId, userId, score).value;
      && ScoreCount(s, fileId) == ScoreCount(st, fileId) + (if (fileId, userId) in st.ratings then 0 else 1)
      && TotalScore(s, fileId) == TotalScore(st, fileId) - ScoreOf(st.ratings, fileId, userId) + score
  {
    var s := RateFile(st, fileId, userId, score).value;
    var before := RatersOf(st.ratings, fileId);
    var after := RatersOf(s.ratings, fileId);
    assert after == before + {userId};
    SumFrame(s.ratings, st.ratings, fileId, before - {userId});
    SumRemove(s.ratings, fileId, after, userId);
    if userId in before {
      assert after == before;
      SumRemove(st.ratings, fileId, before, userId);
    } else {
      assert after - {userId} == before;
      assert before - {userId} == before;
    }
  }

  /** Rating one file leaves every other file's average as it was. */
  lemma RateFileOtherFiles(st: Store, fileId: int, userId: int, score: int, other: int)
    requires RateFile(st, fileId, userId, score).Ok? && other != fileId
    ensures AverageRating(RateFile(st, fileId, userId, score).value, other) == AverageRating(st, other)
  {
    var s := RateFile(st, fileId, userId, score).value;
    assert RatersOf(s.ratings, other) == RatersOf(st.ratings, other);
    SumFrame(s.ratings, st.ratings, other, RatersOf(st.ratings, other));
  }

  /** A rated file's average lies between the lowest and the highest score. */
  lemma AverageInRange(st: Store, fileId: int)
    requires Valid(st) && ScoreCount(st, fileId) > 0
    ensures MinScore as real <= AverageRating(st, fileId) <= MaxScore as real
  {
    TotalBounds(st, fileId);
    MeanBounds(TotalScore(st, fileId), ScoreCount(st, fileId), AverageRating(st, fileId));
  }

  /** The sum of a file's scores lies between one and five times their number. */
  lemma TotalBounds(st: Store, fileId: int)
    requires Valid(st)
    ensures ScoreCount(st, fileId) <= TotalScore(st, fileId) <= 5 * ScoreCount(st, fileId)
  {
    ScoresInRange(st, fileId);
    SumBounds(st.ratings, fileId, RatersOf(st.ratings, fileId));
  }

  /** A quotient of `t` by `n` lies in [1, 5] when `t` does in [n, 5n]. */
  lemma MeanBounds(t: int, n: int, avg: real)
    requires n > 0 && n <= t <= 5 * n && avg * n as real == t as real
    ensures 1.0 <= avg <= 5.0
  {
    var m := n as real;
    assert (avg - 1.0) * m == t as real - m;
    assert (5.0 - avg) * m == 5.0 * m - t as real;
  }

  /** Every score a valid store holds for a file is within 1..5. */
  lemma ScoresInRange(st: Store, fileId: int)
    requires Valid(st)
    ensures forall u | u in RatersOf(st.ratings, fileId) :: MinScore <= ScoreOf(st.ratings, fileId, u) <= MaxScore
  {
    forall u | u in RatersOf(st.ratings, fileId) ensures MinScore <= ScoreOf(st.ratings, fileId, u) <= MaxScore {
      assert (fileId, u) in st.ratings;
    }
  }

  /** A file nobody has rated reports 0. */
  lemma UnratedIsZero(st: Store, fileId: int)
    requires 0 < fileId <= MaxSqlInt && forall k | k in st.ratings :: k.0 != fileId
    ensures RatersOf(st.ratings, fileId) == {}
    ensures GetFileRating(st, fileId) == Ok(0.0)
  {
    EmptyOrMember(RatersOf(st.ratings, fileId));
  }

  /** Two raters give 2 and 4, then the first changes to 5: the average is (5 + 4) / 2. */
  lemma ReRateExample(st: Store, fileId: int, a: int, b: int)
    requires 0 < fileId <= MaxSqlInt && fileId in st.files && a != b
    requires 0 < a <= MaxSqlInt && 0 < b <= MaxSqlInt
    requires forall k | k in st.ratings :: k.0 != fileId
    ensures RateFile(st, fileId, a, 2).Ok?
    ensures RateFile(RateFile(st, fileId, a, 2).value, fileId, b, 4).Ok?
    ensures var s2 := RateFile(RateFile(st, fileId, a, 2).value, fileId, b, 4).value;
      RateFile(s2, fileId, a, 5).Ok? && GetFileRating(RateFile(s2, fileId, a, 5).value, fileId) == Ok(4.5)
  {
    var s1 := RateFile(st, fileId, a, 2).value;
    var s2 := RateFile(s1, fileId, b, 4).value;
    var s3 := RateFile(s2, fileId, a, 5).value;
    UnratedIsZero(st, fileId);
    RateFileCountAndTotal(st, fileId, a, 2);
    RateFileCountAndTotal(s1, fileId, b, 4);
    RateFileCountAndTotal(s2, fileId, a, 5);
    assert ScoreCount(s3, fileId) == 2 && TotalScore(s3, fileId) == 9;
  }
}
