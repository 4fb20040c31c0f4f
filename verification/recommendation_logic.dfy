/** `recommend_destinations`: keep the rows of the requested budget tier, score
    each as the mean of its ratings in the requested trip types, order them by
    score (highest first), keep every row whose "min" rank is at most 5, and
    project each kept row to city, country, region, description and score. */
module RecommendationLogic {
  import opened Text
  import opened Catalog

  /** A row of the filtered table together with its `score` column. */
  datatype Scored = Scored(row: Destination, score: real)

  /** One row of the returned frame: the five projected columns. */
  datatype Recommendation = Recommendation(
    city: string,
    country: string,
    region: string,
    shortDescription: string,
    score: real)

  // ---------------------------------------------------------------------------
  // Filter by budget tier

  /** The budget tiers compare equal after lower-casing both sides. */
  predicate MatchesBudget(d: Destination, level: string) {
    Lower(d.budgetLevel) == Lower(level)
  }

  /** The boolean mask applied row by row: the rows of `catalog` in tier
      `level`, in catalog order. */
  function TierRows(catalog: seq<Destination>, level: string): (r: seq<Destination>) {
    if catalog == [] then []
    else
      var rest := TierRows(catalog[1..], level);
      if MatchesBudget(catalog[0], level) then [catalog[0]] + rest else rest
  }

  /** The masked rows are the matching rows, each as often as the catalog
      holds it, and no other row. */
  lemma {:induction false} TierRowsCount(catalog: seq<Destination>, level: string)
    ensures forall d ::
      multiset(TierRows(catalog, level))[d] == (if MatchesBudget(d, level) then multiset(catalog)[d] else 0)
  {
    if catalog != [] {
      TierRowsCount(catalog[1..], level);
      assert catalog == [catalog[0]] + catalog[1..];
    }
  }

  /** Every masked row is a matching row of the catalog. */
  lemma {:induction false} TierRowsMembers(catalog: seq<Destination>, level: string)
    ensures forall i :: 0 <= i < |TierRows(catalog, level)| ==>
      TierRows(catalog, level)[i] in catalog && MatchesBudget(TierRows(catalog, level)[i], level)
  {
    if catalog != [] {
      TierRowsMembers(catalog[1..], level);
      assert catalog == [catalog[0]] + catalog[1..];
    }
  }

  /** `df[df['budget_level'].str.lower() == budget_level.lower()]`: the rows
      of the requested tier, each as often as the catalog holds it, and no
      other row. */
  function FilterByBudget(catalog: seq<Destination>, level: string): (r: seq<Destination>)
    ensures forall d :: multiset(r)[d] == if MatchesBudget(d, level) then multiset(catalog)[d] else 0
    ensures forall i :: 0 <= i < |r| ==> r[i] in catalog && MatchesBudget(r[i], level)
  {
    TierRowsCount(catalog, level);
    TierRowsMembers(catalog, level);
    TierRows(catalog, level)
  }

  /** The mask keeps the catalog's order: filtering a catalog made of two parts
      gives the filtered first part followed by the filtered second part. */
  lemma FilterByBudgetInOrder(a: seq<Destination>, b: seq<Destination>, level: string)
    ensures FilterByBudget(a + b, level) == FilterByBudget(a, level) + FilterByBudget(b, level)
  {
    TierRowsAppend(a, b, level);
  }

  lemma {:induction false} TierRowsAppend(a: seq<Destination>, b: seq<Destination>, level: string)
    ensures TierRows(a + b, level) == TierRows(a, level) + TierRows(b, level)
  {
    if a == [] {
      assert a + b == b;
    } else {
      assert (a + b)[1..] == a[1..] + b;
      TierRowsAppend(a[1..], b, level);
    }
  }

  // ---------------------------------------------------------------------------
  // Score

  /** The sum of the row's ratings over the requested list; a type listed twice
      is added twice. */
  function SumRatings(d: Destination, types: seq<string>): (r: real)
    requires RowHasColumns(d, types)
  {
    if types == [] then 0.0
    else SumRatings(d, types[..|types| - 1]) + d.ratings[types[|types| - 1]]
  }

  /** The `score` column: the sum divided by the length of the requested list. */
  function Score(d: Destination, types: seq<string>): (r: real)
    requires |types| > 0 && RowHasColumns(d, types)
  {
    SumRatings(d, types) / (|types| as real)
  }

  lemma {:induction false} SumRatingsWithin(d: Destination, types: seq<string>, lo: real, hi: real)
    requires RowRatingsWithin(d, types, lo, hi)
    ensures (|types| as real) * lo <= SumRatings(d, types) <= (|types| as real) * hi
  {
    if types != [] {
      var init := types[..|types| - 1];
      assert RowRatingsWithin(d, init, lo, hi) by {
        forall k | 0 <= k < |init| ensures init[k] == types[k] { }
      }
      SumRatingsWithin(d, init, lo, hi);
      var n := |init| as real;
      assert (n + 1.0) * lo == n * lo + lo && (n + 1.0) * hi == n * hi + hi;
      assert |types| as real == n + 1.0;
    }
  }

  /** A score is a mean: it lies within the range of the ratings it averages. */
  lemma ScoreWithin(d: Destination, types: seq<string>, lo: real, hi: real)
    requires |types| > 0 && RowRatingsWithin(d, types, lo, hi)
    ensures lo <= Score(d, types) <= hi
  {
    var n := |types| as real;
    var sum := SumRatings(d, types);
    SumRatingsWithin(d, types, lo, hi);
    assert sum / n * n == sum;
  }

  function ScoreAll(rows: seq<Destination>, types: seq<string>): (r: seq<Scored>)
    requires |types| > 0 && HasColumns(rows, types)
    ensures |r| == |rows|
    ensures forall i :: 0 <= i < |rows| ==> r[i] == Scored(rows[i], Score(rows[i], types))
  {
    seq(|rows|, i requires 0 <= i < |rows| => Scored(rows[i], Score(rows[i], types)))
  }

  /** The filtered table with its `score` column. */
  function Candidates(catalog: seq<Destination>, level: string, types: seq<string>): (r: seq<Scored>)
    requires |types| > 0 && HasColumns(catalog, types)
  {
    ScoreAll(FilterByBudget(catalog, level), types)
  }

  // ---------------------------------------------------------------------------
  // Sort, descending by score

  predicate SortedByScore(s: seq<Scored>) {
    forall i, j :: 0 <= i < j < |s| ==> s[i].score >= s[j].score
  }

  /** Places `x` before the first element whose score it is at least. */
  function Insert(x: Scored, s: seq<Scored>): (r: seq<Scored>)
    ensures |r| == |s| + 1 && (r[0] == x || (s != [] && r[0] == s[0]))
    ensures multiset(r) == multiset(s) + multiset{x}
  {
    if s == [] || x.score >= s[0].score then [x] + s
    else
      assert s == [s[0]] + s[1..];
      [s[0]] + Insert(x, s[1..])
  }

  /** Inserting into a column sorted by non-increasing score keeps it sorted. */
  lemma {:induction false} InsertSorted(x: Scored, s: seq<Scored>)
    requires SortedByScore(s)
    ensures SortedByScore(Insert(x, s))
  {
    if s == [] || x.score >= s[0].score {
      PrependTop(x, s);
    } else {
      SortedTail(s);
      InsertSorted(x, s[1..]);
      var rest := Insert(x, s[1..]);
      assert rest[0].score <= s[0].score by {
        if rest[0] != x {
          assert rest[0] == s[1];
        }
      }
      PrependTop(s[0], rest);
    }
  }

  lemma SortedTail(s: seq<Scored>)
    requires SortedByScore(s) && s != []
    ensures SortedByScore(s[1..])
  {
  }

  /** Putting an entry that scores at least the head of a sorted column in
      front of it keeps the column sorted. */
  lemma PrependTop(x: Scored, s: seq<Scored>)
    requires SortedByScore(s)
    requires s != [] ==> s[0].score <= x.score
    ensures SortedByScore([x] + s)
  {
  }

  /** `sort_values(by='score', ascending=False)`: an ordering by non-increasing
      score of the same rows. */
  function SortByScore(s: seq<Scored>): (r: seq<Scored>)
    ensures |r| == |s|
    ensures SortedByScore(r)
    ensures multiset(r) == multiset(s)
  {
    if s == [] then []
    else
      assert s == [s[0]] + s[1..];
      var rest := SortByScore(s[1..]);
      InsertSorted(s[0], rest);
      Insert(s[0], rest)
  }

  // ---------------------------------------------------------------------------
  // Rank with method "min", and the rank <= 5 selection

  /** How many entries of `s` score strictly more than `x`. */
  function CountAbove(s: seq<Scored>, x: real): (n: nat)
    ensures n <= |s|
  {
    if s == [] then 0 else (if s[0].score > x then 1 else 0) + CountAbove(s[1..], x)
  }

  /** `rank(method='min', ascending=False)` of a score within the column `pool`:
      one more than the number of strictly higher scores, so tied scores share
      the smallest rank of their group. */
  function MinRank(pool: seq<Scored>, x: real): (r: nat) {
    1 + CountAbove(pool, x)
  }

  /** The entries of `s` whose rank within `pool` is at most 5, in order. */
  function KeepRanked(s: seq<Scored>, pool: seq<Scored>): (r: seq<Scored>)
    ensures forall e :: multiset(r)[e] == if MinRank(pool, e.score) <= 5 then multiset(s)[e] else 0
  {
    if s == [] then []
    else
      var rest := KeepRanked(s[1..], pool);
      assert s == [s[0]] + s[1..];
      if MinRank(pool, s[0].score) <= 5 then [s[0]] + rest else rest
  }

  lemma {:induction false} KeepRankedMembers(s: seq<Scored>, pool: seq<Scored>)
    ensures forall e :: e in KeepRanked(s, pool) ==> e in s
  {
    if s != [] {
      KeepRankedMembers(s[1..], pool);
    }
  }

  lemma KeepRankedBounded(s: seq<Scored>, pool: seq<Scored>, y: real)
    requires forall i :: 0 <= i < |s| ==> s[i].score <= y
    ensures forall i :: 0 <= i < |KeepRanked(s, pool)| ==> KeepRanked(s, pool)[i].score <= y
  {
  }

  /** Keeping some entries of a sorted column leaves it sorted. */
  lemma {:induction false} KeepRankedSorted(s: seq<Scored>, pool: seq<Scored>)
    requires SortedByScore(s)
    ensures SortedByScore(KeepRanked(s, pool))
  {
    if s != [] {
      var r := KeepRanked(s, pool);
      var rest := KeepRanked(s[1..], pool);
      KeepRankedSorted(s[1..], pool);
      if MinRank(pool, s[0].score) <= 5 {
        KeepRankedBounded(s[1..], pool, s[0].score);
        PrependTop(s[0], rest);
      }
    }
  }

  /** The kept rows with their scores, highest first (`df_top` before projection). */
  function Ranked(catalog: seq<Destination>, level: string, types: seq<string>): (r: seq<Scored>)
    requires |types| > 0 && HasColumns(catalog, types)
  {
    var sorted := SortByScore(Candidates(catalog, level, types));
    KeepRanked(sorted, sorted)
  }

  function Project(s: seq<Scored>): (r: seq<Recommendation>)
    ensures |r| == |s|
    ensures forall i :: 0 <= i < |s| ==>
      r[i] == Recommendation(s[i].row.city, s[i].row.country, s[i].row.region,
                             s[i].row.shortDescription, s[i].score)
  {
    seq(|s|, i requires 0 <= i < |s| =>
      Recommendation(s[i].row.city, s[i].row.country, s[i].row.region,
                     s[i].row.shortDescription, s[i].score))
  }

  /** `recommend_destinations(df, budget_level, trip_types)`. The requested
      types must be non-empty and be columns of the table. */
  function Recommend(catalog: seq<Destination>, level: string, types: seq<string>): (r: seq<Recommendation>)
    requires |types| > 0 && HasColumns(catalog, types)
  {
    Project(Ranked(catalog, level, types))
  }

  // ---------------------------------------------------------------------------
  // Counting lemmas

  lemma {:induction false} CountAboveAppend(a: seq<Scored>, b: seq<Scored>, x: real)
    ensures CountAbove(a + b, x) == CountAbove(a, x) + CountAbove(b, x)
  {
    if a == [] {
      assert a + b == b;
    } else {
      assert (a + b)[1..] == a[1..] + b;
      CountAboveAppend(a[1..], b, x);
    }
  }

  /** Taking entry `k` out of a column lowers the count by one exactly when that
      entry is above the threshold. */
  lemma CountAboveRemove(b: seq<Scored>, k: nat, x: real)
    requires k < |b|
    ensures CountAbove(b, x) == CountAbove(b[..k] + b[k + 1..], x) + (if b[k].score > x then 1 else 0)
  {
    assert b == b[..k] + ([b[k]] + b[k + 1..]);
    CountAboveAppend(b[..k], [b[k]] + b[k + 1..], x);
    CountAboveAppend(b[..k], b[k + 1..], x);
    assert ([b[k]] + b[k + 1..])[1..] == b[k + 1..];
  }

  lemma MultisetRemove(a: seq<Scored>, b: seq<Scored>, k: nat)
    requires a != [] && k < |b| && b[k] == a[0] && multiset(a) == multiset(b)
    ensures multiset(a[1..]) == multiset(b[..k] + b[k + 1..])
  {
    assert b == b[..k] + [b[k]] + b[k + 1..];
    assert a == [a[0]] + a[1..];
    assert multiset(a[1..]) == multiset(a) - multiset{a[0]};
    assert multiset(b[..k] + b[k + 1..]) == multiset(b) - multiset{b[k]};
  }

  /** The count depends only on which entries there are, not on their order. */
  lemma {:induction false} CountAbovePermutation(a: seq<Scored>, b: seq<Scored>, x: real)
    requires multiset(a) == multiset(b)
    ensures CountAbove(a, x) == CountAbove(b, x)
  {
    if a == [] {
      assert |b| == |multiset(b)| == 0;
    } else {
      assert a[0] in multiset(b);
      var k :| 0 <= k < |b| && b[k] == a[0];
      MultisetRemove(a, b, k);
      CountAbovePermutation(a[1..], b[..k] + b[k + 1..], x);
      CountAboveRemove(b, k, x);
    }
  }

  /** A higher threshold has no more entries above it. */
  lemma {:induction false} CountAboveAntitone(s: seq<Scored>, x: real, y: real)
    requires x <= y
    ensures CountAbove(s, y) <= CountAbove(s, x)
  {
    if s != [] {
      CountAboveAntitone(s[1..], x, y);
    }
  }

  lemma {:induction false} CountAboveAll(s: seq<Scored>, x: real)
    requires forall i :: 0 <= i < |s| ==> s[i].score > x
    ensures CountAbove(s, x) == |s|
  {
    if s != [] {
      CountAboveAll(s[1..], x);
    }
  }

  lemma {:induction false} CountAboveNone(s: seq<Scored>, x: real)
    requires forall i :: 0 <= i < |s| ==> s[i].score <= x
    ensures CountAbove(s, x) == 0
  {
    if s != [] {
      CountAboveNone(s[1..], x);
    }
  }

  /** An entry never counts as above its own score. */
  lemma {:induction false} CountAboveMember(s: seq<Scored>, e: Scored)
    requires e in s
    ensures CountAbove(s, e.score) < |s|
  {
    if s[0] != e {
      CountAboveMember(s[1..], e);
    }
  }

  /** In a sorted column, only entries before position `i` can beat entry `i`. */
  lemma CountAboveSorted(s: seq<Scored>, i: nat)
    requires SortedByScore(s) && i < |s|
    ensures CountAbove(s, s[i].score) <= i
  {
    assert s == s[..i] + s[i..];
    CountAboveAppend(s[..i], s[i..], s[i].score);
    CountAboveNone(s[i..], s[i].score);
  }

  /** In a sorted column of at least five, "fewer than five entries score more
      than x" is the same as "x is at least the fifth-highest score". */
  lemma FewerThanFiveAboveIffAtLeastFifth(s: seq<Scored>, x: real)
    requires SortedByScore(s) && |s| >= 5
    ensures CountAbove(s, x) < 5 <==> x >= s[4].score
  {
    if x >= s[4].score {
      assert s == s[..4] + s[4..];
      CountAboveAppend(s[..4], s[4..], x);
      CountAboveNone(s[4..], x);
    } else {
      assert s == s[..5] + s[5..];
      CountAboveAppend(s[..5], s[5..], x);
      CountAboveAll(s[..5], x);
    }
  }

  lemma {:induction false} KeepRankedKeepsPrefix(s: seq<Scored>, pool: seq<Scored>, m: nat)
    requires m <= |s|
    requires forall i :: 0 <= i < m ==> MinRank(pool, s[i].score) <= 5
    ensures |KeepRanked(s, pool)| >= m
  {
    if m > 0 {
      KeepRankedKeepsPrefix(s[1..], pool, m - 1);
    }
  }

  // ---------------------------------------------------------------------------
  // What recommend_destinations promises

  /** The scored candidates are exactly the rows of the requested tier, each
      with the mean of its requested ratings. */
  lemma CandidatesAreTierRows(catalog: seq<Destination>, level: string, types: seq<string>)
    requires |types| > 0 && HasColumns(catalog, types)
    ensures |Candidates(catalog, level, types)| == |FilterByBudget(catalog, level)|
    ensures forall e :: e in Candidates(catalog, level, types) <==>
      e.row in catalog && MatchesBudget(e.row, level) && e.score == Score(e.row, types)
  {
  }

  /** The inclusion criterion: a candidate is kept, with all its copies, exactly
      when fewer than five candidates score strictly more than it (its "min"
      rank is at most 5); nothing else is returned. */
  lemma RankedSelection(catalog: seq<Destination>, level: string, types: seq<string>)
    requires |types| > 0 && HasColumns(catalog, types)
    ensures forall e ::
      multiset(Ranked(catalog, level, types))[e] ==
        (if CountAbove(Candidates(catalog, level, types), e.score) < 5
         then multiset(Candidates(catalog, level, types))[e] else 0)
  {
    var c := Candidates(catalog, level, types);
    var sorted := SortByScore(c);
    forall e: Scored {
      CountAbovePermutation(sorted, c, e.score);
    }
  }

  /** A row of the requested tier is recommended exactly when fewer than five
      rows of that tier score strictly more. */
  lemma RecommendIncludesRow(catalog: seq<Destination>, level: string, types: seq<string>, d: Destination)
    requires |types| > 0 && HasColumns(catalog, types)
    requires d in catalog && MatchesBudget(d, level)
    ensures Scored(d, Score(d, types)) in Ranked(catalog, level, types) <==>
      CountAbove(Candidates(catalog, level, types), Score(d, types)) < 5
  {
    var e := Scored(d, Score(d, types));
    CandidatesAreTierRows(catalog, level, types);
    RankedSelection(catalog, level, types);
    assert e in multiset(Candidates(catalog, level, types));
  }

  /** Ties at fifth place are all kept: with at least five rows in the tier, a
      row is recommended exactly when its score reaches the fifth-highest. */
  lemma RecommendFifthHighestCutoff(catalog: seq<Destination>, level: string, types: seq<string>)
    requires |types| > 0 && HasColumns(catalog, types)
    requires |FilterByBudget(catalog, level)| >= 5
    ensures forall e :: e in Candidates(catalog, level, types) ==>
      (e in Ranked(catalog, level, types) <==>
       e.score >= SortByScore(Candidates(catalog, level, types))[4].score)
  {
    var c := Candidates(catalog, level, types);
    var sorted := SortByScore(c);
    RankedSelection(catalog, level, types);
    forall e | e in c
      ensures e in Ranked(catalog, level, types) <==> e.score >= sorted[4].score
    {
      assert e in multiset(c);
      CountAbovePermutation(sorted, c, e.score);
      FewerThanFiveAboveIffAtLeastFifth(sorted, e.score);
    }
  }

  /** No row left out scores strictly more than a row that is recommended. */
  lemma RecommendNoBetterRowExcluded(catalog: seq<Destination>, level: string, types: seq<string>)
    requires |types| > 0 && HasColumns(catalog, types)
    ensures forall e, f ::
      e in Ranked(catalog, level, types) && f in Candidates(catalog, level, types) && f.score > e.score
      ==> f in Ranked(catalog, level, types)
  {
    var c := Candidates(catalog, level, types);
    var r := Ranked(catalog, level, types);
    RankedSelection(catalog, level, types);
    forall e, f | e in r && f in c && f.score > e.score
      ensures f in r
    {
      assert e in multiset(r);
      assert f in multiset(c);
      CountAboveAntitone(c, e.score, f.score);
    }
  }

  /** At least five rows come back when the tier has five or more, and every
      row of the tier comes back when it has at most five. */
  lemma RecommendSize(catalog: seq<Destination>, level: string, types: seq<string>)
    requires |types| > 0 && HasColumns(catalog, types)
    ensures var n := |FilterByBudget(catalog, level)|;
      |Recommend(catalog, level, types)| >= (if n < 5 then n else 5)
    ensures |FilterByBudget(catalog, level)| <= 5 ==>
      multiset(Ranked(catalog, level, types)) == multiset(Candidates(catalog, level, types))
  {
    var c := Candidates(catalog, level, types);
    var sorted := SortByScore(c);
    var m := if |c| < 5 then |c| else 5;
    assert |sorted| == |multiset(sorted)| == |c|;
    forall i | 0 <= i < m ensures MinRank(sorted, sorted[i].score) <= 5 {
      CountAboveSorted(sorted, i);
    }
    KeepRankedKeepsPrefix(sorted, sorted, m);
    if |c| <= 5 {
      RankedSelection(catalog, level, types);
      forall e | e in c ensures CountAbove(c, e.score) < 5 {
        CountAboveMember(c, e);
      }
    }
  }

  /** The kept rows are candidates, in non-increasing order of score. */
  lemma RankedAreSortedCandidates(catalog: seq<Destination>, level: string, types: seq<string>)
    requires |types| > 0 && HasColumns(catalog, types)
    ensures SortedByScore(Ranked(catalog, level, types))
    ensures forall e :: e in Ranked(catalog, level, types) ==> e in Candidates(catalog, level, types)
  {
    var c := Candidates(catalog, level, types);
    var sorted := SortByScore(c);
    KeepRankedSorted(sorted, sorted);
    KeepRankedMembers(sorted, sorted);
    forall e | e in sorted ensures e in c {
      assert e in multiset(sorted);
    }
  }

  /** Every returned row is a row of the requested tier projected to its five
      columns, its score is the mean of its requested ratings, and the rows
      come in non-increasing order of score. */
  lemma RecommendRows(catalog: seq<Destination>, level: string, types: seq<string>)
    requires |types| > 0 && HasColumns(catalog, types)
    ensures |Recommend(catalog, level, types)| == |Ranked(catalog, level, types)|
    ensures forall i :: 0 <= i < |Ranked(catalog, level, types)| ==>
      var e := Ranked(catalog, level, types)[i];
      e.row in catalog && MatchesBudget(e.row, level) && e.score == Score(e.row, types) &&
      Recommend(catalog, level, types)[i] ==
        Recommendation(e.row.city, e.row.country, e.row.region, e.row.shortDescription, e.score)
    ensures forall i, j :: 0 <= i < j < |Recommend(catalog, level, types)| ==>
      Recommend(catalog, level, types)[i].score >= Recommend(catalog, level, types)[j].score
  {
    var r := Ranked(catalog, level, types);
    CandidatesAreTierRows(catalog, level, types);
    RankedAreSortedCandidates(catalog, level, types);
    forall i | 0 <= i < |r| ensures r[i] in Candidates(catalog, level, types) {
      assert r[i] in r;
    }
  }

  /** There is no fallback: a tier that no row has yields no recommendation. */
  lemma RecommendEmptyWithoutTierMatch(catalog: seq<Destination>, level: string, types: seq<string>)
    requires |types| > 0 && HasColumns(catalog, types)
    requires forall d :: d in catalog ==> !MatchesBudget(d, level)
    ensures Recommend(catalog, level, types) == []
  {
  }

  /** Scores are means, so when every requested rating of the catalog lies in
      `[lo, hi]` every recommended score does too. */
  lemma RecommendScoresWithin(catalog: seq<Destination>, level: string, types: seq<string>, lo: real, hi: real)
    requires |types| > 0 && HasColumns(catalog, types)
    requires forall d :: d in catalog ==> RowRatingsWithin(d, types, lo, hi)
    ensures forall i :: 0 <= i < |Recommend(catalog, level, types)| ==>
      lo <= Recommend(catalog, level, types)[i].score <= hi
  {
    RecommendRows(catalog, level, types);
    var r := Ranked(catalog, level, types);
    forall i | 0 <= i < |r| ensures lo <= r[i].score <= hi {
      ScoreWithin(r[i].row, types, lo, hi);
    }
  }
}
