/** The computational rules of the web front end: the request guard before a
    recommendation, the star pictures for a score, the half-step rating picker,
    the budget option labels and their parsing back to a tier name, and adding
    a rated city to the ratings table. The table lives in memory here; the
    remote storage it is read from and written to is not part of this model. */
module StreamlitApp {
  import opened Wrappers
  import opened Text
  import opened Catalog
  import opened RecommendationLogic

  // ---------------------------------------------------------------------------
  // "Get Recommendations"

  /** The button handler: with no trip type selected it warns instead of
      recommending (`None`); otherwise it asks the engine. The selector only
      offers the eight trip-type columns of the table. */
  function RequestRecommendations(catalog: seq<Destination>, level: string, selected: seq<string>)
    : (r: Option<seq<Recommendation>>)
    requires HasColumns(catalog, TripTypes)
    requires forall k :: 0 <= k < |selected| ==> selected[k] in TripTypes
    ensures r.None? <==> selected == []
    ensures r.Some? ==> r.value == Recommend(catalog, level, selected)
  {
    if selected == [] then None
    else
      assert HasColumns(catalog, selected) by {
        forall d | d in catalog ensures RowHasColumns(d, selected) {
          assert RowHasColumns(d, TripTypes);
        }
      }
      Some(Recommend(catalog, level, selected))
  }

  // ---------------------------------------------------------------------------
  // display_stars_html

  datatype Star = Full | Half | Empty

  /** Python's `int(x)` on a float: truncation toward zero. */
  function Truncate(x: real): (n: int)
    ensures x >= 0.0 ==> n as real <= x < n as real + 1.0
    ensures x < 0.0 ==> n as real - 1.0 < x <= n as real
  {
    if x >= 0.0 then x.Floor else -((-x).Floor)
  }

  datatype StarCounts = StarCounts(full: int, half: int, empty: int)

  function CountStars(rating: real, maxStars: int): (r: StarCounts) {
    var full := Truncate(rating);
    var half := if rating - full as real >= 0.5 then 1 else 0;
    StarCounts(full, half, maxStars - full - half)
  }

  /** `symbol * n`: `n` copies, none when `n` is zero or negative. */
  function Repeat(x: Star, n: int): (r: seq<Star>)
    ensures |r| == (if n <= 0 then 0 else n)
    ensures forall i :: 0 <= i < |r| ==> r[i] == x
  {
    if n <= 0 then [] else [x] + Repeat(x, n - 1)
  }

  /** The stars drawn for a score: full, then half, then empty ones. */
  function StarsShown(rating: real, maxStars: int): (r: seq<Star>) {
    var c := CountStars(rating, maxStars);
    Repeat(Full, c.full) + Repeat(Half, c.half) + Repeat(Empty, c.empty)
  }

  /** For a rating between 0 and `maxStars` the three counts are non-negative
      and add up to `maxStars`: the whole part of the rating in full stars, one
      half star when its fraction reaches one half, the rest empty. */
  lemma StarCountsPartition(rating: real, maxStars: int)
    requires 0.0 <= rating <= maxStars as real
    ensures var c := CountStars(rating, maxStars);
      c.full >= 0 && c.half >= 0 && c.empty >= 0 && c.full + c.half + c.empty == maxStars
      && c.full as real <= rating < c.full as real + 1.0
      && (c.half == 1 <==> rating - c.full as real >= 0.5)
    ensures |StarsShown(rating, maxStars)| == maxStars
  {
  }

  // ---------------------------------------------------------------------------
  // star_rating_half

  /** The options of the half-star picker: `[i * 0.5 for i in range(11)]`. */
  function RatingOptions(): (r: seq<real>) {
    seq(11, i => i as real * 0.5)
  }

  predicate IsHalfStep(x: real) {
    (2.0 * x).Floor as real == 2.0 * x
  }

  /** The picker offers exactly the half steps from 0 to 5. */
  lemma RatingOptionsAreHalfSteps(x: real)
    ensures x in RatingOptions() <==> 0.0 <= x <= 5.0 && IsHalfStep(x)
  {
    var options := RatingOptions();
    if 0.0 <= x <= 5.0 && IsHalfStep(x) {
      var k := (2.0 * x).Floor;
      assert 0 <= k <= 10;
      assert options[k] == x;
    }
    if x in options {
      var k :| 0 <= k < 11 && options[k] == x;
      assert 2.0 * x == k as real;
    }
  }

  /** The first position of `x` in `s` (Python's `list.index`). */
  function IndexOf(s: seq<real>, x: real): (i: nat)
    requires x in s
    ensures i < |s| && s[i] == x
    ensures forall j :: 0 <= j < i ==> s[j] != x
  {
    if s[0] == x then 0 else 1 + IndexOf(s[1..], x)
  }

  /** The option the picker starts on: the stored rating when it is one of the
      options, the first option (0.0) otherwise. */
  function InitialIndex(stored: real): (i: nat)
    ensures i < |RatingOptions()|
    ensures stored in RatingOptions() ==> RatingOptions()[i] == stored
    ensures stored !in RatingOptions() ==> i == 0
  {
    if stored in RatingOptions() then IndexOf(RatingOptions(), stored) else 0
  }

  /** Symbol `i` (1 to 5) of the picker's star row. */
  function StarAt(rating: real, i: int): (r: Star) {
    if rating >= i as real then Full
    else if rating >= i as real - 0.5 then Half
    else Empty
  }

  function HalfStarRow(rating: real): (r: seq<Star>) {
    seq(5, k => StarAt(rating, k + 1))
  }

  /** The loop that draws the picker's five stars. */
  method StarRow(rating: real) returns (row: seq<Star>)
    ensures row == HalfStarRow(rating)
    ensures forall k :: 0 <= k < 5 ==>
      (row[k] == Full <==> rating >= (k + 1) as real) &&
      (row[k] == Half <==> (k + 1) as real - 0.5 <= rating < (k + 1) as real) &&
      (row[k] == Empty <==> rating < (k + 1) as real - 0.5)
  {
    row := [];
    for i := 1 to 6
      invariant |row| == i - 1
      invariant forall k :: 0 <= k < i - 1 ==> row[k] == StarAt(rating, k + 1)
    {
      if rating >= i as real {
        row := row + [Full];
      } else if rating >= i as real - 0.5 {
        row := row + [Half];
      } else {
        row := row + [Empty];
      }
    }
  }

  /** The picker's star row and the score display agree: for a rating from 0
      to 5 both draw the same five stars. */
  lemma StarRowMatchesStarsShown(rating: real)
    requires 0.0 <= rating <= 5.0
    ensures HalfStarRow(rating) == StarsShown(rating, 5)
  {
  }

  /** Every recommended score is drawn as exactly five stars, provided the
      catalog's requested ratings lie between 0 and 5. */
  lemma RecommendedStarsFill(catalog: seq<Destination>, level: string, types: seq<string>)
    requires |types| > 0 && HasColumns(catalog, types)
    requires forall d :: d in catalog ==> RowRatingsWithin(d, types, 0.0, 5.0)
    ensures forall i :: 0 <= i < |Recommend(catalog, level, types)| ==>
      |StarsShown(Recommend(catalog, level, types)[i].score, 5)| == 5
  {
    RecommendScoresWithin(catalog, level, types, 0.0, 5.0);
    var out := Recommend(catalog, level, types);
    forall i | 0 <= i < |out| ensures |StarsShown(out[i].score, 5)| == 5 {
      StarCountsPartition(out[i].score, 5);
    }
  }

  // ---------------------------------------------------------------------------
  // Budget options

  /** The label offered for a tier, e.g. "Mid-range (150-350)" or
      "Luxury (350-1000+)". */
  function BudgetLabel(t: BudgetTier): (r: string) {
    if t.high >= 1000 then t.name + " (" + NatToString(t.low) + "-" + NatToString(t.high) + "+)"
    else t.name + " (" + NatToString(t.low) + "-" + NatToString(t.high) + ")"
  }

  function BudgetOptions(): (r: seq<string>) {
    seq(|BudgetTiers|, i requires 0 <= i < |BudgetTiers| => BudgetLabel(BudgetTiers[i]))
  }

  /** `s` does not contain the separator " (". */
  predicate NoSeparator(s: string) {
    forall i :: 0 <= i < |s| - 1 ==> !(s[i] == ' ' && s[i + 1] == '(')
  }

  /** `choice.split(" (")[0]`: the text before the first " (", or all of it. */
  function LevelOfOption(choice: string): (level: string)
    ensures |level| <= |choice| && level == choice[..|level|]
    ensures NoSeparator(level)
    ensures |level| < |choice| ==> |level| + 2 <= |choice| && choice[|level|..|level| + 2] == " ("
  {
    if |choice| < 2 then choice
    else if choice[0] == ' ' && choice[1] == '(' then ""
    else
      var rest := LevelOfOption(choice[1..]);
      assert NoSeparator([choice[0]] + rest) by {
        if |rest| > 0 {
          assert rest[0] == choice[1];
        }
      }
      [choice[0]] + rest
  }

  lemma {:induction false} LevelOfLabelled(level: string, rest: string)
    requires NoSeparator(level)
    ensures LevelOfOption(level + " (" + rest) == level
  {
    var s := level + " (" + rest;
    if level != [] {
      assert s[1..] == level[1..] + " (" + rest;
      assert NoSeparator(level[1..]);
      LevelOfLabelled(level[1..], rest);
      if |level| >= 2 {
        assert !(s[0] == ' ' && s[1] == '(');
      }
    }
  }

  /** Reading the tier back from its label gives the tier's name, for any tier
      whose name has no " (" in it. */
  lemma BudgetLabelRoundTrip(t: BudgetTier)
    requires NoSeparator(t.name)
    ensures LevelOfOption(BudgetLabel(t)) == t.name
  {
    var tail := if t.high >= 1000 then NatToString(t.low) + "-" + NatToString(t.high) + "+)"
                else NatToString(t.low) + "-" + NatToString(t.high) + ")";
    assert BudgetLabel(t) == t.name + " (" + tail;
    LevelOfLabelled(t.name, tail);
  }

  /** Each of the three offered options reads back as its own tier's name, and
      only the open-ended tier (upper bound 1000 or more), Luxury, is shown
      with "+". */
  lemma BudgetOptionsRoundTrip()
    ensures |BudgetOptions()| == |BudgetTiers|
    ensures forall i :: 0 <= i < |BudgetTiers| ==> LevelOfOption(BudgetOptions()[i]) == BudgetTiers[i].name
    ensures forall i :: 0 <= i < |BudgetTiers| ==> (BudgetTiers[i].high >= 1000 <==> BudgetTiers[i].name == "Luxury")
  {
    TierNamesHaveNoSeparator();
    forall i | 0 <= i < |BudgetTiers|
      ensures LevelOfOption(BudgetOptions()[i]) == BudgetTiers[i].name
    {
      BudgetLabelRoundTrip(BudgetTiers[i]);
    }
  }

  lemma TierNamesHaveNoSeparator()
    ensures forall i :: 0 <= i < |BudgetTiers| ==> NoSeparator(BudgetTiers[i].name)
  {
  }

  /** A label ends in "+)" exactly when the tier's upper bound is 1000 or more. */
  lemma BudgetLabelOpenEnded(t: BudgetTier)
    ensures var text := BudgetLabel(t);
      |text| >= 2 && (text[|text| - 2] == '+' <==> t.high >= 1000)
  {
  }

  // ---------------------------------------------------------------------------
  // "Add Rating"

  /** `is_valid = lambda x: bool(x and x.strip())` */
  predicate IsValidField(x: string) {
    x != [] && Strip(x) != []
  }

  datatype AddOutcome = CityEmpty | CountryEmpty | RegionEmpty | CityExists | Added

  /** The three checks, in the order they run, on the already stripped fields;
      `None` when all pass. A field is rejected exactly when it is empty or all
      whitespace. */
  function FirstInvalidField(city: string, country: string, region: string): (r: Option<AddOutcome>)
    ensures r == Some(CityEmpty) <==> AllSpace(city)
    ensures r == Some(CountryEmpty) <==> !AllSpace(city) && AllSpace(country)
    ensures r == Some(RegionEmpty) <==> !AllSpace(city) && !AllSpace(country) && AllSpace(region)
    ensures r == None <==> !AllSpace(city) && !AllSpace(country) && !AllSpace(region)
  {
    StripEmptyIffBlank(city);
    StripEmptyIffBlank(country);
    StripEmptyIffBlank(region);
    if !IsValidField(city) then Some(CityEmpty)
    else if !IsValidField(country) then Some(CountryEmpty)
    else if !IsValidField(region) then Some(RegionEmpty)
    else None
  }

  /** Some row already names `city`, ignoring case. */
  predicate HasCity(rows: seq<Destination>, city: string) {
    exists i :: 0 <= i < |rows| && Lower(rows[i].city) == Lower(city)
  }

  /** No two rows name the same city, ignoring case. */
  predicate UniqueCities(rows: seq<Destination>) {
    forall i, j :: 0 <= i < j < |rows| ==> Lower(rows[i].city) != Lower(rows[j].city)
  }

  /** Appending a row whose city is not in the table yet keeps cities unique,
      and it is then found by the duplicate check. */
  lemma AppendKeepsCitiesUnique(rows: seq<Destination>, d: Destination)
    requires UniqueCities(rows) && !HasCity(rows, d.city)
    ensures UniqueCities(rows + [d])
    ensures HasCity(rows + [d], d.city)
  {
    var r := rows + [d];
    assert r[|rows|] == d;
    forall i, j | 0 <= i < j < |r| ensures Lower(r[i].city) != Lower(r[j].city) {
      if j == |rows| {
        assert r[i] == rows[i];
      }
    }
  }

  /** The loop that copies the eight trip-type ratings into the new row. */
  method TripTypeRatings(scores: map<string, real>) returns (ratings: map<string, real>)
    requires forall k :: 0 <= k < |TripTypes| ==> TripTypes[k] in scores
    ensures forall t :: t in ratings <==> t in TripTypes
    ensures forall t :: t in TripTypes ==> ratings[t] == scores[t]
  {
    ratings := map[];
    for i := 0 to |TripTypes|
      invariant forall t :: t in ratings <==> t in TripTypes[..i]
      invariant forall t :: t in ratings ==> ratings[t] == scores[t]
    {
      ratings := ratings[TripTypes[i] := scores[TripTypes[i]]];
    }
    assert TripTypes[..|TripTypes|] == TripTypes;
  }

  /** The row the form appends: the stripped text inputs, the chosen tier, and
      one rating per trip type. */
  ghost predicate IsNewRow(d: Destination, cityInput: string, countryInput: string, regionInput: string,
                     descriptionInput: string, budgetLevel: string, scores: map<string, real>)
  {
    d.city == Strip(cityInput) && d.country == Strip(countryInput) &&
    d.region == Strip(regionInput) && d.shortDescription == Strip(descriptionInput) &&
    d.budgetLevel == budgetLevel &&
    (forall t :: t in d.ratings <==> t in TripTypes) &&
    (forall t :: t in TripTypes ==> t in scores && d.ratings[t] == scores[t])
  }

  /** The ratings table the "Add Rating" page appends to. */
  class RatingsTable {
    var rows: seq<Destination>

    constructor (rows: seq<Destination>)
      ensures this.rows == rows
    {
      this.rows := rows;
    }

    /** Strips the four text inputs, validates city, country and region in that
        order, refuses a city the table already has (ignoring case) and
        otherwise appends one row with the five identity columns and the eight
        trip-type ratings. `scores` holds the picker's rating per trip type. */
    method AddRating(cityInput: string, countryInput: string, regionInput: string,
                     descriptionInput: string, budgetLevel: string, scores: map<string, real>)
      returns (outcome: AddOutcome)
      requires forall k :: 0 <= k < |TripTypes| ==> TripTypes[k] in scores
      modifies this
      ensures outcome == CityEmpty <==> AllSpace(cityInput)
      ensures outcome == CountryEmpty <==> !AllSpace(cityInput) && AllSpace(countryInput)
      ensures outcome == RegionEmpty <==>
        !AllSpace(cityInput) && !AllSpace(countryInput) && AllSpace(regionInput)
      ensures outcome == CityExists <==>
        !AllSpace(cityInput) && !AllSpace(countryInput) && !AllSpace(regionInput)
        && HasCity(old(rows), Strip(cityInput))
      ensures outcome != Added ==> rows == old(rows)
      ensures outcome == Added ==>
        |rows| == |old(rows)| + 1 && rows[..|old(rows)|] == old(rows) &&
        IsNewRow(rows[|old(rows)|], cityInput, countryInput, regionInput, descriptionInput,
                 budgetLevel, scores)
      ensures UniqueCities(old(rows)) ==> UniqueCities(rows)
    {
      var city := Strip(cityInput);
      var country := Strip(countryInput);
      var region := Strip(regionInput);
      var description := Strip(descriptionInput);
      StripKeepsBlankness(cityInput);
      StripKeepsBlankness(countryInput);
      StripKeepsBlankness(regionInput);
      var invalid := FirstInvalidField(city, country, region);
      if invalid.Some? {
        outcome := invalid.value;
        return;
      }
      if HasCity(rows, city) {
        outcome := CityExists;
        return;
      }
      var ratings := TripTypeRatings(scores);
      var d := Destination(city, country, region, description, budgetLevel, ratings);
      if UniqueCities(rows) {
        AppendKeepsCitiesUnique(rows, d);
      }
      rows := rows + [d];
      outcome := Added;
    }
  }
}
