# Travel planner: a verified model of the recommendation core

The travel planner asks a user for a budget tier (Budget, Mid-range or Luxury)
and for one or more trip types (culture, adventure, nature, beaches, cuisine,
wellness, urban, seclusion). It then ranks a catalog of destinations.
`recommend_destinations` keeps the rows of the chosen tier. It scores each row as
the mean of its ratings in the chosen trip types and sorts the rows by score,
highest first. It keeps every row whose "min" rank is at most 5, so rows tied at
fifth place all stay. Each kept row is cut down to city, country, region, short
description and score.

Two front ends drive it:

- a console program (`app.py`) that reads a budget menu number and a
  comma-separated list of trip-type numbers;
- a web page (`streamlit_app.py`). It offers the tiers as labels such as
  "Luxury (350-1000+)" and draws a score as full, half and empty stars. Users
  rate a new city in half steps, and the page appends it to a ratings table
  unless the table already has that city (compared ignoring case).

The model is written in Dafny, one module per source file:

- `wrappers.dfy` (`Wrappers`): `Option` and `Result`.
- `text.dfy` (`Text`): the Python string built-ins the code relies on. These are
  `str.isspace`, `strip`, `lower`, `split(",")`, `int(text)` and `str(n)`.
- `catalog.dfy` (`Catalog`): a destination row, the eight trip-type columns and
  the three budget tiers.
- `recommendation_logic.dfy` (`RecommendationLogic`): `recommend_destinations`
  as pure functions, with lemmas for what it promises.
- `streamlit_app.py`'s rules (`StreamlitApp`, `streamlit_app.dfy`): the request
  guard, the star counts, the star-drawing loop (a method), the rating options,
  the budget labels and their parse, and the "Add Rating" validation. A
  `RatingsTable` class holds the ratings table in memory, and its `AddRating`
  method appends to it.
- `app.dfy` (`App`): the parse-and-validate steps of `get_user_input`.

Scores and ratings are Dafny `real`s. The catalog is a `seq` of rows. Each row
keeps its trip-type ratings in a `map<string, real>`.

## Behaviour worth knowing

- **No fallback.** When no row has the requested tier, the result is empty
  (`RecommendEmptyWithoutTierMatch`).
- **Repeated trip types.** The sum is divided by the length of the requested
  list as given, so a type requested twice is weighted twice (`SumRatings`,
  `Score`).
- **Tie order.** The code sorts with pandas' default sort, which promises no
  order among equal scores. The model sorts by stable insertion. It claims only
  what holds for every ordering by non-increasing score: sortedness, the same
  rows, and the inclusion rule.
- **No error results.** `recommend_destinations` reports no error of its own.
  The model makes it a precondition that the trip-type list is non-empty and
  names columns of the table. Both callers meet it: the web page refuses an
  empty selection, and the console parser never returns an empty list.

## Model

| member | source | states |
|---|---|---|
| `RecommendationLogic.FilterByBudget` | recommendation_logic.py:5 | keeps exactly the rows whose tier equals the requested one after lower-casing both, each as often as the catalog holds it |
| `RecommendationLogic.FilterByBudgetInOrder` | recommendation_logic.py:5 | the mask keeps catalog order: filtering `a + b` gives the filtered `a` followed by the filtered `b` |
| `RecommendationLogic.CandidatesAreTierRows` | recommendation_logic.py:5-8 | the scored rows are exactly the rows of the requested tier, each paired with the sum of its requested ratings divided by the length of the requested list |
| `RecommendationLogic.ScoreWithin` | recommendation_logic.py:8 | a score is a mean: when the requested ratings lie in [lo, hi], so does the score |
| `RecommendationLogic.SortByScore` | recommendation_logic.py:11 | the result is ordered by non-increasing score and is a permutation of its input |
| `RecommendationLogic.Insert` | recommendation_logic.py:11 | inserting adds exactly that one entry, at the front or after the old head |
| `RecommendationLogic.InsertSorted` | recommendation_logic.py:11 | inserting into a column sorted by non-increasing score keeps it sorted |
| `RecommendationLogic.CountAbovePermutation` | recommendation_logic.py:14 | the "min" rank of a score depends only on which scores the column holds, not on their order |
| `RecommendationLogic.KeepRanked` | recommendation_logic.py:14-17 | an entry and all its copies are kept exactly when its "min" rank (1 + number of strictly higher scores) is at most 5; nothing else is kept |
| `RecommendationLogic.KeepRankedSorted` | recommendation_logic.py:17 | selecting rows from the sorted table leaves them sorted |
| `RecommendationLogic.FewerThanFiveAboveIffAtLeastFifth` | recommendation_logic.py:14-17 | in a sorted column of five or more, "fewer than five strictly higher scores" holds exactly when the score is at least the fifth-highest |
| `RecommendationLogic.RankedSelection` | recommendation_logic.py:14-17 | the kept rows are, with multiplicity, exactly the candidates with fewer than five strictly higher-scoring candidates |
| `RecommendationLogic.RecommendIncludesRow` | recommendation_logic.py:14-17 | a catalog row of the requested tier is recommended if and only if fewer than five rows of that tier score strictly more |
| `RecommendationLogic.RecommendFifthHighestCutoff` | recommendation_logic.py:14-17 | with at least five rows in the tier, a row is recommended if and only if its score reaches the fifth-highest score, so ties at fifth place are all kept |
| `RecommendationLogic.RecommendNoBetterRowExcluded` | recommendation_logic.py:14-17 | no row left out scores strictly more than a recommended row |
| `RecommendationLogic.RecommendSize` | recommendation_logic.py:14-17 | at least min(5, rows in the tier) rows come back, and every row of the tier comes back when it has at most five |
| `RecommendationLogic.RankedAreSortedCandidates` | recommendation_logic.py:11-17 | the kept rows are scored rows of the tier, in non-increasing order of score |
| `RecommendationLogic.Project` | recommendation_logic.py:19 | each output row holds exactly the city, country, region, short description and score of its source row, in the same order |
| `RecommendationLogic.RecommendRows` | recommendation_logic.py:3-19 | every returned row comes from a catalog row of the requested tier, carries that row's five columns and its mean score, and the rows come in non-increasing order of score |
| `RecommendationLogic.RecommendEmptyWithoutTierMatch` | recommendation_logic.py:5 | when no row has the requested tier the result is empty (there is no fallback) |
| `RecommendationLogic.RecommendScoresWithin` | recommendation_logic.py:8 | when the catalog's requested ratings lie in [lo, hi], every recommended score does too |
| `StreamlitApp.RequestRecommendations` | streamlit_app.py:89-93 | with no trip type selected the page warns instead of recommending; otherwise it returns the engine's answer |
| `StreamlitApp.Truncate` | streamlit_app.py:59 | `int(rating)` truncates toward zero: it lies within one of the rating, on the rating's side of zero |
| `StreamlitApp.Repeat` | streamlit_app.py:63 | `symbol * n` gives n copies, and none when n is zero or negative |
| `StreamlitApp.StarCountsPartition` | streamlit_app.py:59-63 | for 0 <= rating <= max_stars: full = integer part, half = 1 exactly when the fraction is at least 0.5, all three counts non-negative and summing to max_stars, so exactly max_stars stars are drawn |
| `StreamlitApp.RatingOptionsAreHalfSteps` | streamlit_app.py:131 | the picker's options are exactly the half steps 0, 0.5, ..., 5 |
| `StreamlitApp.IndexOf` | streamlit_app.py:132 | `list.index`: the first position holding the value |
| `StreamlitApp.InitialIndex` | streamlit_app.py:132 | the picker starts on the stored rating when it is an option, and on the first option otherwise |
| `StreamlitApp.StarRow` | streamlit_app.py:137-144 | the loop draws exactly five stars; star i is full iff rating >= i, half iff i - 0.5 <= rating < i, empty otherwise |
| `StreamlitApp.StarRowMatchesStarsShown` | streamlit_app.py:54-63 | for ratings 0..5 the picker's star row and the score display draw the same five stars |
| `StreamlitApp.RecommendedStarsFill` | streamlit_app.py:109 | with catalog ratings in [0, 5], every recommended score is drawn as exactly five stars |
| `StreamlitApp.LevelOfOption` | streamlit_app.py:83 | `split(" (")[0]`: the longest prefix without " (", ending right before the first " (" when there is one |
| `StreamlitApp.BudgetLabelRoundTrip` | streamlit_app.py:77-83 | reading a tier's label back gives the tier's name, for any name without " (" |
| `StreamlitApp.BudgetOptionsRoundTrip` | streamlit_app.py:71-83 | each of the three offered labels reads back as its own tier name; only Luxury has an upper bound of 1000 or more |
| `StreamlitApp.BudgetLabelOpenEnded` | streamlit_app.py:78 | a label carries "+" after its upper bound exactly when the bound is 1000 or more |
| `StreamlitApp.FirstInvalidField` | streamlit_app.py:153-162 | city, country and region are checked in that order; a field is rejected exactly when it is empty or all whitespace |
| `StreamlitApp.AppendKeepsCitiesUnique` | streamlit_app.py:177-194 | appending a row whose city is new (ignoring case) keeps cities unique, and the duplicate check then finds it |
| `StreamlitApp.TripTypeRatings` | streamlit_app.py:190-191 | the new row gets a rating for each of the eight trip types and for nothing else, equal to the picker's value |
| `StreamlitApp.RatingsTable.AddRating` | streamlit_app.py:153-194 | a blank field is refused, the first one reported, and the table is left alone; so is an existing city (ignoring case); otherwise exactly one row is appended after the unchanged old rows, holding the stripped inputs, the tier and the eight ratings; unique cities stay unique |
| `Text.Lower` | recommendation_logic.py:5 | lower-casing keeps the length and maps each character on its own |
| `Text.StripEmptyIffBlank` | streamlit_app.py:153 | `x.strip()` is empty exactly when x is all whitespace |
| `Text.StripKeepsBlankness` | streamlit_app.py:119-122 | stripping on input does not change whether a field is blank |
| `Text.Split` | app.py:46 | `split(",")` gives one piece more than there are commas, no piece holds a comma, and joining the pieces with "," gives the input back |
| `Text.SplitJoin` | app.py:46 | splitting the comma-join of comma-free pieces gives the pieces back |
| `Text.ParseIntOfNatToString` | app.py:46 | `int(str(n)) == n` for every natural number n |
| `Text.NatToString` | streamlit_app.py:78 | `str(n)` is a non-empty string of decimal digits that starts with "0" only for 0, so it has no leading zero |
| `App.HighDisplayOpenEnded` | app.py:23 | the displayed upper bound ends in "+" exactly when it is 1000 or more, and the rest is the bound |
| `App.MenuChoice` | app.py:29-31 | a number is a menu key exactly when it is 1, 2 or 3, and then names the tier at that position |
| `App.BudgetChoice` | app.py:15-31 | a non-integer answer is refused; an answer is accepted exactly when it is 1, 2 or 3, giving ("Budget", 50, 150), ("Mid-range", 150, 350) or ("Luxury", 350, 1000) |
| `App.AllParsed` | app.py:46 | the list of parsed numbers exists exactly when every piece parsed, and then it has one number per piece, in order |
| `App.OutOfRange` | app.py:47 | the reported numbers are exactly the typed numbers below 1 or above 8, and there are none exactly when all lie in 1..8 |
| `App.ChooseTypes` | app.py:47-50 | the parsed numbers are accepted exactly when every one lies in 1..8, and the k-th chosen type is then `valid_trip_types[n_k - 1]`, in order and with repeats; otherwise the out-of-range numbers are reported |
| `App.TripTypeChoices` | app.py:45-50 | one comma-separated piece that is not an integer rejects the whole answer, before any range check; otherwise the parsed numbers decide as in `ChooseTypes` |
| `App.TripTypeChoicesShape` | app.py:46-54 | an accepted answer has one trip type per comma-separated piece, so it is never empty, and each is one of the eight names; an empty answer is rejected as not a number |
| `App.TripTypeChoicesOfTypedList` | app.py:41-50 | typing menu numbers 1..8 in the prompt's "1, 3, 5" format gives back exactly those trip types, in order |

## Left out

- Loading the catalog (`data.py`: the file checks, reading and writing Excel, dropping unused columns) is file I/O. The catalog is a parameter, and having the requested trip-type columns is a precondition.
- All GitHub access of the web page (`streamlit_app.py:164-205`) is network I/O: secrets, the repository client, reading and updating the file, the temporary Excel file, and the catch-all error message. The ratings table is modelled in memory as `RatingsTable.rows`. The table kept in session state after a save (line 202) is that same field.
- The "Explore All Destinations" page (`streamlit_app.py:207-228`) only reads the table from GitHub and shows it. It has no logic beyond that I/O.
- Streamlit rendering is UI: HTML and CSS strings, widgets, the sidebar, `st.session_state`, the search link, and the re-sort and display loop for recommendations (lines 94-111). What the user picks in a widget is a parameter.
- Console prompts, error printing and the retry loops of `get_user_input` (`app.py:26-34`, `43-54`) are console I/O, and so is printing the first three recommendations (`app.py:74-79`). Only the parse-and-validate step of each prompt is modelled.
- Floating point: ratings and scores are exact reals, so float rounding in the mean is not modelled.
- RecommendationLogic.SortByScore: fixes one order among equal scores (stable). pandas' default sort promises none. The lemmas about the result hold for any ordering by non-increasing score.
- RecommendationLogic.Recommend: three cases are preconditions and their pandas behaviour is not modelled. An empty trip-type list gives NaN scores and an empty frame. A trip type that is not a column raises `KeyError`. A missing (NaN) requested rating is skipped by the row sum, as if it were 0, so the row still gets a finite score and is ranked. The model requires every requested rating to be present.
- Text.Lower: lower-cases ASCII letters only. Python's `str.lower` also folds non-ASCII letters.
- Text.ParseInt: accepts ASCII digits only. Python's `int` also accepts other Unicode decimal digits.
