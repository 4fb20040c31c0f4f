/** The destination table shared by the command-line and web front ends: one
    row per city with its identity columns, its budget tier and one rating per
    trip type. */
module Catalog {

  /** The eight trip-type columns, in the order both front ends list them. */
  const TripTypes: seq<string> :=
    ["culture", "adventure", "nature", "beaches", "cuisine", "wellness", "urban", "seclusion"]

  /** One row of the destination table. `ratings` maps a trip-type column name
      to that city's rating in it (0.0 to 5.0 in half steps in the shipped data). */
  datatype Destination = Destination(
    city: string,
    country: string,
    region: string,
    shortDescription: string,
    budgetLevel: string,
    ratings: map<string, real>)

  /** A budget tier: its name and its daily spending range. */
  datatype BudgetTier = BudgetTier(name: string, low: nat, high: nat)

  /** The three budget tiers, in the order both front ends offer them. */
  const BudgetTiers: seq<BudgetTier> :=
    [BudgetTier("Budget", 50, 150), BudgetTier("Mid-range", 150, 350), BudgetTier("Luxury", 350, 1000)]

  /** The row has a rating column for every requested trip type. */
  predicate RowHasColumns(d: Destination, types: seq<string>) {
    forall k :: 0 <= k < |types| ==> types[k] in d.ratings
  }

  /** Every row of `table` has a rating column for every requested trip type
      (in the table they are columns, so this holds for all rows or none). */
  predicate HasColumns(table: seq<Destination>, types: seq<string>) {
    forall d :: d in table ==> RowHasColumns(d, types)
  }

  /** The row's ratings in the requested trip types all lie in `[lo, hi]`. */
  predicate RowRatingsWithin(d: Destination, types: seq<string>, lo: real, hi: real) {
    RowHasColumns(d, types) && forall k :: 0 <= k < |types| ==> lo <= d.ratings[types[k]] <= hi
  }
}
