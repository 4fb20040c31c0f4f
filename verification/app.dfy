/** The parsing and validation steps of the command-line front end's
    `get_user_input`: the budget menu choice and the comma-separated list of
    trip-type numbers. The prompting and re-prompting around them are console
    input and output and are not part of this model. */
module App {
  import opened Wrappers
  import opened Text
  import opened Catalog

  /** Why an answer was refused; the console shows it and asks again. */
  datatype InputError = NotAnInteger | InvalidOptions(numbers: seq<int>)

  /** The budget menu, numbered from 1. */
  const BudgetMenu: map<int, BudgetTier> :=
    map[1 := BudgetTier("Budget", 50, 150), 2 := BudgetTier("Mid-range", 150, 350),
        3 := BudgetTier("Luxury", 350, 1000)]

  /** The menu's upper bound as displayed: "1000+" for an open-ended tier. */
  function HighDisplay(high: nat): (r: string) {
    if high >= 1000 then NatToString(high) + "+" else NatToString(high)
  }

  /** The displayed upper bound ends in "+" exactly when it is 1000 or more,
      and what precedes the "+" is the bound itself. */
  lemma HighDisplayOpenEnded(high: nat)
    ensures var shown := HighDisplay(high);
      |shown| > 0 && (shown[|shown| - 1] == '+' <==> high >= 1000)
      && (high >= 1000 ==> ParseInt(shown[..|shown| - 1]) == Some(high))
      && (high < 1000 ==> ParseInt(shown) == Some(high))
  {
    var shown := HighDisplay(high);
    ParseIntOfNatToString(high);
    if high >= 1000 {
      assert shown[..|shown| - 1] == NatToString(high);
    }
  }

  /** The answer to the budget prompt: `int(answer)`, which must then be a key
      of the menu. */
  function BudgetChoice(answer: string): (r: Result<BudgetTier, InputError>)
    ensures ParseInt(answer).None? ==> r == Err(NotAnInteger)
    ensures r.Ok? <==> ParseInt(answer).Some? && 1 <= ParseInt(answer).value <= 3
    ensures r.Ok? ==> r.value == BudgetTiers[ParseInt(answer).value - 1]
  {
    match ParseInt(answer)
    case None => Err(NotAnInteger)
    case Some(n) => MenuChoice(n)
  }

  /** `budget_levels[choice]` when `choice` is a key of the menu. */
  function MenuChoice(n: int): (r: Result<BudgetTier, InputError>)
    ensures r.Ok? <==> 1 <= n <= |BudgetTiers|
    ensures r.Ok? ==> r.value == BudgetTiers[n - 1]
    ensures r.Err? ==> r.error == InvalidOptions([n])
  {
    if n in BudgetMenu then Ok(BudgetMenu[n]) else Err(InvalidOptions([n]))
  }

  /** One piece of the answer: `int(num.strip())`. */
  function ParsePiece(piece: string): (r: Option<int>) {
    ParseInt(Strip(piece))
  }

  /** The parsed pieces when every piece parsed, `None` as soon as one did not:
      the list comprehension stops at the first `ValueError`. */
  function AllParsed(parsed: seq<Option<int>>): (r: Option<seq<int>>)
    ensures r.Some? <==> forall k :: 0 <= k < |parsed| ==> parsed[k].Some?
    ensures r.Some? ==>
      (|r.value| == |parsed| && forall k :: 0 <= k < |parsed| ==> r.value[k] == parsed[k].value)
  {
    if parsed == [] then Some([])
    else if parsed[0].None? then None
    else
      var rest := AllParsed(parsed[1..]);
      if rest.None? then None else Some([parsed[0].value] + rest.value)
  }

  /** `[int(num.strip()) for num in pieces]` */
  function ParseNumbers(pieces: seq<string>): (r: Option<seq<int>>) {
    AllParsed(seq(|pieces|, k requires 0 <= k < |pieces| => ParsePiece(pieces[k])))
  }

  /** `[n for n in numbers if n < 1 or n > len(valid_trip_types)]` */
  function OutOfRange(numbers: seq<int>): (bad: seq<int>)
    ensures forall n :: n in bad <==> n in numbers && (n < 1 || n > |TripTypes|)
    ensures bad == [] <==> forall k :: 0 <= k < |numbers| ==> 1 <= numbers[k] <= |TripTypes|
  {
    if numbers == [] then []
    else
      var rest := OutOfRange(numbers[1..]);
      assert numbers == [numbers[0]] + numbers[1..];
      if numbers[0] < 1 || numbers[0] > |TripTypes| then [numbers[0]] + rest else rest
  }

  /** The numbers typed at the trip-type prompt. */
  function TypedNumbers(answer: string): (r: Option<seq<int>>) {
    ParseNumbers(Split(answer, ','))
  }

  /** The typed numbers, once parsed, must all lie in 1..8; they are then
      replaced by the trip-type names in the order typed, repeats included. */
  function ChooseTypes(numbers: seq<int>): (r: Result<seq<string>, InputError>)
    ensures r.Ok? <==> forall k :: 0 <= k < |numbers| ==> 1 <= numbers[k] <= |TripTypes|
    ensures r.Ok? ==>
      |r.value| == |numbers| && forall k :: 0 <= k < |numbers| ==> r.value[k] == TripTypes[numbers[k] - 1]
    ensures r.Err? ==> r.error == InvalidOptions(OutOfRange(numbers)) && r.error.numbers != []
  {
    var bad := OutOfRange(numbers);
    if bad != [] then Err(InvalidOptions(bad))
    else Ok(seq(|numbers|, k requires 0 <= k < |numbers| => TripTypes[numbers[k] - 1]))
  }

  /** The answer to the trip-type prompt: split on ",", each piece stripped and
      parsed; one piece that is not an integer refuses the whole answer, and
      otherwise the numbers are checked and named as `ChooseTypes` says. */
  function TripTypeChoices(answer: string): (r: Result<seq<string>, InputError>)
    ensures TypedNumbers(answer).None? ==> r == Err(NotAnInteger)
    ensures TypedNumbers(answer).Some? ==> r == ChooseTypes(TypedNumbers(answer).value)
  {
    match TypedNumbers(answer)
    case None => Err(NotAnInteger)
    case Some(numbers) => ChooseTypes(numbers)
  }

  /** An accepted answer names one trip type per comma-separated piece, at
      least one, each of them one of the eight columns; an empty answer is
      refused as not a number. */
  lemma TripTypeChoicesShape(answer: string)
    ensures var r := TripTypeChoices(answer);
      r.Ok? ==> (|r.value| == Occurrences(answer, ',') + 1 && |r.value| >= 1 &&
        forall k :: 0 <= k < |r.value| ==> r.value[k] in TripTypes)
    ensures TripTypeChoices("") == Err(NotAnInteger)
  {
    assert Split("", ',') == [""];
    assert Strip("") == "";
  }

  /** The pieces of a typed list: each number, with a space after each comma. */
  function TypedPieces(numbers: seq<nat>): (r: seq<string>) {
    seq(|numbers|, k requires 0 <= k < |numbers| => (if k == 0 then "" else " ") + NatToString(numbers[k]))
  }

  /** The text a user types for a list of menu numbers, in the prompt's own
      example format "1, 3, 5". */
  function TypedList(numbers: seq<nat>): (r: string)
    requires |numbers| > 0
  {
    Join(TypedPieces(numbers), ',')
  }

  /** One piece of a typed list: a number, with a leading space after a comma. */
  lemma TypedPiece(n: nat, lead: string)
    requires lead == "" || lead == " "
    ensures ',' !in lead + NatToString(n)
    ensures ParsePiece(lead + NatToString(n)) == Some(n)
  {
    var digits := NatToString(n);
    DigitsHaveNoComma(lead, digits);
    assert !IsSpace(digits[0]) && !IsSpace(digits[|digits| - 1]);
    StripAfterBlank(lead, digits);
    ParseIntOfNatToString(n);
  }

  lemma DigitsHaveNoComma(lead: string, digits: string)
    requires lead == "" || lead == " "
    requires forall i :: 0 <= i < |digits| ==> IsDigit(digits[i])
    ensures ',' !in lead + digits
  {
  }

  lemma TypedPiecesParse(numbers: seq<nat>)
    ensures forall k :: 0 <= k < |numbers| ==>
      ',' !in TypedPieces(numbers)[k] && ParsePiece(TypedPieces(numbers)[k]) == Some(numbers[k] as int)
  {
    forall k | 0 <= k < |numbers|
      ensures ',' !in TypedPieces(numbers)[k] && ParsePiece(TypedPieces(numbers)[k]) == Some(numbers[k] as int)
    {
      TypedPiece(numbers[k], if k == 0 then "" else " ");
    }
  }

  lemma TypedListSplits(numbers: seq<nat>)
    requires |numbers| > 0
    ensures Split(TypedList(numbers), ',') == TypedPieces(numbers)
  {
    TypedPiecesParse(numbers);
    SplitJoin(TypedPieces(numbers), ',');
  }

  lemma TypedPiecesParseBack(numbers: seq<nat>)
    ensures ParseNumbers(TypedPieces(numbers)) == Some(numbers)
  {
    var pieces := TypedPieces(numbers);
    TypedPiecesParse(numbers);
    var parsed := seq(|pieces|, k requires 0 <= k < |pieces| => ParsePiece(pieces[k]));
    assert forall k :: 0 <= k < |parsed| ==> parsed[k] == Some(numbers[k] as int);
    assert AllParsed(parsed).value == numbers;
  }

  lemma TypedNumbersOfTypedList(numbers: seq<nat>)
    requires |numbers| > 0
    ensures TypedNumbers(TypedList(numbers)) == Some(numbers)
  {
    TypedListSplits(numbers);
    TypedPiecesParseBack(numbers);
  }

  /** Typing menu numbers 1..8 in the example format gives back exactly those
      trip types, in order and with repeats. */
  lemma TripTypeChoicesOfTypedList(numbers: seq<nat>)
    requires |numbers| > 0
    requires forall k :: 0 <= k < |numbers| ==> 1 <= numbers[k] <= 8
    ensures TripTypeChoices(TypedList(numbers)) ==
      Ok(seq(|numbers|, k requires 0 <= k < |numbers| => TripTypes[numbers[k] - 1]))
  {
    TypedNumbersOfTypedList(numbers);
  }
}
