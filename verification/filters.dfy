/** The predicate evaluator: does a game satisfy `column op value`? */
module Filters {
  import opened Wrappers
  import opened JavaInteger
  import opened JavaString
  import opened Games

  /** Filters.filterString: both sides trimmed, letter case ignored. Each
      operator compares the trimmed, lower-cased texts: equality, a
      substring test for CONTAINS, String.compareTo for the orderings. */
  function FilterString(gameData: string, op: Operations, value: string): (r: bool)
    ensures var d, v := ToLower(Trim(gameData)), ToLower(Trim(value));
      && (op == EQUALS ==> (r <==> d == v))
      && (op == NOT_EQUALS ==> (r <==> d != v))
      && (op == CONTAINS ==> (r <==> exists k :: OccursAt(d, v, k)))
      && (op == GREATER_THAN ==> (r <==> CompareTo(d, v) > 0))
      && (op == LESS_THAN ==> (r <==> CompareTo(d, v) < 0))
      && (op == GREATER_THAN_EQUALS ==> (r <==> CompareTo(d, v) >= 0))
      && (op == LESS_THAN_EQUALS ==> (r <==> CompareTo(d, v) <= 0))
  {
    var data := Trim(gameData);
    var v := Trim(value);
    EqualsIgnoreCaseIsLower(data, v);
    match op
    case EQUALS => EqualsIgnoreCase(data, v)
    case NOT_EQUALS => !EqualsIgnoreCase(data, v)
    case CONTAINS => Contains(ToLower(data), ToLower(v))
    case GREATER_THAN => CompareIgnoreCase(data, v) > 0
    case LESS_THAN => CompareIgnoreCase(data, v) < 0
    case GREATER_THAN_EQUALS => CompareIgnoreCase(data, v) >= 0
    case LESS_THAN_EQUALS => CompareIgnoreCase(data, v) <= 0
  }

  /** Filters.filterInt: the value text goes through Integer.parseInt (it is
      not trimmed); a NumberFormatException means no match. */
  function FilterInt(gameData: int, op: Operations, value: string): (r: bool)
    ensures ParseInt(value).None? ==> !r
    ensures op == CONTAINS ==> !r
  {
    match ParseInt(value)
    case None => false
    case Some(n) =>
      match op
      case GREATER_THAN_EQUALS => gameData >= n
      case LESS_THAN_EQUALS => gameData <= n
      case GREATER_THAN => gameData > n
      case LESS_THAN => gameData < n
      case EQUALS => gameData == n
      case NOT_EQUALS => gameData != n
      case CONTAINS => false
  }

  /** Filters.filterDouble over the real abstraction of doubles; the parser
      (Double.parseDouble) is supplied by the caller. */
  function FilterDouble(gameData: real, op: Operations, value: string,
                        parseDouble: string -> Option<real>): (r: bool)
    ensures parseDouble(value).None? ==> !r
    ensures op == CONTAINS ==> !r
  {
    match parseDouble(value)
    case None => false
    case Some(x) =>
      match op
      case GREATER_THAN_EQUALS => gameData >= x
      case LESS_THAN_EQUALS => gameData <= x
      case GREATER_THAN => gameData > x
      case LESS_THAN => gameData < x
      case EQUALS => gameData == x
      case NOT_EQUALS => gameData != x
      case CONTAINS => false
  }

  /** Filters.filter: dispatch on the column to its accessor and value kind.
      ID has no case and never matches. */
  function Filter(game: BoardGame, column: GameData, op: Operations, value: string,
                  parseDouble: string -> Option<real>): (r: bool)
    ensures IsIntColumn(column) ==> r == FilterInt(IntValue(game, column), op, value)
    ensures IsRealColumn(column) ==> r == FilterDouble(RealValue(game, column), op, value, parseDouble)
    ensures column == NAME ==> r == FilterString(game.name, op, value)
    ensures column == ID ==> !r
    ensures op == CONTAINS && column != NAME ==> !r
  {
    match column
    case NAME => FilterString(game.name, op, value)
    case MIN_PLAYERS => FilterInt(game.minPlayers, op, value)
    case MAX_PLAYERS => FilterInt(game.maxPlayers, op, value)
    case MIN_TIME => FilterInt(game.minPlayTime, op, value)
    case MAX_TIME => FilterInt(game.maxPlayTime, op, value)
    case DIFFICULTY => FilterDouble(game.difficulty, op, value, parseDouble)
    case RATING => FilterDouble(game.rating, op, value, parseDouble)
    case RANK => FilterInt(game.rank, op, value)
    case YEAR => FilterInt(game.yearPublished, op, value)
    case ID => false
  }

  // ---------------------------------------------------------------- integers

  /** An unparsable value matches under no operator. */
  lemma FilterIntUnparsable(gameData: int, value: string)
    requires ParseInt(value).None?
    ensures forall op :: !FilterInt(gameData, op, value)
  {
  }

  /** Integer values are not trimmed: a value with whitespace at either end
      matches under no operator. */
  lemma FilterIntUntrimmed(gameData: int, op: Operations, value: string)
    requires |value| > 0 && (Blank(value[0]) || Blank(value[|value| - 1]))
    ensures !FilterInt(gameData, op, value)
  {
  }

  /** `>=` is `>` or `==`, and `<=` is `<` or `==`. */
  lemma FilterIntInclusive(gameData: int, value: string)
    ensures FilterInt(gameData, GREATER_THAN_EQUALS, value) <==>
      FilterInt(gameData, GREATER_THAN, value) || FilterInt(gameData, EQUALS, value)
    ensures FilterInt(gameData, LESS_THAN_EQUALS, value) <==>
      FilterInt(gameData, LESS_THAN, value) || FilterInt(gameData, EQUALS, value)
  {
  }

  /** Exactly one of `<`, `==`, `>` holds against a parsable literal. */
  lemma FilterIntTrichotomy(gameData: int, value: string)
    requires ParseInt(value).Some?
    ensures
      var lt, eq, gt := FilterInt(gameData, LESS_THAN, value), FilterInt(gameData, EQUALS, value),
                        FilterInt(gameData, GREATER_THAN, value);
      (lt || eq || gt) && !(lt && eq) && !(lt && gt) && !(eq && gt)
  {
  }

  /** `!=` is the negation of `==` whenever the literal parses. */
  lemma FilterIntNotEquals(gameData: int, value: string)
    requires ParseInt(value).Some?
    ensures FilterInt(gameData, NOT_EQUALS, value) == !FilterInt(gameData, EQUALS, value)
  {
  }

  /** A game's integer attribute, written out by Integer.toString, equals
      itself under `==` and under no strict comparison. */
  lemma FilterIntSelf(gameData: Int32)
    ensures FilterInt(gameData, EQUALS, ToDecimal(gameData))
    ensures !FilterInt(gameData, NOT_EQUALS, ToDecimal(gameData))
    ensures !FilterInt(gameData, LESS_THAN, ToDecimal(gameData))
    ensures !FilterInt(gameData, GREATER_THAN, ToDecimal(gameData))
  {
    ParseIntToDecimal(gameData);
  }

  // ---------------------------------------------------------------- strings

  /** For strings, `!=` is the negation of `==`, `<` of `>=`, and `>` of `<=`. */
  lemma FilterStringComplements(gameData: string, value: string)
    ensures FilterString(gameData, NOT_EQUALS, value) == !FilterString(gameData, EQUALS, value)
    ensures FilterString(gameData, LESS_THAN, value) == !FilterString(gameData, GREATER_THAN_EQUALS, value)
    ensures FilterString(gameData, GREATER_THAN, value) == !FilterString(gameData, LESS_THAN_EQUALS, value)
  {
  }

  /** String equality is the equality of the case-insensitive order, so
      exactly one of `<`, `==`, `>` holds. */
  lemma FilterStringTrichotomy(gameData: string, value: string)
    ensures
      var lt, eq, gt := FilterString(gameData, LESS_THAN, value), FilterString(gameData, EQUALS, value),
                        FilterString(gameData, GREATER_THAN, value);
      (lt || eq || gt) && !(lt && eq) && !(lt && gt) && !(eq && gt)
  {
    CompareIgnoreCaseZero(Trim(gameData), Trim(value));
  }

  /** CONTAINS is a case-insensitive substring test on the trimmed texts. */
  lemma FilterStringContains(gameData: string, value: string)
    ensures FilterString(gameData, CONTAINS, value) <==>
      exists k :: OccursAt(ToLower(Trim(gameData)), ToLower(Trim(value)), k)
  {
  }

  /** Letter case on either side never changes a string comparison. */
  lemma {:induction false} FilterStringIgnoresCase(gameData: string, op: Operations, value: string)
    ensures FilterString(ToLower(gameData), op, ToLower(value)) == FilterString(gameData, op, value)
  {
    var d, v := Trim(gameData), Trim(value);
    TrimToLower(gameData);
    TrimToLower(value);
    ToLowerIdempotent(d);
    ToLowerIdempotent(v);
  }

  /** Blank padding around either side never changes a string comparison. */
  lemma FilterStringIgnoresPadding(gameData: string, op: Operations, value: string,
                                   a: string, b: string, c: string, d: string)
    requires forall k :: 0 <= k < |a| ==> Blank(a[k])
    requires forall k :: 0 <= k < |b| ==> Blank(b[k])
    requires forall k :: 0 <= k < |c| ==> Blank(c[k])
    requires forall k :: 0 <= k < |d| ==> Blank(d[k])
    ensures FilterString(a + gameData + b, op, c + value + d) == FilterString(gameData, op, value)
  {
    TrimIgnoresPadding(a, gameData, b);
    TrimIgnoresPadding(c, value, d);
  }

  /** A name matches itself under `==`, in any letter case. */
  lemma FilterStringSelf(name: string)
    ensures FilterString(name, EQUALS, name)
    ensures FilterString(name, EQUALS, ToLower(name))
  {
    var t := Trim(name);
    TrimToLower(name);
    ToLowerIdempotent(t);
  }

  // ---------------------------------------------------------------- games

  /** Self-equality round trip: a game matches its own name and its own
      integer attributes (written by Integer.toString) under `==`. */
  lemma FilterSelf(game: BoardGame, column: GameData, parseDouble: string -> Option<real>)
    requires column == NAME || IsIntColumn(column)
    ensures column == NAME ==> Filter(game, column, EQUALS, game.name, parseDouble)
    ensures IsIntColumn(column) ==>
      Filter(game, column, EQUALS, ToDecimal(IntValue(game, column)), parseDouble)
  {
    if column == NAME {
      FilterStringSelf(game.name);
    } else {
      FilterIntSelf(IntValue(game, column));
    }
  }
}
