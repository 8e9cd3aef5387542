/** GameSorter.getComparator: one comparator per sort column, reversed for
    descending order. A comparator is modelled by the sign it returns. */
module GameSorter {
  import opened JavaInteger
  import opened JavaString
  import opened Games

  /** Double.compare on the real abstraction of doubles. */
  function CompareReal(x: real, y: real): (r: int)
    ensures -1 <= r <= 1
    ensures r <= 0 <==> x <= y
    ensures r == 0 <==> x == y
  {
    if x < y then -1 else if x == y then 0 else 1
  }

  /** The ascending comparator of each column. Names use
      String.CASE_INSENSITIVE_ORDER; a column with no case of its own (ID)
      falls back to the name order. */
  function AscendingCompare(sortOn: GameData, a: BoardGame, b: BoardGame): (r: int)
    ensures -1 <= r <= 1
    ensures sortOn == NAME || sortOn == ID ==> r == CompareTo(ToLower(a.name), ToLower(b.name))
    ensures IsIntColumn(sortOn) ==>
      (r <= 0 <==> IntValue(a, sortOn) <= IntValue(b, sortOn)) && (r == 0 <==> IntValue(a, sortOn) == IntValue(b, sortOn))
    ensures IsRealColumn(sortOn) ==>
      (r <= 0 <==> RealValue(a, sortOn) <= RealValue(b, sortOn)) && (r == 0 <==> RealValue(a, sortOn) == RealValue(b, sortOn))
  {
    match sortOn
    case NAME => CompareIgnoreCase(a.name, b.name)
    case RATING => CompareReal(a.rating, b.rating)
    case DIFFICULTY => CompareReal(a.difficulty, b.difficulty)
    case RANK => JavaInteger.Compare(a.rank, b.rank)
    case MIN_PLAYERS => JavaInteger.Compare(a.minPlayers, b.minPlayers)
    case MAX_PLAYERS => JavaInteger.Compare(a.maxPlayers, b.maxPlayers)
    case MIN_TIME => JavaInteger.Compare(a.minPlayTime, b.minPlayTime)
    case MAX_TIME => JavaInteger.Compare(a.maxPlayTime, b.maxPlayTime)
    case YEAR => JavaInteger.Compare(a.yearPublished, b.yearPublished)
    case ID => CompareIgnoreCase(a.name, b.name)
  }

  /** getComparator(sortOn, ascending).compare(a, b); `reversed()` swaps the
      arguments. */
  function Compare(sortOn: GameData, ascending: bool, a: BoardGame, b: BoardGame): (r: int)
    ensures -1 <= r <= 1
    ensures ascending ==> r == AscendingCompare(sortOn, a, b)
    ensures !ascending ==> r == -AscendingCompare(sortOn, a, b)
  {
    AscendingAntisymmetric(sortOn, a, b);
    if ascending then AscendingCompare(sortOn, a, b) else AscendingCompare(sortOn, b, a)
  }

  /** Swapping the arguments negates the ascending comparison. */
  lemma AscendingAntisymmetric(sortOn: GameData, a: BoardGame, b: BoardGame)
    ensures AscendingCompare(sortOn, b, a) == -AscendingCompare(sortOn, a, b)
  {
    if sortOn == NAME || sortOn == ID {
      CompareToAntisymmetric(ToLower(a.name), ToLower(b.name));
    }
  }

  /** Descending order is the ascending comparator with its sign flipped. */
  lemma DescendingReverses(sortOn: GameData, a: BoardGame, b: BoardGame)
    ensures Compare(sortOn, false, a, b) == -Compare(sortOn, true, a, b)
    ensures Compare(sortOn, false, a, b) == Compare(sortOn, true, b, a)
  {
    AscendingAntisymmetric(sortOn, a, b);
  }

  /** The name comparator calls two games equal exactly when their names
      are equal ignoring case. */
  lemma NameIgnoresCase(ascending: bool, a: BoardGame, b: BoardGame)
    ensures Compare(NAME, ascending, a, b) == 0 <==> EqualsIgnoreCase(a.name, b.name)
  {
    CompareIgnoreCaseZero(a.name, b.name);
    CompareIgnoreCaseZero(b.name, a.name);
  }

  /** Integer columns order games by their integer attribute, double columns
      by their double attribute, and ID exactly like NAME. */
  lemma CompareByKey(sortOn: GameData, ascending: bool, a: BoardGame, b: BoardGame)
    ensures IsIntColumn(sortOn) ==>
      (Compare(sortOn, ascending, a, b) <= 0 <==>
       if ascending then IntValue(a, sortOn) <= IntValue(b, sortOn) else IntValue(a, sortOn) >= IntValue(b, sortOn))
    ensures IsRealColumn(sortOn) ==>
      (Compare(sortOn, ascending, a, b) <= 0 <==>
       if ascending then RealValue(a, sortOn) <= RealValue(b, sortOn) else RealValue(a, sortOn) >= RealValue(b, sortOn))
    ensures Compare(ID, ascending, a, b) == Compare(NAME, ascending, a, b)
  {
  }

  // ---------------------------------------------------------------- total preorder

  lemma CompareReflexive(sortOn: GameData, ascending: bool, a: BoardGame)
    ensures Compare(sortOn, ascending, a, a) == 0
  {
  }

  lemma CompareAntisymmetric(sortOn: GameData, ascending: bool, a: BoardGame, b: BoardGame)
    ensures Compare(sortOn, ascending, b, a) == -Compare(sortOn, ascending, a, b)
  {
    AscendingAntisymmetric(sortOn, a, b);
  }

  lemma AscendingTransitive(sortOn: GameData, a: BoardGame, b: BoardGame, c: BoardGame)
    requires AscendingCompare(sortOn, a, b) <= 0 && AscendingCompare(sortOn, b, c) <= 0
    ensures AscendingCompare(sortOn, a, c) <= 0
  {
    if sortOn == NAME || sortOn == ID {
      CompareToTransitive(ToLower(a.name), ToLower(b.name), ToLower(c.name));
    }
  }

  /** Every comparator is transitive, so with reflexivity and antisymmetry
      it is a total preorder and sorting by it is well defined. */
  lemma CompareTransitive(sortOn: GameData, ascending: bool, a: BoardGame, b: BoardGame, c: BoardGame)
    requires Compare(sortOn, ascending, a, b) <= 0 && Compare(sortOn, ascending, b, c) <= 0
    ensures Compare(sortOn, ascending, a, c) <= 0
  {
    if ascending {
      AscendingTransitive(sortOn, a, b, c);
    } else {
      AscendingTransitive(sortOn, c, b, a);
    }
  }
}
