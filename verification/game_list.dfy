/** GameList: the user's duplicate-free selection of games, changed by
    addToList and removeFromList. The Java list field is the `selection`
    sequence; each operation returns the new selection together with the
    IllegalArgumentException it raised, if any. */
module GameList {
  import opened Wrappers
  import opened JavaInteger
  import opened JavaString
  import opened Games
  import Sorting

  /** The keyword that selects every game (IGameList.ADD_ALL). */
  const ADD_ALL: string := "all"

  /** The messages of the IllegalArgumentExceptions the operations raise. */
  datatype ListError =
    | EmptyInput
    | InvalidRangeFormat
    | InvalidNumberInRange
    | RangeOutOfBounds
    | IndexOutOfBounds
    | NoGameFound(name: string)

  /** The selection after an operation and the error it raised, if any. */
  datatype Outcome = Outcome(selection: seq<BoardGame>, error: Option<ListError>)

  /** The order getGameNames and removeFromList use: lower-cased names,
      ascending. */
  const ByLowerName: Sorting.Order := Sorting.SortOnComparator(NAME, true)

  /** The selection as removeFromList and getGameNames see it: sorted by
      lower-cased name, ties in selection order. */
  function SortedByName(selection: seq<BoardGame>): (r: seq<BoardGame>)
    ensures multiset(r) == multiset(selection) && |r| == |selection|
    ensures Sorting.SortedBy(ByLowerName, r)
  {
    var r := Sorting.StableSort(ByLowerName, selection);
    assert |multiset(r)| == |multiset(selection)|;
    r
  }

  function Names(games: seq<BoardGame>): (r: seq<string>)
    ensures |r| == |games|
    ensures forall k :: 0 <= k < |games| ==> r[k] == games[k].name
  {
    seq(|games|, k requires 0 <= k < |games| => games[k].name)
  }

  // ---------------------------------------------------------------- queries

  /** getGameNames: the selected names in case-insensitive ascending order. */
  function GetGameNames(selection: seq<BoardGame>): (r: seq<string>)
    ensures |r| == |selection|
    ensures multiset(r) == multiset(Names(selection))
    ensures forall i, j :: 0 <= i < j < |r| ==> CompareTo(ToLower(r[i]), ToLower(r[j])) <= 0
  {
    var sorted := SortedByName(selection);
    NamesPermutation(sorted, selection);
    forall i, j | 0 <= i < j < |sorted|
      ensures CompareTo(ToLower(Names(sorted)[i]), ToLower(Names(sorted)[j])) <= 0
    {
      assert Sorting.Cmp(ByLowerName, sorted[i], sorted[j]) <= 0;
    }
    Names(sorted)
  }

  /** count. */
  function Count(selection: seq<BoardGame>): (n: nat)
    ensures n == |selection|
  {
    |selection|
  }

  /** clear. */
  function Clear(selection: seq<BoardGame>): (r: seq<BoardGame>)
    ensures Count(r) == 0
  {
    []
  }

  lemma NamesAppend(a: seq<BoardGame>, b: seq<BoardGame>)
    ensures Names(a + b) == Names(a) + Names(b)
  {
  }

  /** Two sequences with the same games have the same multiset of names. */
  lemma {:induction false} NamesPermutation(a: seq<BoardGame>, b: seq<BoardGame>)
    requires multiset(a) == multiset(b)
    ensures multiset(Names(a)) == multiset(Names(b))
    decreases |a|
  {
    if |b| > 0 {
      var x := b[|b| - 1];
      var b' := b[..|b| - 1];
      assert b == b' + [x];
      assert x in multiset(a);
      var k :| 0 <= k < |a| && a[k] == x;
      var a' := a[..k] + a[k + 1..];
      assert a == a[..k] + [x] + a[k + 1..];
      assert multiset(a) == multiset(a[..k]) + multiset{x} + multiset(a[k + 1..]);
      assert multiset(b) == multiset(b') + multiset{x};
      assert multiset(a') == multiset(a[..k]) + multiset(a[k + 1..]);
      assert multiset(a') + multiset{x} == multiset(b') + multiset{x};
      assert multiset(a') == multiset(a') + multiset{x} - multiset{x};
      assert multiset(a') == multiset(b');
      NamesPermutation(a', b');
      NamesAppend(b', [x]);
      NamesAppend(a[..k], [x]);
      NamesAppend(a[..k] + [x], a[k + 1..]);
      NamesAppend(a[..k], a[k + 1..]);
    } else {
      assert multiset(a) == multiset{};
    }
  }

  // ---------------------------------------------------------------- adding

  /** addGame: append the game unless the same game is already selected. */
  function AddGame(selection: seq<BoardGame>, game: BoardGame): (r: seq<BoardGame>)
    ensures Includes(r, game)
    ensures selection <= r && |r| <= |selection| + 1
    ensures forall k :: |selection| <= k < |r| ==> r[k] == game
    ensures Distinct(selection) ==> Distinct(r)
  {
    if Includes(selection, game) then selection
    else
      assert (selection + [game])[|selection|] == game;
      assert Distinct(selection) ==> Distinct(selection + [game]) by {
        if Distinct(selection) { Sorting.DistinctAppend(selection, game); }
      }
      selection + [game]
  }

  /** addGame for each game in turn. */
  function AddGames(selection: seq<BoardGame>, games: seq<BoardGame>): (r: seq<BoardGame>)
    ensures selection <= r
    ensures forall g :: g in games ==> Includes(r, g)
    ensures forall k :: |selection| <= k < |r| ==> r[k] in games
    ensures Distinct(selection) ==> Distinct(r)
    decreases |games|
  {
    if |games| == 0 then selection
    else
      var first := AddGame(selection, games[0]);
      var r := AddGames(first, games[1..]);
      AddGamesStep(selection, games, first, r);
      r
  }

  lemma AddGamesStep(selection: seq<BoardGame>, games: seq<BoardGame>, first: seq<BoardGame>, r: seq<BoardGame>)
    requires |games| > 0 && first == AddGame(selection, games[0])
    requires first <= r
    requires forall g :: g in games[1..] ==> Includes(r, g)
    requires forall k :: |first| <= k < |r| ==> r[k] in games[1..]
    ensures selection <= r
    ensures forall g :: g in games ==> Includes(r, g)
    ensures forall k :: |selection| <= k < |r| ==> r[k] in games
  {
    assert Includes(r, games[0]) by {
      var k :| 0 <= k < |first| && SameGame(first[k], games[0]);
      assert r[k] == first[k];
    }
    forall g | g in games ensures Includes(r, g) {
      if g != games[0] {
        var k :| 0 <= k < |games| && games[k] == g;
        assert g == games[1..][k - 1];
      }
    }
    forall k | |selection| <= k < |r| ensures r[k] in games {
      if k < |first| {
        assert r[k] == first[k] == games[0];
      } else {
        assert r[k] in games[1..];
      }
    }
  }

  /** The filtered games whose name equals the input, ignoring case. */
  function Named(games: seq<BoardGame>, name: string): (r: seq<BoardGame>)
    ensures forall g :: g in r <==> g in games && EqualsIgnoreCase(g.name, name)
    decreases |games|
  {
    if |games| == 0 then []
    else
      assert games == [games[0]] + games[1..];
      (if EqualsIgnoreCase(games[0].name, name) then [games[0]] else []) + Named(games[1..], name)
  }

  /** What a trimmed input that is not the keyword asks for, given the
      size of the list it indexes: the shared middle of addToList and
      removeFromList. A text with a '-' must be a range `s-e` with
      1 <= s <= e <= size; otherwise a number must be a 1-based position;
      anything else is a name. */
  datatype Pick =
    | Span(first: nat, last: nat)
    | Position(index: nat)
    | ByName
    | Rejected(error: ListError)

  function Interpret(input: string, size: nat): (p: Pick)
    ensures p.Span? ==> 1 <= p.first <= p.last <= size
    ensures p.Position? ==> 1 <= p.index <= size
    ensures p.ByName? <==> !Contains(input, "-") && ParseInt(input).None?
    ensures p.Rejected? && Contains(input, "-") ==>
      p.error in {InvalidRangeFormat, InvalidNumberInRange, RangeOutOfBounds}
    ensures p.Rejected? && !Contains(input, "-") ==> p.error == IndexOutOfBounds
  {
    if Contains(input, "-") then
      var parts := Split(input, "-");
      if |parts| != 2 then Rejected(InvalidRangeFormat)
      else
        match (ParseInt(parts[0]), ParseInt(parts[1]))
        case (Some(start), Some(end)) =>
          if start < 1 || end < start || end > size then Rejected(RangeOutOfBounds)
          else Span(start, end)
        case _ => Rejected(InvalidNumberInRange)
    else
      match ParseInt(input)
      case Some(index) =>
        if index < 1 || index > size then Rejected(IndexOutOfBounds)
        else Position(index)
      case None => ByName
  }

  /** addToList(str, filtered). The input is trimmed; "all" adds every
      filtered game; ranges and positions index the filtered games; a name
      adds every filtered game of that name, ignoring case. Every error is
      raised before the selection changes. */
  function AddToList(selection: seq<BoardGame>, str: Option<string>, filtered: seq<BoardGame>): (r: Outcome)
    ensures r.error.Some? ==> r.selection == selection
    ensures selection <= r.selection
    ensures forall k :: |selection| <= k < |r.selection| ==> r.selection[k] in filtered
    ensures Distinct(selection) ==> Distinct(r.selection)
    ensures str.None? || Trim(str.value) == "" ==> r.error == Some(EmptyInput)
  {
    if str.None? || Trim(str.value) == "" then Outcome(selection, Some(EmptyInput))
    else
      var input := Trim(str.value);
      if EqualsIgnoreCase(input, ADD_ALL) then
        Outcome(AddGames(selection, filtered), None)
      else
        match Interpret(input, |filtered|)
        case Rejected(e) => Outcome(selection, Some(e))
        case Span(first, last) => Outcome(AddGames(selection, filtered[first - 1..last]), None)
        case Position(index) => Outcome(AddGame(selection, filtered[index - 1]), None)
        case ByName =>
          var matching := Named(filtered, input);
          if |matching| == 0 then Outcome(selection, Some(NoGameFound(input)))
          else Outcome(AddGames(selection, matching), None)
  }

  // ---------------------------------------------------------------- removing

  /** List.removeAll(toRemove): drop every game that is the same game as
      one of toRemove. */
  function RemoveAll(selection: seq<BoardGame>, toRemove: seq<BoardGame>): (r: seq<BoardGame>)
    ensures forall g :: g in r <==> g in selection && !Includes(toRemove, g)
    ensures multiset(r) <= multiset(selection)
    ensures Distinct(selection) ==> Distinct(r)
  {
    Keep(selection, (g: BoardGame) => !Includes(toRemove, g))
  }

  /** The position of the first entry that is the same game. */
  function FirstSame(s: seq<BoardGame>, game: BoardGame): (k: nat)
    requires Includes(s, game)
    ensures k < |s| && SameGame(s[k], game)
    ensures forall i :: 0 <= i < k ==> !SameGame(s[i], game)
    decreases |s|
  {
    if SameGame(s[0], game) then 0
    else
      assert Includes(s[1..], game) by {
        var k :| 0 <= k < |s| && SameGame(s[k], game);
        assert s[1..][k - 1] == s[k];
      }
      var k := FirstSame(s[1..], game);
      assert s[1..][k] == s[k + 1];
      assert forall i :: 1 <= i <= k ==> s[i] == s[1..][i - 1];
      1 + k
  }

  /** List.remove(game): drop the first entry that is the same game. */
  function RemoveFirst(selection: seq<BoardGame>, game: BoardGame): (r: seq<BoardGame>)
    ensures Includes(selection, game) ==> |r| == |selection| - 1
    ensures !Includes(selection, game) ==> r == selection
    ensures Includes(selection, game) ==>
      var k := FirstSame(selection, game);
      multiset(selection) == multiset(r) + multiset{selection[k]} &&
      r[..k] == selection[..k] && r[k..] == selection[k + 1..]
    ensures multiset(r) <= multiset(selection)
    ensures Distinct(selection) ==> Distinct(r) && forall g :: g in r <==> g in selection && !SameGame(g, game)
  {
    if !Includes(selection, game) then selection
    else
      var k := FirstSame(selection, game);
      RemoveAtFacts(selection, k, game);
      selection[..k] + selection[k + 1..]
  }

  lemma RemoveAtFacts(s: seq<BoardGame>, k: nat, game: BoardGame)
    requires k < |s| && SameGame(s[k], game)
    ensures multiset(s) == multiset(s[..k] + s[k + 1..]) + multiset{s[k]}
    ensures multiset(s[..k] + s[k + 1..]) <= multiset(s)
    ensures Distinct(s) ==> Distinct(s[..k] + s[k + 1..])
    ensures Distinct(s) ==> forall g :: g in s[..k] + s[k + 1..] <==> g in s && !SameGame(g, game)
  {
    var r := s[..k] + s[k + 1..];
    assert s == s[..k] + [s[k]] + s[k + 1..];
    assert multiset(s) == multiset(r) + multiset{s[k]};
    if Distinct(s) {
      Sorting.DistinctRemove(s, k);
      forall g | g in r ensures g in s && !SameGame(g, game) {
        assert g in multiset(r);
      }
      forall g | g in s && !SameGame(g, game) ensures g in r {
        assert g in multiset(s);
      }
    }
  }

  /** List.removeIf(name equalsIgnoreCase): keep the games of other names. */
  function RemoveNamed(selection: seq<BoardGame>, name: string): (r: seq<BoardGame>)
    ensures forall g :: g in r <==> g in selection && !EqualsIgnoreCase(g.name, name)
    ensures multiset(r) <= multiset(selection)
    ensures |r| == |selection| <==> forall g :: g in selection ==> !EqualsIgnoreCase(g.name, name)
    ensures Distinct(selection) ==> Distinct(r)
  {
    Keep(selection, (g: BoardGame) => !EqualsIgnoreCase(g.name, name))
  }

  /** removeFromList(str). The input is trimmed; "all" clears the
      selection; ranges and positions index the selection sorted by
      lower-cased name; a name removes every selected game of that name,
      ignoring case. Every error is raised before the selection changes. */
  function RemoveFromList(selection: seq<BoardGame>, str: Option<string>): (r: Outcome)
    ensures r.error.Some? ==> r.selection == selection
    ensures multiset(r.selection) <= multiset(selection)
    ensures Distinct(selection) ==> Distinct(r.selection)
    ensures str.None? || Trim(str.value) == "" ==> r.error == Some(EmptyInput)
  {
    if str.None? || Trim(str.value) == "" then Outcome(selection, Some(EmptyInput))
    else
      var input := Trim(str.value);
      var sorted := SortedByName(selection);
      if EqualsIgnoreCase(input, ADD_ALL) then Outcome(Clear(selection), None)
      else
        match Interpret(input, |sorted|)
        case Rejected(e) => Outcome(selection, Some(e))
        case Span(first, last) => Outcome(RemoveAll(selection, sorted[first - 1..last]), None)
        case Position(index) => Outcome(RemoveFirst(selection, sorted[index - 1]), None)
        case ByName =>
          var kept := RemoveNamed(selection, input);
          if |kept| == |selection| then Outcome(selection, Some(NoGameFound(input)))
          else Outcome(kept, None)
  }

  // ---------------------------------------------------------------- inputs

  /** Integer.toString of a non-negative number is a string of digits. */
  lemma NumberText(n: nat)
    ensures AllDigits(ToDecimal(n)) && |ToDecimal(n)| > 0
  {
    assert ToDecimal(n) == Digits(n);
  }

  /** A string of digits survives trim, holds no '-' and is not the
      keyword. */
  lemma DigitText(d: string)
    requires AllDigits(d) && |d| > 0
    ensures Trim(d) == d
    ensures !Contains(d, "-")
    ensures !EqualsIgnoreCase(d, ADD_ALL)
  {
    TrimKeeps(d);
    DigitsHaveNoDash(d);
    NotKeyword(d);
  }

  /** A text that does not start with 'a' or 'A' is not the keyword. */
  lemma NotKeyword(t: string)
    requires |t| > 0 && t[0] != 'a' && t[0] != 'A'
    ensures !EqualsIgnoreCase(t, ADD_ALL)
  {
    assert !CharsEqualIgnoreCase(t[0], 'a');
  }

  /** indexOf("-") finds the first '-'. */
  lemma FirstDash(s: string, i: nat)
    requires i < |s| && s[i] == '-'
    requires forall k :: 0 <= k < i ==> s[k] != '-'
    ensures IndexOf(s, "-") == Some(i)
  {
    assert OccursAt(s, "-", i) by {
      assert s[i..i + 1] == "-";
    }
    forall k | 0 <= k < i ensures !OccursAt(s, "-", k) {
      assert s[k..k + 1][0] == s[k];
    }
  }

  /** The text "s-e" of two digit strings splits into the two and
      reaches the range branch. */
  lemma RangeText(da: string, db: string)
    requires AllDigits(da) && AllDigits(db) && |da| > 0 && |db| > 0
    ensures var t := da + "-" + db;
      && Trim(t) == t && t != ""
      && Contains(t, "-")
      && !EqualsIgnoreCase(t, ADD_ALL)
      && Split(t, "-") == [da, db]
  {
    var t := da + "-" + db;
    RangeTextTrim(da, db);
    assert forall k :: 0 <= k < |da| ==> t[k] == da[k];
    FirstDash(t, |da|);
    assert t[..|da|] == da && t[|da| + 1..] == db;
    assert !Contains(db, "-") by {
      DigitsHaveNoDash(db);
    }
    SplitAtDash(t, |da|);
  }

  lemma DigitsHaveNoDash(d: string)
    requires AllDigits(d)
    ensures !Contains(d, "-")
  {
    forall k | 0 <= k < |d| ensures !OccursAt(d, "-", k) {
      assert d[k..k + 1][0] == d[k];
    }
  }

  /** Splitting at the only '-' gives the two sides, when the second is
      not empty. */
  lemma SplitAtDash(t: string, i: nat)
    requires IndexOf(t, "-") == Some(i)
    requires !Contains(t[i + 1..], "-") && i + 1 < |t|
    ensures Split(t, "-") == [t[..i], t[i + 1..]]
  {
    PiecesAtDash(t, i);
    var p := Pieces(t, "-");
    assert DropTrailingEmpty(p) == p;
  }

  lemma PiecesAtDash(t: string, i: nat)
    requires IndexOf(t, "-") == Some(i)
    requires !Contains(t[i + 1..], "-") && i + 1 < |t|
    ensures Pieces(t, "-") == [t[..i], t[i + 1..]]
  {
    PiecesHead(t, i);
    PiecesWhole(t[i + 1..]);
  }

  lemma PiecesHead(t: string, i: nat)
    requires IndexOf(t, "-") == Some(i)
    ensures Pieces(t, "-") == [t[..i]] + Pieces(t[i + 1..], "-")
  {
  }

  lemma PiecesWhole(t: string)
    requires !Contains(t, "-")
    ensures Pieces(t, "-") == [t]
  {
  }

  lemma RangeTextTrim(da: string, db: string)
    requires AllDigits(da) && AllDigits(db) && |da| > 0 && |db| > 0
    ensures Trim(da + "-" + db) == da + "-" + db
    ensures !EqualsIgnoreCase(da + "-" + db, ADD_ALL)
  {
    var t := da + "-" + db;
    assert t[0] == da[0] && t[|t| - 1] == db[|db| - 1];
    TrimKeeps(t);
    NotKeyword(t);
  }

  /** A '-' followed by digits, as Integer.toString writes a negative
      number, reaches the range branch with an empty first part. */
  lemma NegativeText(d: string)
    requires AllDigits(d) && |d| > 0
    ensures var t := "-" + d;
      && Trim(t) == t && t != ""
      && Contains(t, "-")
      && !EqualsIgnoreCase(t, ADD_ALL)
      && Split(t, "-") == ["", d]
  {
    var t := "-" + d;
    DashDigitsTrim(d);
    NotKeyword(t);
    FirstDash(t, 0);
    assert t[1..] == d && t[..0] == "";
    DigitsHaveNoDash(d);
    SplitAtDash(t, 0);
  }

  lemma DashDigitsTrim(d: string)
    requires AllDigits(d) && |d| > 0
    ensures Trim("-" + d) == "-" + d
  {
    var t := "-" + d;
    assert t[|t| - 1] == d[|d| - 1];
    TrimKeeps(t);
  }

  // ---------------------------------------------------------------- interpreting

  /** "s-e" for two numbers is the range from s to e, or out of bounds. */
  lemma InterpretRange(start: nat, end: nat, size: nat)
    requires start <= MAX_VALUE && end <= MAX_VALUE
    ensures Interpret(ToDecimal(start) + "-" + ToDecimal(end), size) ==
      if start < 1 || end < start || end > size then Rejected(RangeOutOfBounds) else Span(start, end)
  {
    var da, db := ToDecimal(start), ToDecimal(end);
    NumberText(start);
    NumberText(end);
    RangeText(da, db);
    ParseIntToDecimal(start);
    ParseIntToDecimal(end);
  }

  /** A non-negative number is that position, or out of bounds. */
  lemma InterpretIndex(index: nat, size: nat)
    requires index <= MAX_VALUE
    ensures Interpret(ToDecimal(index), size) ==
      if index < 1 || index > size then Rejected(IndexOutOfBounds) else Position(index)
  {
    NumberText(index);
    DigitText(ToDecimal(index));
    ParseIntToDecimal(index);
  }

  /** A negative number is read as a range with an empty start. */
  lemma InterpretNegative(digits: string, size: nat)
    requires AllDigits(digits) && |digits| > 0
    ensures Interpret("-" + digits, size) == Rejected(InvalidNumberInRange)
  {
    NegativeText(digits);
  }

  /** A text with a '-' that does not start with a digit or a sign is a
      malformed range, never a name. */
  lemma InterpretHyphenated(input: string, size: nat)
    requires Contains(input, "-") && |input| > 0 && !IsDigit(input[0])
    requires input[0] != '-' && input[0] != '+'
    ensures Interpret(input, size) == Rejected(InvalidRangeFormat) || Interpret(input, size) == Rejected(InvalidNumberInRange)
  {
    var parts := Split(input, "-");
    if |parts| == 2 {
      var i := IndexOf(input, "-").value;
      assert i != 0 by {
        assert !OccursAt(input, "-", 0) by {
          assert input[0..1][0] == input[0];
        }
      }
      assert parts[0] == Pieces(input, "-")[0] == input[..i];
      assert input[..i][0] == input[0];
      assert ParseInt(parts[0]).None?;
    }
  }

  // ---------------------------------------------------------------- branches

  /** "all" adds every filtered game. */
  lemma AddAll(selection: seq<BoardGame>, str: Option<string>, filtered: seq<BoardGame>)
    requires str.Some? && EqualsIgnoreCase(Trim(str.value), ADD_ALL)
    ensures var r := AddToList(selection, str, filtered);
      r.error.None? && forall g :: g in filtered ==> Includes(r.selection, g)
  {
  }

  /** A range "s-e" adds filtered games s to e (1-based, inclusive) when
      1 <= s <= e <= |filtered| and is rejected otherwise. */
  lemma AddRange(selection: seq<BoardGame>, filtered: seq<BoardGame>, start: nat, end: nat)
    requires start <= MAX_VALUE && end <= MAX_VALUE
    ensures var r := AddToList(selection, Some(ToDecimal(start) + "-" + ToDecimal(end)), filtered);
      if 1 <= start <= end <= |filtered| then
        && r.error.None?
        && (forall k :: start - 1 <= k < end ==> Includes(r.selection, filtered[k]))
        && (forall k :: |selection| <= k < |r.selection| ==> r.selection[k] in filtered[start - 1..end])
      else
        r == Outcome(selection, Some(RangeOutOfBounds))
  {
    var t := ToDecimal(start) + "-" + ToDecimal(end);
    NumberText(start);
    NumberText(end);
    RangeText(ToDecimal(start), ToDecimal(end));
    InterpretRange(start, end, |filtered|);
    if 1 <= start <= end <= |filtered| {
      AddSlice(selection, filtered, start, end);
    }
  }

  lemma AddSlice(selection: seq<BoardGame>, filtered: seq<BoardGame>, start: nat, end: nat)
    requires 1 <= start <= end <= |filtered|
    ensures var r := AddGames(selection, filtered[start - 1..end]);
      && (forall k :: start - 1 <= k < end ==> Includes(r, filtered[k]))
      && (forall k :: |selection| <= k < |r| ==> r[k] in filtered[start - 1..end])
  {
    var slice := filtered[start - 1..end];
    var r := AddGames(selection, slice);
    forall k | start - 1 <= k < end ensures Includes(r, filtered[k]) {
      assert filtered[k] == slice[k - (start - 1)];
    }
  }

  /** A number i adds filtered game i (1-based) when it exists and is
      rejected otherwise. */
  lemma AddIndex(selection: seq<BoardGame>, filtered: seq<BoardGame>, index: nat)
    requires index <= MAX_VALUE
    ensures var r := AddToList(selection, Some(ToDecimal(index)), filtered);
      if 1 <= index <= |filtered| then
        && r == Outcome(AddGame(selection, filtered[index - 1]), None)
        && Includes(r.selection, filtered[index - 1]) && |r.selection| <= |selection| + 1
      else
        r == Outcome(selection, Some(IndexOutOfBounds))
  {
    NumberText(index);
    DigitText(ToDecimal(index));
    InterpretIndex(index, |filtered|);
  }

  /** Any other text adds every filtered game of that name, ignoring case,
      and fails only when there is none. */
  lemma AddByName(selection: seq<BoardGame>, str: Option<string>, filtered: seq<BoardGame>)
    requires str.Some? && Trim(str.value) != ""
    requires !EqualsIgnoreCase(Trim(str.value), ADD_ALL)
    requires !Contains(Trim(str.value), "-") && ParseInt(Trim(str.value)).None?
    ensures var r := AddToList(selection, str, filtered); var name := Trim(str.value);
      && (r.error.None? <==> exists g :: g in filtered && EqualsIgnoreCase(g.name, name))
      && (r.error.Some? ==> r.error == Some(NoGameFound(name)))
      && (forall g :: g in filtered && EqualsIgnoreCase(g.name, name) ==> Includes(r.selection, g))
      && (forall k :: |selection| <= k < |r.selection| ==> EqualsIgnoreCase(r.selection[k].name, name))
  {
    var name := Trim(str.value);
    var matching := Named(filtered, name);
    if |matching| == 0 {
      forall g | g in filtered ensures !EqualsIgnoreCase(g.name, name) {
        assert g !in matching;
      }
    } else {
      assert matching[0] in matching;
    }
  }

  /** A negative number is read as a range with an empty start, whichever
      list it is given to. */
  lemma NegativeNumber(selection: seq<BoardGame>, filtered: seq<BoardGame>, digits: string)
    requires AllDigits(digits) && |digits| > 0
    ensures AddToList(selection, Some("-" + digits), filtered) == Outcome(selection, Some(InvalidNumberInRange))
    ensures RemoveFromList(selection, Some("-" + digits)) == Outcome(selection, Some(InvalidNumberInRange))
  {
    NegativeText(digits);
    InterpretNegative(digits, |filtered|);
    InterpretNegative(digits, |selection|);
  }

  /** A name with a '-' in it, not starting with a digit or sign, is read
      as a malformed range: such a game can be neither added nor removed by
      name. */
  lemma HyphenatedName(selection: seq<BoardGame>, str: Option<string>, filtered: seq<BoardGame>)
    requires str.Some? && Contains(Trim(str.value), "-") && !EqualsIgnoreCase(Trim(str.value), ADD_ALL)
    requires |Trim(str.value)| > 0 && !IsDigit(Trim(str.value)[0])
    requires Trim(str.value)[0] != '-' && Trim(str.value)[0] != '+'
    ensures var r := AddToList(selection, str, filtered);
      r == Outcome(selection, Some(InvalidRangeFormat)) || r == Outcome(selection, Some(InvalidNumberInRange))
    ensures var r := RemoveFromList(selection, str);
      r == Outcome(selection, Some(InvalidRangeFormat)) || r == Outcome(selection, Some(InvalidNumberInRange))
  {
    InterpretHyphenated(Trim(str.value), |filtered|);
    InterpretHyphenated(Trim(str.value), |selection|);
  }

  /** "all" clears the selection (the same keyword as for adding). */
  lemma RemoveAllGames(selection: seq<BoardGame>, str: Option<string>)
    requires str.Some? && EqualsIgnoreCase(Trim(str.value), ADD_ALL)
    ensures var r := RemoveFromList(selection, str);
      r.error.None? && Count(r.selection) == 0
  {
  }

  /** A range "s-e" removes the games at positions s to e of the name
      order, when 1 <= s <= e <= |selection|, and is rejected otherwise. */
  lemma RemoveRange(selection: seq<BoardGame>, start: nat, end: nat)
    requires start <= MAX_VALUE && end <= MAX_VALUE
    ensures var r := RemoveFromList(selection, Some(ToDecimal(start) + "-" + ToDecimal(end)));
      var sorted := SortedByName(selection);
      if 1 <= start <= end <= |selection| then
        && r.error.None?
        && forall g :: g in r.selection <==> g in selection && !Includes(sorted[start - 1..end], g)
      else
        r == Outcome(selection, Some(RangeOutOfBounds))
  {
    NumberText(start);
    NumberText(end);
    RangeText(ToDecimal(start), ToDecimal(end));
    InterpretRange(start, end, |selection|);
  }

  /** A number i removes the i-th game of the name order (1-based) when it
      exists and is rejected otherwise. */
  lemma RemoveIndex(selection: seq<BoardGame>, index: nat)
    requires index <= MAX_VALUE && Distinct(selection)
    ensures var r := RemoveFromList(selection, Some(ToDecimal(index)));
      var sorted := SortedByName(selection);
      if 1 <= index <= |selection| then
        && r.error.None?
        && |r.selection| == |selection| - 1
        && forall g :: g in r.selection <==> g in selection && !SameGame(g, sorted[index - 1])
      else
        r == Outcome(selection, Some(IndexOutOfBounds))
  {
    NumberText(index);
    DigitText(ToDecimal(index));
    InterpretIndex(index, |selection|);
    var sorted := SortedByName(selection);
    if 1 <= index <= |selection| {
      var g := sorted[index - 1];
      assert g in multiset(selection);
      var k :| 0 <= k < |selection| && selection[k] == g;
      assert SameGame(selection[k], g);
    }
  }

  /** Any other text removes every selected game of that name, ignoring
      case, and fails only when there is none. */
  lemma RemoveByName(selection: seq<BoardGame>, str: Option<string>)
    requires str.Some? && Trim(str.value) != ""
    requires !EqualsIgnoreCase(Trim(str.value), ADD_ALL)
    requires !Contains(Trim(str.value), "-") && ParseInt(Trim(str.value)).None?
    ensures var r := RemoveFromList(selection, str); var name := Trim(str.value);
      && (r.error.None? <==> exists g :: g in selection && EqualsIgnoreCase(g.name, name))
      && (r.error.Some? ==> r == Outcome(selection, Some(NoGameFound(name))))
      && forall g :: g in r.selection <==> g in selection && !EqualsIgnoreCase(g.name, name)
  {
    var name := Trim(str.value);
    assert Interpret(name, |SortedByName(selection)|).ByName?;
    var kept := RemoveNamed(selection, name);
    assert RemoveFromList(selection, str) ==
      if |kept| == |selection| then Outcome(selection, Some(NoGameFound(name))) else Outcome(kept, None);
  }
}
