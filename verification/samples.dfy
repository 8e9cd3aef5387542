/** The eight sample games of the planner's tests and the results the tests
    expect, stated for every iteration order of the game set and for every
    operator, column and double parser that reads the sample clauses as the
    planner's parsers do. */
module Samples {
  import opened Wrappers
  import opened JavaInteger
  import opened JavaString
  import opened Games
  import Filters
  import Sorting
  import Planner
  import GameList

  // ---------------------------------------------------------------- data

  const Days17 := BoardGame("17 days", 6, 1, 8, 70, 70, 9.0, 600, 9.0, 2005)
  const Chess := BoardGame("Chess", 7, 2, 2, 10, 20, 10.0, 700, 10.0, 2006)
  const Go := BoardGame("Go", 1, 2, 5, 30, 30, 8.0, 100, 7.5, 2000)
  const GoFish := BoardGame("Go Fish", 2, 2, 10, 20, 120, 3.0, 200, 6.5, 2001)
  const Golang := BoardGame("golang", 4, 2, 7, 50, 55, 7.0, 400, 9.5, 2003)
  const GoRami := BoardGame("GoRami", 3, 6, 6, 40, 42, 5.0, 300, 8.5, 2002)
  const Monopoly := BoardGame("Monopoly", 8, 6, 10, 20, 1000, 1.0, 800, 5.0, 2007)
  const Tucano := BoardGame("Tucano", 5, 10, 20, 60, 90, 6.0, 500, 8.0, 2004)

  /** The sample set, listed by year of publication. The lemmas below hold
      for every arrangement of it, as the set's iteration order is
      unspecified. */
  const Catalogue: seq<BoardGame> := [Go, GoFish, GoRami, Golang, Tucano, Days17, Chess, Monopoly]

  // ---------------------------------------------------------------- clauses

  /** "name~=go" is one clause. */
  lemma NameClauses()
    ensures Planner.Clauses("name~=go") == ["name~=go"]
  {
    assert Trim("name~=go") == "name~=go";
    Planner.SingleClause("name~=go");
  }

  /** With an operator parser that finds "~=" in "name~=go" and a column
      parser that reads "name" as NAME, the clause parses into NAME,
      CONTAINS and "go". */
  lemma NameParse(lex: Planner.Lexicon)
    requires lex.operatorFromStr("name~=go") == Some(CONTAINS)
    requires lex.columnFromString("name") == Some(NAME)
    ensures Planner.ParseClause(lex, "name~=go") == Some(Planner.Condition(NAME, CONTAINS, "go"))
  {
    assert "name~=go" == "name" + Token(CONTAINS) + "go";
    assert Planner.NoSpaceBefore("name~=go", "~=");
    IndexOfAbsent("go", "~=");
    Planner.SimpleClause(lex, "name", CONTAINS, "go", NAME);
  }

  // ---------------------------------------------------------------- selections

  lemma CatalogueOnce()
    ensures forall g :: multiset(Catalogue)[g] <= 1
  {
    OnceEach(Catalogue);
  }

  /** Games with pairwise different ids occur once each. */
  lemma {:induction false} OnceEach(s: seq<BoardGame>)
    requires forall i, j :: 0 <= i < j < |s| ==> s[i].id != s[j].id
    ensures forall g :: multiset(s)[g] <= 1
  {
    if |s| > 0 {
      OnceEach(s[1..]);
      assert s == [s[0]] + s[1..];
      assert s[0] !in s[1..];
    }
  }

  /** Filtering any arrangement of the catalogue keeps exactly the
      catalogue games that pass, each once. */
  lemma KeptExactly(pass: BoardGame -> bool, r: seq<BoardGame>, games: seq<BoardGame>, e: seq<BoardGame>)
    requires multiset(games) == multiset(Catalogue)
    requires forall g :: multiset(r)[g] == if pass(g) then multiset(games)[g] else 0
    requires forall g :: g in e <==> g in Catalogue && pass(g)
    requires forall g :: multiset(e)[g] <= 1
    ensures multiset(r) == multiset(e)
  {
    CatalogueOnce();
    forall g ensures multiset(r)[g] == multiset(e)[g] {
      assert g in Catalogue <==> g in multiset(Catalogue);
      assert g in e <==> g in multiset(e);
    }
  }

  // ---------------------------------------------------------------- names containing "go"

  /** A trimmed name whose lower-cased form starts with "go" contains it. */
  lemma StartsWithGo(name: string)
    requires Trim(name) == name && |name| >= 2 && ToLower(name)[..2] == "go"
    ensures Filters.FilterString(name, CONTAINS, "go")
  {
    IndexOfAt(ToLower(name), "go", 0);
  }

  /** A trimmed name without 'g' in either case does not contain "go". */
  lemma WithoutG(name: string)
    requires Trim(name) == name && 'g' !in ToLower(name)
    ensures !Filters.FilterString(name, CONTAINS, "go")
  {
    IndexOfAbsent(ToLower(name), "go");
  }

  lemma GoNameGo() ensures Filters.FilterString(Go.name, CONTAINS, "go") {
    assert Trim("Go") == "Go" && ToLower("Go")[..2] == "go";
    StartsWithGo(Go.name);
  }
  lemma GoNameGoFish() ensures Filters.FilterString(GoFish.name, CONTAINS, "go") {
    assert Trim("Go Fish") == "Go Fish" && ToLower("Go Fish")[..2] == "go";
    StartsWithGo(GoFish.name);
  }
  lemma GoNameGolang() ensures Filters.FilterString(Golang.name, CONTAINS, "go") {
    assert Trim("golang") == "golang" && ToLower("golang")[..2] == "go";
    StartsWithGo(Golang.name);
  }
  lemma GoNameGoRami() ensures Filters.FilterString(GoRami.name, CONTAINS, "go") {
    assert Trim("GoRami") == "GoRami" && ToLower("GoRami")[..2] == "go";
    StartsWithGo(GoRami.name);
  }
  lemma GoNameDays17() ensures !Filters.FilterString(Days17.name, CONTAINS, "go") {
    assert Trim("17 days") == "17 days" && ToLower("17 days") == "17 days";
    WithoutG(Days17.name);
  }
  lemma GoNameChess() ensures !Filters.FilterString(Chess.name, CONTAINS, "go") {
    assert Trim("Chess") == "Chess" && ToLower("Chess") == "chess";
    WithoutG(Chess.name);
  }
  lemma GoNameMonopoly() ensures !Filters.FilterString(Monopoly.name, CONTAINS, "go") {
    assert Trim("Monopoly") == "Monopoly" && ToLower("Monopoly") == "monopoly";
    WithoutG(Monopoly.name);
  }
  lemma GoNameTucano() ensures !Filters.FilterString(Tucano.name, CONTAINS, "go") {
    assert Trim("Tucano") == "Tucano" && ToLower("Tucano") == "tucano";
    WithoutG(Tucano.name);
  }

  /** The four games whose names contain "go", in the case-insensitive
      order of their names. */
  const GoGames: seq<BoardGame> := [Go, GoFish, Golang, GoRami]

  lemma GoGamesOnce()
    ensures forall g :: multiset(GoGames)[g] <= 1
  {
    OnceEach(GoGames);
  }

  /** Which catalogue games pass a clause that parses as name ~= go. */
  lemma GoSelection(lex: Planner.Lexicon, clause: string)
    requires Planner.ParseClause(lex, clause) == Some(Planner.Condition(NAME, CONTAINS, "go"))
    ensures forall g :: g in GoGames <==> g in Catalogue && Planner.PassesAll(lex, [clause], g)
  {
    GoNames();
    forall g ensures Planner.PassesAll(lex, [clause], g) == Filters.FilterString(g.name, CONTAINS, "go") {
      OneClause(lex, clause, g);
    }
  }

  lemma GoNames()
    ensures forall g :: g in GoGames <==> g in Catalogue && Filters.FilterString(g.name, CONTAINS, "go")
  {
    GoNamesIn();
    GoNamesOut();
  }

  lemma GoNamesIn()
    ensures forall g :: g in GoGames ==> g in Catalogue && Filters.FilterString(g.name, CONTAINS, "go")
  {
    forall g | g in GoGames ensures g in Catalogue && Filters.FilterString(g.name, CONTAINS, "go") {
      if g == Go { GoNameGo(); }
      else if g == GoFish { GoNameGoFish(); }
      else if g == Golang { GoNameGolang(); }
      else { GoNameGoRami(); }
    }
  }

  lemma GoNamesOut()
    ensures forall g :: g in Catalogue && g !in GoGames ==> !Filters.FilterString(g.name, CONTAINS, "go")
  {
    forall g | g in Catalogue && g !in GoGames ensures !Filters.FilterString(g.name, CONTAINS, "go") {
      if g == Days17 { GoNameDays17(); }
      else if g == Chess { GoNameChess(); }
      else if g == Monopoly { GoNameMonopoly(); }
      else { GoNameTucano(); }
    }
  }

  /** Passing a single stored clause is satisfying its parsed condition. */
  lemma OneClause(lex: Planner.Lexicon, clause: string, g: BoardGame)
    requires Planner.ParseClause(lex, clause).Some?
    ensures var c := Planner.ParseClause(lex, clause).value;
      Planner.PassesAll(lex, [clause], g) == Filters.Filter(g, c.column, c.op, c.value, lex.parseDouble)
  {
    assert clause in [clause];
  }

  /** Names compare as their lower-cased forms do. */
  lemma NameBefore(a: BoardGame, b: BoardGame)
    requires CompareTo(ToLower(a.name), ToLower(b.name)) < 0
    ensures Sorting.Cmp(Sorting.GetComparator(NAME, true), a, b) < 0
  {
  }

  lemma GoBeforeGoFish() ensures Sorting.Cmp(Sorting.GetComparator(NAME, true), Go, GoFish) < 0 {
    assert ToLower("Go") == "go" && ToLower("Go Fish") == "go fish";
    CompareToPrefix("go", "go fish");
    NameBefore(Go, GoFish);
  }
  lemma GoFishBeforeGolang() ensures Sorting.Cmp(Sorting.GetComparator(NAME, true), GoFish, Golang) < 0 {
    assert ToLower("Go Fish") == "go fish" && ToLower("golang") == "golang";
    CompareToFirstDifference("go fish", "golang", 2);
    NameBefore(GoFish, Golang);
  }
  lemma GolangBeforeGoRami() ensures Sorting.Cmp(Sorting.GetComparator(NAME, true), Golang, GoRami) < 0 {
    assert ToLower("golang") == "golang" && ToLower("GoRami") == "gorami";
    CompareToFirstDifference("golang", "gorami", 2);
    NameBefore(Golang, GoRami);
  }

  lemma GoGamesInOrder()
    ensures Sorting.SortedBy(Sorting.GetComparator(NAME, true), GoGames)
    ensures forall x, y :: x in GoGames && y in GoGames && x != y ==> Sorting.Cmp(Sorting.GetComparator(NAME, true), x, y) != 0
  {
    GoBeforeGoFish(); GoFishBeforeGolang(); GolangBeforeGoRami();
    FourInOrder(Sorting.GetComparator(NAME, true), Go, GoFish, Golang, GoRami);
  }

  /** Four games each strictly before the next are sorted and pairwise
      distinct in the order. */
  lemma FourInOrder(o: Sorting.Order, a: BoardGame, b: BoardGame, c: BoardGame, d: BoardGame)
    requires Sorting.Cmp(o, a, b) < 0 && Sorting.Cmp(o, b, c) < 0 && Sorting.Cmp(o, c, d) < 0
    ensures Sorting.SortedBy(o, [a, b, c, d])
    ensures forall x, y :: x in [a, b, c, d] && y in [a, b, c, d] && x != y ==> Sorting.Cmp(o, x, y) != 0
  {
    Sorting.StrictNeighbours(o, [a, b, c, d]);
  }

  /** filter("name~=go") on a new planner, for every iteration order of the
      sample set: Go, Go Fish, golang, GoRami. The comparator orders names
      ignoring case, so "golang" precedes "GoRami". */
  lemma NameContainsGo(lex: Planner.Lexicon, games: seq<BoardGame>)
    requires multiset(games) == multiset(Catalogue)
    requires lex.operatorFromStr("name~=go") == Some(CONTAINS)
    requires lex.columnFromString("name") == Some(NAME)
    ensures Planner.FilterByName(Planner.NewPlanner(games), lex, Some("name~=go")).1 == GoGames
  {
    NameClauses();
    NameParse(lex);
    GoSelection(lex, "name~=go");
    GoGamesOnce();
    GoGamesInOrder();
    NameSelection(lex, games, "name~=go", GoGames);
  }

  /** A single-clause filter on a new planner returns, in name order, the
      catalogue games that pass the clause. */
  lemma NameSelection(lex: Planner.Lexicon, games: seq<BoardGame>, filter: string, e: seq<BoardGame>)
    requires multiset(games) == multiset(Catalogue)
    requires filter != "" && Planner.Clauses(filter) == [filter]
    requires forall g :: g in e <==> g in Catalogue && Planner.PassesAll(lex, [filter], g)
    requires forall g :: multiset(e)[g] <= 1
    requires Sorting.SortedBy(Sorting.GetComparator(NAME, true), e)
    requires forall x, y :: x in e && y in e && x != y ==> Sorting.Cmp(Sorting.GetComparator(NAME, true), x, y) != 0
    ensures Planner.FilterByName(Planner.NewPlanner(games), lex, Some(filter)).1 == e
  {
    var r := Planner.FilterByName(Planner.NewPlanner(games), lex, Some(filter));
    assert r.0.filterConditions == [filter];
    KeptExactly(g => Planner.PassesAll(lex, [filter], g), r.1, games, e);
    Sorting.SortedUnique(Sorting.GetComparator(NAME, true), e, r.1);
  }

  // ---------------------------------------------------------------- at least six players

  /** The three games for six or more players, in name order. */
  const CrowdGames: seq<BoardGame> := [GoRami, Monopoly, Tucano]

  lemma CrowdGamesOnce()
    ensures forall g :: multiset(CrowdGames)[g] <= 1
  {
    OnceEach(CrowdGames);
  }

  lemma PlayersClauses()
    ensures Planner.Clauses("minPlayers>=6") == ["minPlayers>=6"]
  {
    assert Trim("minPlayers>=6") == "minPlayers>=6";
    Planner.SingleClause("minPlayers>=6");
  }

  lemma PlayersParse(lex: Planner.Lexicon)
    requires lex.operatorFromStr("minPlayers>=6") == Some(GREATER_THAN_EQUALS)
    requires lex.columnFromString("minPlayers") == Some(MIN_PLAYERS)
    ensures Planner.ParseClause(lex, "minPlayers>=6") == Some(Planner.Condition(MIN_PLAYERS, GREATER_THAN_EQUALS, "6"))
  {
    PlayersPieces();
    Planner.SimpleClause(lex, "minPlayers", GREATER_THAN_EQUALS, "6", MIN_PLAYERS);
  }

  /** The text of "minPlayers>=6" around its operator. */
  lemma PlayersPieces()
    ensures "minPlayers>=6" == "minPlayers" + Token(GREATER_THAN_EQUALS) + "6"
    ensures Planner.NoSpaceBefore("minPlayers>=6", Token(GREATER_THAN_EQUALS))
    ensures Token(GREATER_THAN_EQUALS)[0] !in "minPlayers" && !Contains("6", Token(GREATER_THAN_EQUALS))
  {
    assert "minPlayers>=6" == "minPlayers" + ">=" + "6";
    assert Planner.NoSpaceBefore("minPlayers>=6", ">=");
    IndexOfAbsent("6", ">=");
  }

  /** Which catalogue games pass a clause that parses as minPlayers >= 6. */
  lemma CrowdSelection(lex: Planner.Lexicon, clause: string, six: string)
    requires Planner.ParseClause(lex, clause) == Some(Planner.Condition(MIN_PLAYERS, GREATER_THAN_EQUALS, six))
    requires ParseInt(six) == Some(6)
    ensures forall g :: g in CrowdGames <==> g in Catalogue && Planner.PassesAll(lex, [clause], g)
  {
    CrowdPlayers();
    forall g ensures Planner.PassesAll(lex, [clause], g) == (g.minPlayers >= 6) {
      AtLeastSix(lex, clause, six, g);
    }
  }

  lemma AtLeastSix(lex: Planner.Lexicon, clause: string, six: string, g: BoardGame)
    requires Planner.ParseClause(lex, clause) == Some(Planner.Condition(MIN_PLAYERS, GREATER_THAN_EQUALS, six))
    requires ParseInt(six) == Some(6)
    ensures Planner.PassesAll(lex, [clause], g) == (g.minPlayers >= 6)
  {
    OneClause(lex, clause, g);
    assert Filters.Filter(g, MIN_PLAYERS, GREATER_THAN_EQUALS, six, lex.parseDouble)
      == Filters.FilterInt(g.minPlayers, GREATER_THAN_EQUALS, six);
  }

  lemma SixText()
    ensures ParseInt("6") == Some(6)
  {
  }

  lemma CrowdPlayers()
    ensures forall g :: g in CrowdGames <==> g in Catalogue && g.minPlayers >= 6
  {
  }

  lemma CrowdGamesInOrder()
    ensures Sorting.SortedBy(Sorting.GetComparator(NAME, true), CrowdGames)
    ensures forall x, y :: x in CrowdGames && y in CrowdGames && x != y ==> Sorting.Cmp(Sorting.GetComparator(NAME, true), x, y) != 0
  {
    GoRamiBeforeMonopoly(); MonopolyBeforeTucano();
    Sorting.StrictNeighbours(Sorting.GetComparator(NAME, true), CrowdGames);
  }

  lemma GoRamiBeforeMonopoly() ensures Sorting.Cmp(Sorting.GetComparator(NAME, true), GoRami, Monopoly) < 0 {
    assert ToLower("GoRami") == "gorami" && ToLower("Monopoly") == "monopoly";
    CompareToFirstDifference("gorami", "monopoly", 0);
    NameBefore(GoRami, Monopoly);
  }
  lemma MonopolyBeforeTucano() ensures Sorting.Cmp(Sorting.GetComparator(NAME, true), Monopoly, Tucano) < 0 {
    assert ToLower("Monopoly") == "monopoly" && ToLower("Tucano") == "tucano";
    CompareToFirstDifference("monopoly", "tucano", 0);
    NameBefore(Monopoly, Tucano);
  }

  /** filter("minPlayers>=6") on a new planner, for every iteration order of
      the sample set: GoRami, Monopoly, Tucano. */
  lemma AtLeastSixPlayers(lex: Planner.Lexicon, games: seq<BoardGame>)
    requires multiset(games) == multiset(Catalogue)
    requires lex.operatorFromStr("minPlayers>=6") == Some(GREATER_THAN_EQUALS)
    requires lex.columnFromString("minPlayers") == Some(MIN_PLAYERS)
    ensures Planner.FilterByName(Planner.NewPlanner(games), lex, Some("minPlayers>=6")).1 == CrowdGames
  {
    PlayersClauses();
    PlayersParse(lex);
    SixText();
    CrowdSelection(lex, "minPlayers>=6", "6");
    CrowdGamesOnce();
    CrowdGamesInOrder();
    NameSelection(lex, games, "minPlayers>=6", CrowdGames);
  }

  // ---------------------------------------------------------------- a space after the operator

  lemma SpacedClauses()
    ensures Planner.Clauses("minPlayers>= 6") == ["minPlayers>= 6"]
  {
    assert Trim("minPlayers>= 6") == "minPlayers>= 6";
    Planner.SingleClause("minPlayers>= 6");
  }

  /** The pattern only removes whitespace in front of the operator, so the
      value keeps its leading space. */
  lemma SpacedParse(lex: Planner.Lexicon)
    requires lex.operatorFromStr("minPlayers>= 6") == Some(GREATER_THAN_EQUALS)
    requires lex.columnFromString("minPlayers") == Some(MIN_PLAYERS)
    ensures Planner.ParseClause(lex, "minPlayers>= 6") == Some(Planner.Condition(MIN_PLAYERS, GREATER_THAN_EQUALS, " 6"))
  {
    assert "minPlayers>= 6" == "minPlayers" + Token(GREATER_THAN_EQUALS) + " 6";
    assert Planner.NoSpaceBefore("minPlayers>= 6", ">=");
    IndexOfAbsent(" 6", ">=");
    Planner.SimpleClause(lex, "minPlayers", GREATER_THAN_EQUALS, " 6", MIN_PLAYERS);
  }

  /** A clause whose parsed value has whitespace in front passes no game. */
  lemma SpacedValueFails(lex: Planner.Lexicon, clause: string, g: BoardGame)
    requires Planner.ParseClause(lex, clause) == Some(Planner.Condition(MIN_PLAYERS, GREATER_THAN_EQUALS, " 6"))
    ensures !Planner.PassesAll(lex, [clause], g)
  {
    OneClause(lex, clause, g);
    Filters.FilterIntUntrimmed(g.minPlayers, GREATER_THAN_EQUALS, " 6");
  }

  /** filter("minPlayers>= 6") returns no game at all, whatever the games:
      Integer.parseInt rejects the value " 6". */
  lemma SpaceAfterOperator(lex: Planner.Lexicon, games: seq<BoardGame>)
    requires lex.operatorFromStr("minPlayers>= 6") == Some(GREATER_THAN_EQUALS)
    requires lex.columnFromString("minPlayers") == Some(MIN_PLAYERS)
    ensures Planner.FilterByName(Planner.NewPlanner(games), lex, Some("minPlayers>= 6")).1 == []
  {
    SpacedClauses();
    SpacedParse(lex);
    forall g ensures !Planner.PassesAll(lex, ["minPlayers>= 6"], g) {
      SpacedValueFails(lex, "minPlayers>= 6", g);
    }
    NoneSelected(lex, games, "minPlayers>= 6");
  }

  /** A single-clause filter that no game passes returns nothing. */
  lemma NoneSelected(lex: Planner.Lexicon, games: seq<BoardGame>, filter: string)
    requires filter != "" && Planner.Clauses(filter) == [filter]
    requires forall g :: !Planner.PassesAll(lex, [filter], g)
    ensures Planner.FilterByName(Planner.NewPlanner(games), lex, Some(filter)).1 == []
  {
    var r := Planner.FilterByName(Planner.NewPlanner(games), lex, Some(filter));
    assert r.0.filterConditions == [filter];
    assert multiset(r.1) == multiset{};
  }

  // ---------------------------------------------------------------- by year

  /** The catalogue is listed oldest first, one game a year. */
  lemma ByYearInOrder()
    ensures Sorting.SortedBy(Sorting.GetComparator(YEAR, true), Catalogue)
    ensures forall x, y :: x in Catalogue && y in Catalogue && x != y ==> Sorting.Cmp(Sorting.GetComparator(YEAR, true), x, y) != 0
  {
    var o := Sorting.GetComparator(YEAR, true);
    forall i | 0 <= i < |Catalogue| - 1 ensures Sorting.Cmp(o, Catalogue[i], Catalogue[i + 1]) < 0 {
      assert Catalogue[i].yearPublished == 2000 + i && Catalogue[i + 1].yearPublished == 2001 + i;
    }
    Sorting.StrictNeighbours(o, Catalogue);
  }

  /** filter("", YEAR, true) on a new planner, for every iteration order of
      the sample set and whatever the parsers: all eight games, oldest
      first (Go, Go Fish, GoRami, golang, Tucano, 17 days, Chess,
      Monopoly). */
  lemma SortedByYear(lex: Planner.Lexicon, games: seq<BoardGame>)
    requires multiset(games) == multiset(Catalogue)
    ensures Planner.FilterSortedOn(Planner.NewPlanner(games), lex, Some(""), YEAR).1 == Catalogue
  {
    var r := Planner.FilterSortedOn(Planner.NewPlanner(games), lex, Some(""), YEAR);
    EmptyShowsAll(lex, games, YEAR, true);
    ByYearInOrder();
    Sorting.SortedUnique(Sorting.GetComparator(YEAR, true), Catalogue, r.1);
  }

  /** The empty expression on a new planner returns every game. */
  lemma EmptyShowsAll(lex: Planner.Lexicon, games: seq<BoardGame>, sortOn: GameData, ascending: bool)
    ensures multiset(Planner.Filter(Planner.NewPlanner(games), lex, Some(""), sortOn, ascending).1) == multiset(games)
  {
    assert Planner.Reset(Planner.NewPlanner(games)) == Planner.NewPlanner(games);
    Planner.ResetShowsAll(Planner.NewPlanner(games), lex, sortOn, ascending);
  }

  /** The catalogue newest first. */
  const NewestFirst: seq<BoardGame> := [Monopoly, Chess, Days17, Tucano, Golang, GoRami, GoFish, Go]

  lemma NewestFirstReversed()
    ensures NewestFirst == Reversed(Catalogue)
  {
  }

  lemma NewestFirstIsCatalogue()
    ensures multiset(NewestFirst) == multiset(Catalogue)
  {
    NewestFirstReversed();
    ReversedPermutation(Catalogue);
  }

  function Reversed(s: seq<BoardGame>): (r: seq<BoardGame>)
    ensures |r| == |s| && forall i :: 0 <= i < |s| ==> r[i] == s[|s| - 1 - i]
  {
    if |s| == 0 then [] else Reversed(s[1..]) + [s[0]]
  }

  lemma {:induction false} ReversedPermutation(s: seq<BoardGame>)
    ensures multiset(Reversed(s)) == multiset(s)
    decreases |s|
  {
    if |s| > 0 {
      ReversedPermutation(s[1..]);
      assert s == [s[0]] + s[1..];
    }
  }

  lemma NewestFirstInOrder()
    ensures Sorting.SortedBy(Sorting.GetComparator(YEAR, false), NewestFirst)
    ensures forall x, y :: x in NewestFirst && y in NewestFirst && x != y ==> Sorting.Cmp(Sorting.GetComparator(YEAR, false), x, y) != 0
  {
    var o := Sorting.GetComparator(YEAR, false);
    forall i | 0 <= i < |NewestFirst| - 1 ensures Sorting.Cmp(o, NewestFirst[i], NewestFirst[i + 1]) < 0 {
      assert NewestFirst[i].yearPublished == 2007 - i && NewestFirst[i + 1].yearPublished == 2006 - i;
    }
    Sorting.StrictNeighbours(o, NewestFirst);
  }

  /** filter("", YEAR, false): newest first. */
  lemma NewestFirstByYear(lex: Planner.Lexicon, games: seq<BoardGame>)
    requires multiset(games) == multiset(Catalogue)
    ensures Planner.Filter(Planner.NewPlanner(games), lex, Some(""), YEAR, false).1 == NewestFirst
  {
    var r := Planner.Filter(Planner.NewPlanner(games), lex, Some(""), YEAR, false);
    EmptyShowsAll(lex, games, YEAR, false);
    NewestFirstIsCatalogue();
    NewestFirstInOrder();
    Sorting.SortedUnique(Sorting.GetComparator(YEAR, false), NewestFirst, r.1);
  }

  /** filter("", YEAR, false) is the exact reverse of filter("", YEAR, true). */
  lemma SortedByYearDescending(lex: Planner.Lexicon, games: seq<BoardGame>)
    requires multiset(games) == multiset(Catalogue)
    ensures Planner.Filter(Planner.NewPlanner(games), lex, Some(""), YEAR, false).1 ==
      Reversed(Planner.FilterSortedOn(Planner.NewPlanner(games), lex, Some(""), YEAR).1)
  {
    NewestFirstByYear(lex, games);
    SortedByYear(lex, games);
    NewestFirstReversed();
  }

  // ---------------------------------------------------------------- stored clauses

  /** The planner keeps its clauses: after filter("name~=go"), the empty
      expression still returns the four "go" games, not the whole set;
      after reset it returns every game. */
  lemma ClausesPersist(lex: Planner.Lexicon, games: seq<BoardGame>)
    requires multiset(games) == multiset(Catalogue)
    requires lex.operatorFromStr("name~=go") == Some(CONTAINS)
    requires lex.columnFromString("name") == Some(NAME)
    ensures var p := Planner.FilterByName(Planner.NewPlanner(games), lex, Some("name~=go")).0;
      && Planner.FilterByName(p, lex, Some("")).1 == GoGames
      && multiset(Planner.FilterByName(Planner.Reset(p), lex, Some("")).1) == multiset(Catalogue)
  {
    var p := Planner.FilterByName(Planner.NewPlanner(games), lex, Some("name~=go")).0;
    NameContainsGo(lex, games);
    NameClauses();
    assert Planner.FilterByName(p, lex, Some("")) ==
      Planner.FilterByName(Planner.NewPlanner(games), lex, Some("name~=go"));
    Planner.ResetShowsAll(p, lex, NAME, true);
  }

  // ---------------------------------------------------------------- the game list

  /** addToList("1", filter("name~=go")) on an empty list: one game, Go. */
  lemma AddFirstGoGame(lex: Planner.Lexicon, games: seq<BoardGame>)
    requires multiset(games) == multiset(Catalogue)
    requires lex.operatorFromStr("name~=go") == Some(CONTAINS)
    requires lex.columnFromString("name") == Some(NAME)
    ensures var filtered := Planner.FilterByName(Planner.NewPlanner(games), lex, Some("name~=go")).1;
      var r := GameList.AddToList([], Some("1"), filtered);
      && r == GameList.Outcome([Go], None)
      && GameList.Count(r.selection) == 1
      && GameList.GetGameNames(r.selection) == ["Go"]
  {
    NameContainsGo(lex, games);
    AddFirst();
  }

  lemma AddFirst()
    ensures GameList.AddToList([], Some("1"), GoGames) == GameList.Outcome([Go], None)
    ensures GameList.GetGameNames([Go]) == ["Go"]
  {
    assert ToDecimal(1) == "1";
    GameList.AddIndex([], GoGames, 1);
    assert GameList.AddGame([], Go) == [Go];
    GoName();
  }

  lemma GoName()
    ensures GameList.GetGameNames([Go]) == ["Go"]
  {
    assert GameList.Names([Go]) == ["Go"];
  }
}
