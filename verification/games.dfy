/** The record, column and operator types of the planner: BoardGame,
    GameData and Operations. */
module Games {
  import opened JavaInteger

  /** The columns of the catalogue. ID is loaded but has no filter or sort
      case of its own. */
  datatype GameData =
    | NAME | ID | RATING | DIFFICULTY | RANK
    | MIN_PLAYERS | MAX_PLAYERS | MIN_TIME | MAX_TIME | YEAR

  /** The comparison operators of the filter language. */
  datatype Operations =
    | EQUALS | NOT_EQUALS | GREATER_THAN | LESS_THAN
    | GREATER_THAN_EQUALS | LESS_THAN_EQUALS | CONTAINS

  /** The textual token of each operator (Operations.getOperator): one or
      two visible characters, none of them whitespace. */
  function Token(op: Operations): (t: string)
    ensures 0 < |t| <= 2
    ensures forall k :: 0 <= k < |t| ==> ' ' < t[k] <= '~'
  {
    match op
    case EQUALS => "=="
    case NOT_EQUALS => "!="
    case GREATER_THAN => ">"
    case LESS_THAN => "<"
    case GREATER_THAN_EQUALS => ">="
    case LESS_THAN_EQUALS => "<="
    case CONTAINS => "~="
  }

  /** Different operators have different tokens. */
  lemma TokenInjective(a: Operations, b: Operations)
    ensures Token(a) == Token(b) ==> a == b
  {
  }

  /** One catalogued game. Rating and difficulty are Java doubles; they are
      modelled as reals, an ordered abstraction of the non-NaN doubles. */
  datatype BoardGame = BoardGame(
    name: string,
    id: Int32,
    minPlayers: Int32,
    maxPlayers: Int32,
    minPlayTime: Int32,
    maxPlayTime: Int32,
    difficulty: real,
    rank: Int32,
    rating: real,
    yearPublished: Int32)

  /** BoardGame.equals: two games are the same game when name and id agree,
      whatever their other attributes. */
  predicate SameGame(a: BoardGame, b: BoardGame)
  {
    a.name == b.name && a.id == b.id
  }

  /** List.contains under BoardGame.equals. */
  predicate Includes(games: seq<BoardGame>, g: BoardGame)
  {
    exists k :: 0 <= k < |games| && SameGame(games[k], g)
  }

  /** No two entries are the same game. */
  predicate Distinct(games: seq<BoardGame>)
  {
    forall i, j :: 0 <= i < j < |games| ==> !SameGame(games[i], games[j])
  }

  /** The games of `s` that satisfy `keep`, in order: Stream.filter, and
      List.removeIf with the negated predicate. */
  function Keep(s: seq<BoardGame>, keep: BoardGame -> bool): (r: seq<BoardGame>)
    ensures forall g :: g in r <==> g in s && keep(g)
    ensures forall g :: multiset(r)[g] == if keep(g) then multiset(s)[g] else 0
    ensures multiset(r) <= multiset(s)
    ensures r == s <==> forall g :: g in s ==> keep(g)
    ensures r == s || |r| < |s|
    ensures Distinct(s) ==> Distinct(r)
    decreases |s|
  {
    if |s| == 0 then []
    else
      var rest := Keep(s[1..], keep);
      var r := if keep(s[0]) then [s[0]] + rest else rest;
      KeepStep(s, keep, rest, r);
      r
  }

  lemma KeepStep(s: seq<BoardGame>, keep: BoardGame -> bool, rest: seq<BoardGame>, r: seq<BoardGame>)
    requires |s| > 0 && r == if keep(s[0]) then [s[0]] + rest else rest
    requires forall g :: g in rest <==> g in s[1..] && keep(g)
    requires forall g :: multiset(rest)[g] == if keep(g) then multiset(s[1..])[g] else 0
    requires multiset(rest) <= multiset(s[1..])
    requires rest == s[1..] <==> forall g :: g in s[1..] ==> keep(g)
    requires rest == s[1..] || |rest| < |s[1..]|
    requires Distinct(s[1..]) ==> Distinct(rest)
    ensures forall g :: g in r <==> g in s && keep(g)
    ensures forall g :: multiset(r)[g] == if keep(g) then multiset(s)[g] else 0
    ensures multiset(r) <= multiset(s)
    ensures r == s <==> forall g :: g in s ==> keep(g)
    ensures r == s || |r| < |s|
    ensures Distinct(s) ==> Distinct(r)
  {
    assert s == [s[0]] + s[1..];
    if keep(s[0]) {
      if Distinct(s) {
        DistinctCons(s, rest);
      }
    } else {
      assert s[0] in s;
      assert |rest| <= |s[1..]| by {
        assert |multiset(rest)| <= |multiset(s[1..])|;
      }
    }
  }

  /** Putting the head of a duplicate-free sequence in front of a
      duplicate-free selection of its tail keeps it duplicate-free. */
  lemma DistinctCons(s: seq<BoardGame>, rest: seq<BoardGame>)
    requires Distinct(s) && |s| > 0 && Distinct(rest)
    requires forall g :: g in rest ==> g in s[1..]
    ensures Distinct([s[0]] + rest)
  {
    var t := [s[0]] + rest;
    forall i, j | 0 <= i < j < |t| ensures !SameGame(t[i], t[j]) {
      if i == 0 {
        assert t[j] == rest[j - 1];
        assert rest[j - 1] in s[1..];
        var m :| 0 <= m < |s[1..]| && s[1..][m] == rest[j - 1];
        assert s[m + 1] == t[j];
      } else {
        assert t[i] == rest[i - 1] && t[j] == rest[j - 1];
      }
    }
  }

  /** The integer attribute behind each integer-valued column. */
  predicate IsIntColumn(col: GameData)
  {
    col in {RANK, MIN_PLAYERS, MAX_PLAYERS, MIN_TIME, MAX_TIME, YEAR}
  }

  function IntValue(g: BoardGame, col: GameData): Int32
    requires IsIntColumn(col)
  {
    match col
    case RANK => g.rank
    case MIN_PLAYERS => g.minPlayers
    case MAX_PLAYERS => g.maxPlayers
    case MIN_TIME => g.minPlayTime
    case MAX_TIME => g.maxPlayTime
    case YEAR => g.yearPublished
  }

  /** The double attribute behind each double-valued column. */
  predicate IsRealColumn(col: GameData)
  {
    col == RATING || col == DIFFICULTY
  }

  function RealValue(g: BoardGame, col: GameData): real
    requires IsRealColumn(col)
  {
    if col == RATING then g.rating else g.difficulty
  }
}
