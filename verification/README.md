# Board-game arena planner: query core in Dafny

This project models the query core of the board-game arena planner, a Java
program. The core has four parts:

- **Filter predicate** (`Filters`): decides whether one game satisfies one
  column/operator/value condition.
- **Planner** (`Planner`): splits a comma-separated filter expression into
  clauses and parses each clause. It stores the clauses, keeps only the games
  that satisfy every stored clause, and sorts the result.
- **Comparators** (`GameSorter.getComparator`, `Sorting.sortOn`): one
  comparator per column, reversed for descending order.
- **Game list** (`GameList`): a duplicate-free selection. Games are added or
  removed by the keyword `all`, by a 1-based index, by an `s-e` range, or by
  name ignoring case.

Every operation is a pure function over immutable values.

- The planner is a `PlannerState` value holding the games and the stored
  clauses. Each `Filter` call returns the next state together with the
  result.
- The game list is a sequence. `AddToList` and `RemoveFromList` return an
  `Outcome`: the new selection plus the `IllegalArgumentException` message
  they would raise, if any.
- Java streams are sequences.
- The planner's `Set<BoardGame>` is a sequence in an arbitrary iteration
  order. The sample lemmas hold for every arrangement of the sample set.

Module layout:

| module | file | contents |
|---|---|---|
| `Wrappers` | wrappers.dfy | `Option` |
| `JavaInteger` | java_integer.dfy | 32-bit range, `Integer.parseInt`, decimal text |
| `JavaString` | java_string.dfy | the `String` methods the core calls (ASCII), listed below |
| `Games` | games.dfy | `BoardGame`, `GameData`, `Operations`, game equality, `Keep` (stream filter) |
| `Filters` | filters.dfy | `Filters.java` |
| `GameSorter` | game_sorter.dfy | `GameSorter.java` |
| `Sorting` | sorting.dfy | `Sorting.java`, a stable insertion sort standing for `Stream.sorted`, and uniqueness of sorted permutations |
| `Planner` | planner.dfy | `Planner.java` |
| `GameList` | game_list.dfy | `GameList.java` |
| `Samples` | samples.dfy | the eight-game sample of `TestPlanner.java` and the results the planner gives on it |

The `String` methods in `JavaString` are `trim`, `toLowerCase`,
`equalsIgnoreCase`, `compareTo`, `compareToIgnoreCase`/`CASE_INSENSITIVE_ORDER`,
`indexOf`, `contains` and `split`.

Three collaborators are not part of this model. They become the fields of a
`Planner.Lexicon` value that clause parsing, filtering and the filter
calls take as a parameter (a new planner and `reset` do not need it):

- `Operations.getOperatorFromStr`;
- `GameData.fromString`;
- `Double.parseDouble`.

Each sample lemma states, as preconditions, the answers these collaborators
give on the sample clauses.

## Differences between the code and its tests

The model follows the code in each of these places.

- **Name order in the "name~=go" test.** `TestPlanner.java:44-47` expects
  Go, Go Fish, GoRami, golang. The comparator at `GameSorter.java:27` is
  `String.CASE_INSENSITIVE_ORDER`, under which "golang" precedes "GoRami"
  (`l` < `r`). `Samples.NameContainsGo` proves the order Go, Go Fish,
  golang, GoRami.
- **Stored clauses.** The comment at `TestPlanner.java:82-84` says `reset()`
  does nothing and that every `filter` call starts from the full list. In
  the code, clauses accumulate in `filterConditions` (`Planner.java:72-84`)
  until `reset()` clears them (`Planner.java:129-131`).
  `Samples.ClausesPersist` shows that after `filter("name~=go")`, a
  following `filter("")` still returns only the four "go" games. Only
  after `reset()` does it return all eight.

Three more behaviours of the code are proved as written:

- **Whitespace after an operator.** The pattern
  `"\\s" + op + "\\s*"` (`Planner.java:104`) removes whitespace after the
  operator only when whitespace also stands directly before it. For
  `minPlayers>= 6` the value stays `" 6"`. `Integer.parseInt` rejects that
  value, so `Samples.SpaceAfterOperator` shows the filter returns no game.
  Text values are trimmed by `filterString`, so only integer columns are
  affected.
- **Negative numbers.** In `addToList` and `removeFromList`, any input
  containing a dash is read as a range. So `-n` always fails with
  "Invalid number in range" (`GameList.NegativeNumber`).
- **Hyphenated names.** For the same reason, a name that contains a dash
  and does not start with a digit or sign can never be added or removed by
  name (`GameList.HyphenatedName`).

## Model

| member | source | states |
|---|---|---|
| JavaInteger.ParseInt | src/main/java/student/Filters.java:89 | `Integer.parseInt`: empty text has no value; a value means the text is one digit or a sign followed by at least one more character, and every character after the first is a digit; the sign of the value follows a leading `-` |
| JavaInteger.ParseIntDigits | src/main/java/student/Filters.java:89 | every non-empty digit string is accepted, bare or behind `+`, with its decimal value exactly when that value is at most 2147483647; behind `-` it is accepted with the negated value exactly when the value is at most 2147483648 |
| JavaInteger.LeadingZero | src/main/java/student/Filters.java:89 | a leading zero does not change the value of a digit string |
| JavaInteger.SixSpellings | src/main/java/student/Filters.java:89 | "6", "+6" and "06" all parse to 6 |
| JavaInteger.ParseIntToDecimal | src/main/java/student/Filters.java:89 | parsing the decimal text of any 32-bit integer gives that integer back |
| JavaInteger.DigitsRoundTrip | src/main/java/student/Filters.java:89 | the digits of a natural number read back as that number |
| JavaString.Trim | src/main/java/student/Filters.java:57-58 | `String.trim`: the result is no longer than the input and neither starts nor ends with a character at or below space |
| JavaString.TrimIs | src/main/java/student/Filters.java:57-58 | the trimmed text is exactly the slice between the leading and the trailing run of characters at or below space |
| JavaString.TrimIgnoresPadding | src/main/java/student/Filters.java:57-58 | surrounding blanks on either side do not change the trimmed text |
| JavaString.TrimIdempotent | src/main/java/student/Planner.java:76 | trimming twice is trimming once |
| JavaString.TrimToLower | src/main/java/student/Filters.java:65 | trimming and lower-casing commute |
| JavaString.ToLower | src/main/java/student/Filters.java:65 | `toLowerCase`: same length, each character lower-cased |
| JavaString.EqualsIgnoreCase | src/main/java/student/Filters.java:61 | `equalsIgnoreCase`: equal texts are equal ignoring case, and texts equal ignoring case have the same length |
| JavaString.EqualsIgnoreCaseIsLower | src/main/java/student/Filters.java:61 | `equalsIgnoreCase` holds exactly when the lower-cased texts are equal |
| JavaString.CompareTo | src/main/java/student/Sorting.java:19 | `String.compareTo`, as a sign: zero exactly on equal texts |
| JavaString.CompareToAntisymmetric | src/main/java/student/Sorting.java:19 | swapping the arguments negates the comparison |
| JavaString.CompareToTransitive | src/main/java/student/Sorting.java:19 | `<=` under `compareTo` is transitive |
| JavaString.CompareToFirstDifference | src/main/java/student/Sorting.java:19 | the first differing character decides the comparison |
| JavaString.CompareToPrefix | src/main/java/student/Sorting.java:19 | a proper prefix sorts first |
| JavaString.CompareIgnoreCase | src/main/java/student/GameSorter.java:27 | `compareToIgnoreCase` and `CASE_INSENSITIVE_ORDER`, as a sign: always the sign `compareTo` gives on the lower-cased texts |
| JavaString.CompareIgnoreCaseZero | src/main/java/student/Filters.java:67-73 | `compareToIgnoreCase` is zero exactly when `equalsIgnoreCase` holds |
| JavaString.IndexOf | src/main/java/student/GameList.java:80 | `indexOf`: the first position where the needle occurs, or none when it occurs nowhere |
| JavaString.Contains | src/main/java/student/Filters.java:65 | `contains` holds exactly when the needle occurs at some position |
| JavaString.Split | src/main/java/student/Planner.java:74 | `split` on a literal separator: no occurrence gives the whole text, otherwise the pieces with trailing empty pieces dropped |
| JavaString.JoinPieces | src/main/java/student/Planner.java:107 | joining the pieces with the separator restores the text |
| JavaString.PiecesFreeOfSeparator | src/main/java/student/Planner.java:107 | no piece contains the separator |
| JavaString.SplitOnce | src/main/java/student/Planner.java:107-109 | `a + sep + b` with no separator in either part splits into exactly `[a, b]` |
| Games.Token | src/main/java/student/Planner.java:104-107 | the token of an operator is one or two printable characters, none of them whitespace |
| Games.TokenInjective | src/main/java/student/Planner.java:104-107 | different operators have different tokens |
| Games.Keep | src/main/java/student/Planner.java:121-122 | `Stream.filter`: exactly the games satisfying the predicate, each as often as in the input; the input itself exactly when every game satisfies it |
| Filters.FilterString | src/main/java/student/Filters.java:56-75 | `filterString` compares the trimmed, lower-cased texts: `==` is equality, `!=` inequality, CONTAINS an occurrence at some position, and the four orderings the sign of `compareTo` |
| Filters.FilterInt | src/main/java/student/Filters.java:87-109 | an unparsable value and the CONTAINS operator never match |
| Filters.FilterDouble | src/main/java/student/Filters.java:119-141 | an unparsable value and the CONTAINS operator never match |
| Filters.Filter | src/main/java/student/Filters.java:22-45 | each integer column compares its own attribute with `filterInt`, each double column with `filterDouble`, NAME the name with `filterString`; ID never matches, and CONTAINS matches only on NAME |
| Filters.FilterIntUnparsable | src/main/java/student/Filters.java:87-89 | an unparsable value fails for every operator |
| Filters.FilterIntUntrimmed | src/main/java/student/Filters.java:89 | a value with leading or trailing whitespace fails for every operator, because `parseInt` does not trim |
| Filters.FilterIntInclusive | src/main/java/student/Filters.java:91-100 | `>=` is `>` or `==`; `<=` is `<` or `==` |
| Filters.FilterIntTrichotomy | src/main/java/student/Filters.java:95-100 | for a parsable value exactly one of `<`, `==`, `>` holds |
| Filters.FilterIntNotEquals | src/main/java/student/Filters.java:99-102 | for a parsable value `!=` is the negation of `==` |
| Filters.FilterIntSelf | src/main/java/student/Filters.java:89-102 | a game's integer equals its own decimal text, and is neither below nor above it |
| Filters.FilterStringComplements | src/main/java/student/Filters.java:60-73 | `!=` negates `==`; `<` negates `>=`; `>` negates `<=` |
| Filters.FilterStringTrichotomy | src/main/java/student/Filters.java:66-73 | exactly one of `<`, `==`, `>` holds between two texts |
| Filters.FilterStringContains | src/main/java/student/Filters.java:64-65 | CONTAINS holds exactly when the trimmed, lower-cased value occurs in the trimmed, lower-cased attribute |
| Filters.FilterStringIgnoresCase | src/main/java/student/Filters.java:56-73 | lower-casing either side changes no string comparison |
| Filters.FilterStringIgnoresPadding | src/main/java/student/Filters.java:57-58 | surrounding whitespace on either side changes no string comparison |
| Filters.FilterStringSelf | src/main/java/student/Filters.java:60-61 | a name equals itself and its lower-cased form |
| Filters.FilterSelf | src/main/java/student/Filters.java:22-45 | filtering NAME or an integer column with `==` and the game's own value matches the game |
| GameSorter.CompareReal | src/main/java/student/GameSorter.java:29-34 | the double comparator as a sign: non-positive exactly when the first is not greater, zero exactly on equal values |
| GameSorter.AscendingCompare | src/main/java/student/GameSorter.java:24-56 | the ascending comparator: NAME and ID give the sign of `compareTo` on the lower-cased names; integer and double columns are non-positive exactly when the first attribute is not greater, and zero exactly on equal attributes |
| GameSorter.Compare | src/main/java/student/GameSorter.java:22-58 | `getComparator(sortOn, ascending)`: the ascending comparator, or its negation when descending |
| GameSorter.AscendingAntisymmetric | src/main/java/student/GameSorter.java:22-56 | every ascending comparator is antisymmetric |
| GameSorter.DescendingReverses | src/main/java/student/GameSorter.java:57 | the descending comparator is the negated ascending one, i.e. the ascending one with arguments swapped |
| GameSorter.NameIgnoresCase | src/main/java/student/GameSorter.java:25-28 | two names compare equal exactly when they are equal ignoring case |
| GameSorter.CompareByKey | src/main/java/student/GameSorter.java:29-55 | integer and double columns compare by their key, ascending or descending; ID falls back to name order |
| GameSorter.CompareReflexive | src/main/java/student/GameSorter.java:22-58 | every game compares equal to itself |
| GameSorter.CompareAntisymmetric | src/main/java/student/GameSorter.java:22-58 | swapping the games negates the comparison, so any two games are comparable |
| GameSorter.CompareTransitive | src/main/java/student/GameSorter.java:22-58 | `<=` under every comparator is transitive: each is a total preorder |
| Sorting.SortOnAscending | src/main/java/student/Sorting.java:17-51 | the ascending comparator of `sortOn`, built on lower-cased names, has the same sign as `GameSorter`'s on every column |
| Sorting.SortOnCompare | src/main/java/student/Sorting.java:15-53 | the comparator of `sortOn` has the same sign as `getComparator` for every column and direction |
| Sorting.SortOnCompareIsKeyOrder | src/main/java/student/Sorting.java:17-51 | a comparison is non-positive exactly when the two games are in key order: lower-cased name for NAME and unlisted columns, the attribute otherwise, reversed when descending |
| Sorting.SortOn | src/main/java/student/Sorting.java:15-53 | the output is a permutation of the input stream, and every earlier game is in key order with every later one |
| Sorting.StableSort | src/main/java/student/Planner.java:87 | `Stream.sorted`: a permutation of the input, sorted by the comparator |
| Sorting.Among | src/main/java/student/Planner.java:87 | the elements satisfying a test, in order: exactly the input's elements that pass it |
| Sorting.StableSortStable | src/main/java/student/Planner.java:87 | `Stream.sorted` is stable: the elements that compare equal to any given game come out in their input order |
| Sorting.StableSortDistinct | src/main/java/student/Planner.java:87 | sorting keeps a duplicate-free sequence duplicate-free |
| Sorting.DistinctPermutation | src/main/java/student/Planner.java:87 | any permutation of a duplicate-free sequence is duplicate-free |
| Sorting.SortedUnique | src/main/java/student/Planner.java:87 | two sorted permutations of one sequence without ties are equal: the sorted result does not depend on the set's iteration order |
| Sorting.StrictNeighbours | src/main/java/student/Planner.java:87 | a sequence whose neighbours strictly increase is sorted and has no ties |
| Planner.NewPlanner | src/main/java/student/Planner.java:31-34 | a new planner holds the given games and no clauses |
| Planner.SquashOperator | src/main/java/student/Planner.java:104 | the squashed clause is never longer than the clause |
| Planner.SquashKeepsVisible | src/main/java/student/Planner.java:104 | squashing the whitespace around the operator changes nothing but whitespace |
| Planner.SquashUnchanged | src/main/java/student/Planner.java:104 | a clause with no whitespace directly before the operator token is left as it is |
| Planner.SquashSpaced | src/main/java/student/Planner.java:104 | `column + w + op + ws + value` with a whitespace character w and whitespace ws, no whitespace in column or value, squashes to `column + op + value` |
| Planner.ParseClause | src/main/java/student/Planner.java:97-119 | no operator gives no condition; a condition carries the operator found, and its value is non-empty and free of the operator's token |
| Planner.SpacedClause | src/main/java/student/Planner.java:97-119 | a clause written with whitespace around the operator, such as `name == go`, parses to its column, operator and value |
| Planner.Satisfies | src/main/java/student/Planner.java:97-122 | a clause that does not parse passes every game; a parsed clause on ID, or CONTAINS on a column other than NAME, passes none |
| Planner.PassesAll | src/main/java/student/Planner.java:81-84 | a game passes the clause list exactly when it passes each clause at each position; the empty list passes every game |
| Planner.Select | src/main/java/student/Planner.java:121-122 | one clause keeps exactly the games satisfying it, each as often as before |
| Planner.FilterSingle | src/main/java/student/Planner.java:97-123 | a clause without an operator leaves the stream unchanged; otherwise exactly the games satisfying the clause are kept |
| Planner.MalformedClauseIsNoOp | src/main/java/student/Planner.java:98-117 | no operator, a split into other than two parts, or an unknown column leaves the stream unchanged |
| Planner.SimpleClause | src/main/java/student/Planner.java:97-119 | `column + op + value` with no whitespace before the operator parses to that column, operator and value |
| Planner.ApplyAll | src/main/java/student/Planner.java:81-84 | applying the clauses in turn keeps exactly the games satisfying all of them, each as often as before |
| Planner.Clauses | src/main/java/student/Planner.java:74-77 | one trimmed clause per comma-separated piece of the expression |
| Planner.SingleClause | src/main/java/student/Planner.java:74-77 | an expression without a comma is one clause, its trimmed text |
| Planner.ClausesOfTwo | src/main/java/student/Planner.java:74-77 | `a,b` gives the two trimmed clauses |
| Planner.Filter | src/main/java/student/Planner.java:69-88 | a non-empty expression appends its clauses and an empty or missing one appends none; the result is exactly the original games satisfying every stored clause, each as often as in the set, duplicate-free when the set is, and sorted by `getComparator(sortOn, ascending)` |
| Planner.FilterByName | src/main/java/student/Planner.java:42-45 | `filter(f)` is `filter(f, NAME, true)` |
| Planner.FilterSortedOn | src/main/java/student/Planner.java:55-58 | `filter(f, s)` is `filter(f, s, true)` |
| Planner.Reset | src/main/java/student/Planner.java:128-131 | `reset` keeps the games and removes every stored clause |
| Planner.ResetShowsAll | src/main/java/student/Planner.java:128-131 | after `reset`, `filter("")` returns every game |
| Planner.Narrowing | src/main/java/student/Planner.java:72-84 | a second `filter` call returns a subset of the first one's result |
| Planner.EmptyFilterKeepsClauses | src/main/java/student/Planner.java:72 | an empty or missing expression leaves the planner's state unchanged |
| Planner.ConditionOrderIrrelevant | src/main/java/student/Planner.java:81-84 | two lists holding the same clauses select the same games |
| Planner.ConjunctionCommutes | src/main/java/student/Planner.java:72-84 | on a new planner, `a,b` and `b,a` select the same games |
| GameList.SortedByName | src/main/java/student/GameList.java:133-135 | the selection sorted by lower-cased name: a permutation of the selection |
| GameList.GetGameNames | src/main/java/student/GameList.java:24-31 | the names of the selection, each once per game, in case-insensitive ascending order |
| GameList.Count | src/main/java/student/GameList.java:38-41 | the selection's size |
| GameList.Clear | src/main/java/student/GameList.java:33-36 | after `clear` the count is zero |
| GameList.AddGame | src/main/java/student/GameList.java:190-195 | the game is afterwards included; it is appended only when not already present, so a duplicate-free selection stays duplicate-free |
| GameList.AddGames | src/main/java/student/GameList.java:73-75 | every given game is afterwards included, only given games are appended, and no duplicate is introduced |
| GameList.Named | src/main/java/student/GameList.java:114-115 | exactly the games whose name equals the input ignoring case |
| GameList.Interpret | src/main/java/student/GameList.java:80-110 | how the input is read: a span and an index are within bounds; a name is input with no dash and no number; a rejected input with a dash fails with one of the three range messages, and one without a dash with "Index out of bounds" |
| GameList.AddToList | src/main/java/student/GameList.java:63-124 | an error leaves the selection unchanged; the old selection is a prefix of the new one; only filtered games are appended; no duplicate is introduced; empty input fails with "Input is empty" |
| GameList.InterpretRange | src/main/java/student/GameList.java:80-90 | the text `s-e` is a span exactly when 1 ≤ s ≤ e ≤ size, and is "Range out of bounds" otherwise |
| GameList.InterpretIndex | src/main/java/student/GameList.java:101-105 | the text of i is a position exactly when 1 ≤ i ≤ size, and is "Index out of bounds" otherwise |
| GameList.InterpretNegative | src/main/java/student/GameList.java:80-96 | a negative number is read as a range with an empty start: "Invalid number in range" |
| GameList.InterpretHyphenated | src/main/java/student/GameList.java:80-96 | text with a dash that does not start with a digit or sign is always a range error |
| GameList.AddAll | src/main/java/student/GameList.java:72-77 | "all", in any case, adds every filtered game without error |
| GameList.AddRange | src/main/java/student/GameList.java:80-98 | `s-e` within bounds adds filtered games s to e and nothing else; out of bounds it fails with the selection unchanged |
| GameList.AddIndex | src/main/java/student/GameList.java:101-107 | i within bounds adds filtered game i; otherwise it fails with "Index out of bounds" and the selection unchanged |
| GameList.AddByName | src/main/java/student/GameList.java:113-123 | a name adds every filtered game with that name ignoring case and only such games; it fails exactly when there is none, with "No game found with name" |
| GameList.NegativeNumber | src/main/java/student/GameList.java:80-96 | adding or removing `-n` always fails with "Invalid number in range" |
| GameList.HyphenatedName | src/main/java/student/GameList.java:80-96 | a name containing a dash and not starting with a digit or sign can never be added or removed by name: it always fails as a range |
| GameList.RemoveAll | src/main/java/student/GameList.java:163 | `List.removeAll`: exactly the games not the same game as one to remove |
| GameList.RemoveFirst | src/main/java/student/GameList.java:177 | `List.remove`: when the game is present, exactly the first entry equal to it is removed: the entries before it stay, the entries after it move up one place, and the multiset loses that entry alone; otherwise nothing changes |
| GameList.RemoveNamed | src/main/java/student/GameList.java:184 | `removeIf`: exactly the games whose name differs ignoring case; nothing is removed exactly when no name matches |
| GameList.RemoveFromList | src/main/java/student/GameList.java:126-188 | an error leaves the selection unchanged; nothing is ever added; no duplicate is introduced; empty input fails with "Input is empty" |
| GameList.RemoveAllGames | src/main/java/student/GameList.java:138-141 | "all", in any case, clears the selection |
| GameList.RemoveRange | src/main/java/student/GameList.java:144-168 | `s-e` within bounds removes exactly the games at positions s to e of the name-sorted selection; out of bounds it fails with the selection unchanged |
| GameList.RemoveIndex | src/main/java/student/GameList.java:171-181 | i within bounds removes exactly the game at position i of the name-sorted selection; otherwise it fails with "Index out of bounds" |
| GameList.RemoveByName | src/main/java/student/GameList.java:183-187 | a name removes exactly the games with that name ignoring case, and fails with the selection unchanged exactly when there is none |
| Samples.NameContainsGo | src/test/java/TestPlanner.java:38-48 | `filter("name~=go")` on a new planner over any arrangement of the sample set returns Go, Go Fish, golang, GoRami |
| Samples.AtLeastSixPlayers | src/test/java/TestPlanner.java:52-61 | `filter("minPlayers>=6")` returns GoRami, Monopoly, Tucano |
| Samples.SpaceAfterOperator | src/main/java/student/Planner.java:104-119 | `filter("minPlayers>= 6")` returns no game: the value keeps its leading space and `parseInt` rejects it |
| Samples.SortedByYear | src/test/java/TestPlanner.java:65-80 | `filter("", YEAR, true)` returns the eight games oldest first, 2000 to 2007 |
| Samples.SortedByYearDescending | src/main/java/student/GameSorter.java:57 | `filter("", YEAR, false)` is the ascending result reversed |
| Samples.ReversedPermutation | src/main/java/student/GameSorter.java:57 | reversing a sequence keeps its elements |
| Samples.ClausesPersist | src/main/java/student/Planner.java:72-84 | after `filter("name~=go")`, `filter("")` still returns the four "go" games; after `reset`, all eight |
| Samples.AddFirstGoGame | src/test/java/TestPlanner.java:131-145 | `addToList("1", filter("name~=go"))` on an empty list selects Go alone: count 1, names ["Go"] |

## Left out

- `GamesLoader` is not part of this model. It reads a resource file and parses doubles.
- `GameList.saveGame` is not modelled because it writes files.
- The `GameList()` constructor has no member of its own. A new list is the empty sequence.
- `BoardGame.toStringWithInfo` is not modelled because it only formats text for display.
- Doubles: rating and difficulty are `real`, a totally ordered stand-in for non-NaN doubles. `Double.parseDouble` is the `parseDouble` field of `Planner.Lexicon`, a parameter.
- `Operations.getOperatorFromStr` and `GameData.fromString` are not part of this model. They are the `operatorFromStr` and `columnFromString` fields of `Planner.Lexicon`, parameters about which nothing is assumed except in the sample lemmas.
- Regular expressions: `replaceAll("\\s" + op + "\\s*", op)` and `split(op)` are modelled as literal scans. None of the operator tokens contains a regular-expression metacharacter. Whitespace is the ASCII class `\s`.
- Games.Token: `Operations` is not part of this model. The tokens are taken to be `==`, `!=`, `>`, `<`, `>=`, `<=` and `~=`, and the literal-scan reading of the regular expressions above depends on that.
- GameList.ADD_ALL: `IGameList` is not part of this model. Its `ADD_ALL` keyword is taken to be `all`.
- JavaInteger.ParseInt: only the ASCII digits `0` to `9` are accepted. `Integer.parseInt` also accepts the other Unicode decimal digits (through `Character.digit`), so `filterInt` and the game list's numeric input differ from the code on such text.
- Unicode: case mapping is ASCII only, and `compareTo` compares characters by code point. UTF-16 surrogate pairs are not modelled.
- Comparators return only the sign of the Java result (-1, 0 or 1). Callers in the core only test the sign.
- Stream laziness is not modelled. Streams are sequences, and a stream consumed twice is not modelled.
- `Stream.sorted` is modelled as a stable insertion sort. Its contract is: sorted, a permutation, and stable (`Sorting.StableSortStable`).
- `HashSet` iteration order is not modelled. The planner's games are a sequence in an arbitrary order, and the sample lemmas hold for every order.
- Exceptions: `IllegalArgumentException` messages are `GameList.ListError` values. An error leaves the selection as it was, which is what the Java code does because it throws before mutating.
- The "No games to remove in range" branch (GameList.java:160-162) has no counterpart. Once the bounds check has passed, the list of games to remove always holds at least one game, so the branch cannot be reached.
- GameList.RemoveIndex: stated for duplicate-free selections only, the invariant `addGame` maintains. For a selection with duplicates, `List.remove` removes only the first equal entry, so the removed game may still be present.
