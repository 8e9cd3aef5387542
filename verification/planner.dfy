/** The query pipeline: Planner.filter (three overloads), filterSingle and
    reset. The Java object's state, the original games and the list of
    stored clauses, is a PlannerState value threaded through the calls. */
module Planner {
  import opened Wrappers
  import opened JavaString
  import opened Games
  import Filters
  import Sorting

  /** The collaborators the planner calls but that are not part of this
      model: Operations.getOperatorFromStr, GameData.fromString and
      Double.parseDouble. Each is a partial function; None stands for null
      or for the exception the caller catches. */
  datatype Lexicon = Lexicon(
    operatorFromStr: string -> Option<Operations>,
    columnFromString: string -> Option<GameData>,
    parseDouble: string -> Option<real>)

  /** A parsed clause: column, operator and the raw value text. */
  datatype Condition = Condition(column: GameData, op: Operations, value: string)

  /** The planner's fields: the games it was built from (the iteration order
      of the Java set) and every clause stored since the last reset. */
  datatype PlannerState = PlannerState(games: seq<BoardGame>, filterConditions: seq<string>)

  /** new Planner(games). */
  function NewPlanner(games: seq<BoardGame>): (p: PlannerState)
    ensures p.games == games && |p.filterConditions| == 0
  {
    PlannerState(games, [])
  }

  // ---------------------------------------------------------------- clause text

  /** Java's regular-expression class \s: space, tab, line feed, vertical
      tab, form feed, carriage return. */
  predicate RegexSpace(c: char)
  {
    c == ' ' || '\t' <= c <= '\r'
  }

  function SkipSpaces(s: string): (r: string)
    ensures |r| <= |s| && r == s[|s| - |r|..]
    ensures forall k :: 0 <= k < |s| - |r| ==> RegexSpace(s[k])
    ensures |r| > 0 ==> !RegexSpace(r[0])
  {
    if |s| > 0 && RegexSpace(s[0]) then SkipSpaces(s[1..]) else s
  }

  /** clause.replaceAll("\\s" + tok + "\\s*", tok) for a token without
      regular-expression metacharacters: scanning left to right, one
      whitespace character followed by the token and any further whitespace
      is replaced by the token alone. */
  function SquashOperator(s: string, tok: string): (r: string)
    requires |tok| > 0
    ensures |r| <= |s|
    decreases |s|
  {
    if |s| == 0 then ""
    else if RegexSpace(s[0]) && OccursAt(s, tok, 1) then
      tok + SquashOperator(SkipSpaces(s[1 + |tok|..]), tok)
    else
      [s[0]] + SquashOperator(s[1..], tok)
  }

  /** The characters of s that are not whitespace. */
  function Visible(s: string): (r: string)
    ensures |r| <= |s|
  {
    if |s| == 0 then ""
    else (if RegexSpace(s[0]) then "" else [s[0]]) + Visible(s[1..])
  }

  lemma VisibleAppend(a: string, b: string)
    ensures Visible(a + b) == Visible(a) + Visible(b)
    decreases |a|
  {
    if |a| == 0 {
      assert a + b == b;
    } else {
      var ab := a + b;
      assert ab[0] == a[0];
      assert ab[1..] == a[1..] + b;
      VisibleAppend(a[1..], b);
      var h := if RegexSpace(a[0]) then "" else [a[0]];
      calc {
        Visible(ab);
        h + Visible(ab[1..]);
        h + (Visible(a[1..]) + Visible(b));
        (h + Visible(a[1..])) + Visible(b);
        Visible(a) + Visible(b);
      }
    }
  }

  predicate NoSpaces(s: string)
  {
    forall k :: 0 <= k < |s| ==> !RegexSpace(s[k])
  }

  lemma {:induction false} VisibleNoSpaces(s: string)
    requires NoSpaces(s)
    ensures Visible(s) == s
    decreases |s|
  {
    if |s| > 0 {
      VisibleNoSpaces(s[1..]);
      assert s == [s[0]] + s[1..];
    }
  }

  lemma {:induction false} VisibleSkipSpaces(s: string)
    ensures Visible(SkipSpaces(s)) == Visible(s)
    decreases |s|
  {
    if |s| > 0 && RegexSpace(s[0]) {
      VisibleSkipSpaces(s[1..]);
    }
  }

  lemma SquashStepVisible(s: string, tok: string)
    requires |tok| > 0 && NoSpaces(tok)
    requires |s| > 0 && RegexSpace(s[0]) && OccursAt(s, tok, 1)
    requires Visible(SquashOperator(SkipSpaces(s[1 + |tok|..]), tok)) == Visible(SkipSpaces(s[1 + |tok|..]))
    ensures Visible(SquashOperator(s, tok)) == Visible(s)
  {
    var rest := s[1 + |tok|..];
    var tail := SquashOperator(SkipSpaces(rest), tok);
    assert SquashOperator(s, tok) == tok + tail;
    VisibleAppend(tok, tail);
    VisibleNoSpaces(tok);
    VisibleSkipSpaces(rest);
    SpaceThenToken(s, tok);
  }

  /** A whitespace character, the token, then the rest: what is visible is
      the token and the visible rest. */
  lemma SpaceThenToken(s: string, tok: string)
    requires NoSpaces(tok)
    requires |s| > 0 && RegexSpace(s[0]) && OccursAt(s, tok, 1)
    ensures Visible(s) == tok + Visible(s[1 + |tok|..])
  {
    var rest := s[1 + |tok|..];
    assert s[1..] == tok + rest by {
      assert s[1..1 + |tok|] == tok;
      assert s[1..] == s[1..1 + |tok|] + s[1 + |tok|..];
    }
    assert Visible(s) == Visible(s[1..]);
    VisibleAppend(tok, rest);
    VisibleNoSpaces(tok);
  }

  lemma SquashCopyVisible(s: string, tok: string)
    requires |tok| > 0
    requires |s| > 0 && !(RegexSpace(s[0]) && OccursAt(s, tok, 1))
    requires Visible(SquashOperator(s[1..], tok)) == Visible(s[1..])
    ensures Visible(SquashOperator(s, tok)) == Visible(s)
  {
    assert s == [s[0]] + s[1..];
    assert SquashOperator(s, tok) == [s[0]] + SquashOperator(s[1..], tok);
    VisibleAppend([s[0]], SquashOperator(s[1..], tok));
    VisibleAppend([s[0]], s[1..]);
  }

  /** Squashing only ever deletes whitespace: the visible characters are
      unchanged (for a token with no whitespace in it). */
  lemma {:induction false} SquashKeepsVisible(s: string, tok: string)
    requires |tok| > 0 && NoSpaces(tok)
    ensures Visible(SquashOperator(s, tok)) == Visible(s)
    decreases |s|
  {
    if |s| == 0 {
    } else if RegexSpace(s[0]) && OccursAt(s, tok, 1) {
      SquashKeepsVisible(SkipSpaces(s[1 + |tok|..]), tok);
      SquashStepVisible(s, tok);
    } else {
      SquashKeepsVisible(s[1..], tok);
      SquashCopyVisible(s, tok);
    }
  }

  /** No whitespace character stands directly in front of the token. */
  predicate NoSpaceBefore(s: string, tok: string)
  {
    forall k :: 0 <= k < |s| && RegexSpace(s[k]) ==> !OccursAt(s, tok, k + 1)
  }

  /** Where the pattern matches nowhere the clause is left as it is:
      whitespace after the token, or anywhere else, is kept. */
  lemma {:induction false} SquashUnchanged(s: string, tok: string)
    requires |tok| > 0 && NoSpaceBefore(s, tok)
    ensures SquashOperator(s, tok) == s
    decreases |s|
  {
    if |s| > 0 {
      NoSpaceBeforeTail(s, tok);
      SquashUnchanged(s[1..], tok);
      assert !(RegexSpace(s[0]) && OccursAt(s, tok, 1));
      assert s == [s[0]] + s[1..];
    }
  }

  lemma NoSpaceBeforeTail(s: string, tok: string)
    requires |s| > 0 && NoSpaceBefore(s, tok)
    ensures NoSpaceBefore(s[1..], tok)
  {
    OccursShift(s, tok);
    forall k | 0 <= k < |s| - 1 && RegexSpace(s[1..][k]) ensures !OccursAt(s[1..], tok, k + 1) {
      assert s[1..][k] == s[k + 1];
    }
  }

  /** Planner.filterSingle's parsing: find the operator, squash whitespace in
      front of it, split on it, and resolve the column. Any failure is None,
      which makes the clause a no-op. A parsed condition carries the operator
      that was found, and its value is the non-empty text after the token,
      in which the token does not occur again. */
  function ParseClause(lex: Lexicon, clause: string): (r: Option<Condition>)
    ensures lex.operatorFromStr(clause).None? ==> r.None?
    ensures r.Some? ==> lex.operatorFromStr(clause) == Some(r.value.op)
    ensures r.Some? ==> r.value.value != "" && !Contains(r.value.value, Token(r.value.op))
  {
    match lex.operatorFromStr(clause)
    case None => None
    case Some(op) =>
      var squashed := SquashOperator(clause, Token(op));
      var parts := Split(squashed, Token(op));
      PiecesFreeOfSeparator(squashed, Token(op));
      if |parts| != 2 then None
      else
        match lex.columnFromString(parts[0])
        case None => None
        case Some(column) => Some(Condition(column, op, parts[1]))
  }

  /** Whether a game passes one stored clause. A clause that does not parse
      passes every game; a parsed clause on ID, or CONTAINS on any column
      but NAME, passes none. */
  predicate Satisfies(lex: Lexicon, clause: string, g: BoardGame): (r: bool)
    ensures ParseClause(lex, clause).None? ==> r
    ensures lex.operatorFromStr(clause).None? ==> r
    ensures ParseClause(lex, clause).Some? ==>
      var c := ParseClause(lex, clause).value;
      c.column == ID || (c.op == CONTAINS && c.column != NAME) ==> !r
  {
    match ParseClause(lex, clause)
    case None => true
    case Some(c) => Filters.Filter(g, c.column, c.op, c.value, lex.parseDouble)
  }

  /** Whether a game passes every clause of a list, in whatever order. */
  predicate PassesAll(lex: Lexicon, conditions: seq<string>, g: BoardGame): (r: bool)
    ensures r <==> forall k :: 0 <= k < |conditions| ==> Satisfies(lex, conditions[k], g)
    ensures |conditions| == 0 ==> r
  {
    forall c :: c in conditions ==> Satisfies(lex, c, g)
  }

  // ---------------------------------------------------------------- filtering

  /** Stream.filter with one clause, keeping the order of the stream. */
  function Select(lex: Lexicon, clause: string, s: seq<BoardGame>): (r: seq<BoardGame>)
    ensures forall g :: g in r <==> g in s && Satisfies(lex, clause, g)
    ensures forall g :: multiset(r)[g] == if Satisfies(lex, clause, g) then multiset(s)[g] else 0
    ensures multiset(r) <= multiset(s)
    ensures Distinct(s) ==> Distinct(r)
  {
    Keep(s, (g: BoardGame) => Satisfies(lex, clause, g))
  }

  /** Planner.filterSingle. */
  function FilterSingle(lex: Lexicon, clause: string, s: seq<BoardGame>): (r: seq<BoardGame>)
    ensures ParseClause(lex, clause).None? ==> r == s
    ensures forall g :: g in r <==> g in s && Satisfies(lex, clause, g)
    ensures forall g :: multiset(r)[g] == if Satisfies(lex, clause, g) then multiset(s)[g] else 0
    ensures multiset(r) <= multiset(s)
    ensures Distinct(s) ==> Distinct(r)
  {
    match ParseClause(lex, clause)
    case None => s
    case Some(_) => Select(lex, clause, s)
  }

  /** Apply every stored clause in turn. */
  function ApplyAll(lex: Lexicon, conditions: seq<string>, s: seq<BoardGame>): (r: seq<BoardGame>)
    ensures forall g :: g in r <==> g in s && PassesAll(lex, conditions, g)
    ensures forall g :: multiset(r)[g] == if PassesAll(lex, conditions, g) then multiset(s)[g] else 0
    ensures multiset(r) <= multiset(s)
    ensures Distinct(s) ==> Distinct(r)
    decreases |conditions|
  {
    if |conditions| == 0 then s
    else
      var t := FilterSingle(lex, conditions[0], s);
      var r := ApplyAll(lex, conditions[1..], t);
      ApplyAllStep(lex, conditions, s, t, r);
      r
  }

  /** One clause, then the rest: the facts about both steps compose into
      the facts about the whole list. */
  lemma ApplyAllStep(lex: Lexicon, conditions: seq<string>, s: seq<BoardGame>, t: seq<BoardGame>, r: seq<BoardGame>)
    requires |conditions| > 0
    requires forall g :: g in t <==> g in s && Satisfies(lex, conditions[0], g)
    requires forall g :: multiset(t)[g] == if Satisfies(lex, conditions[0], g) then multiset(s)[g] else 0
    requires forall g :: g in r <==> g in t && PassesAll(lex, conditions[1..], g)
    requires forall g :: multiset(r)[g] == if PassesAll(lex, conditions[1..], g) then multiset(t)[g] else 0
    ensures forall g :: g in r <==> g in s && PassesAll(lex, conditions, g)
    ensures forall g :: multiset(r)[g] == if PassesAll(lex, conditions, g) then multiset(s)[g] else 0
  {
    forall g ensures PassesAll(lex, conditions, g) <==> Satisfies(lex, conditions[0], g) && PassesAll(lex, conditions[1..], g) {
      assert conditions == [conditions[0]] + conditions[1..];
    }
  }

  /** The clauses of a filter expression: split at commas, each trimmed. */
  function Clauses(filter: string): (r: seq<string>)
    ensures |r| == |Split(filter, ",")|
    ensures forall k :: 0 <= k < |r| ==> r[k] == Trim(Split(filter, ",")[k])
    ensures forall k :: 0 <= k < |r| ==> Trim(r[k]) == r[k]
  {
    var parts := Split(filter, ",");
    var r := seq(|parts|, k requires 0 <= k < |parts| => Trim(parts[k]));
    assert forall k :: 0 <= k < |r| ==> Trim(r[k]) == r[k] by {
      forall k | 0 <= k < |r| ensures Trim(r[k]) == r[k] { TrimIdempotent(parts[k]); }
    }
    r
  }

  /** Planner.filter(filter, sortOn, ascending): store the new clauses (a
      null or empty expression stores none), apply every stored clause to
      the original games, and sort with GameSorter.getComparator. */
  function Filter(p: PlannerState, lex: Lexicon, filter: Option<string>, sortOn: GameData, ascending: bool)
    : (r: (PlannerState, seq<BoardGame>))
    ensures r.0.games == p.games
    ensures filter.None? || filter.value == "" ==> r.0.filterConditions == p.filterConditions
    ensures filter.Some? && filter.value != "" ==>
      r.0.filterConditions == p.filterConditions + Clauses(filter.value)
    ensures forall g :: g in r.1 <==> g in p.games && PassesAll(lex, r.0.filterConditions, g)
    ensures forall g :: multiset(r.1)[g] == if PassesAll(lex, r.0.filterConditions, g) then multiset(p.games)[g] else 0
    ensures multiset(r.1) <= multiset(p.games)
    ensures Distinct(p.games) ==> Distinct(r.1)
    ensures Sorting.SortedBy(Sorting.GetComparator(sortOn, ascending), r.1)
  {
    var conditions :=
      if filter.Some? && filter.value != "" then p.filterConditions + Clauses(filter.value)
      else p.filterConditions;
    var selected := ApplyAll(lex, conditions, p.games);
    var sorted := Sorting.StableSort(Sorting.GetComparator(sortOn, ascending), selected);
    assert forall g :: g in sorted <==> g in selected by {
      forall g ensures g in sorted <==> g in selected {
        assert g in sorted <==> g in multiset(sorted);
        assert g in selected <==> g in multiset(selected);
      }
    }
    assert Distinct(selected) ==> Distinct(sorted) by {
      if Distinct(selected) { Sorting.StableSortDistinct(Sorting.GetComparator(sortOn, ascending), selected); }
    }
    (PlannerState(p.games, conditions), sorted)
  }

  /** Planner.filter(filter): sorted by name, ascending. */
  function FilterByName(p: PlannerState, lex: Lexicon, filter: Option<string>): (r: (PlannerState, seq<BoardGame>))
    ensures r == Filter(p, lex, filter, NAME, true)
    ensures Sorting.SortedBy(Sorting.GetComparator(NAME, true), r.1)
  {
    Filter(p, lex, filter, NAME, true)
  }

  /** Planner.filter(filter, sortOn): ascending. */
  function FilterSortedOn(p: PlannerState, lex: Lexicon, filter: Option<string>, sortOn: GameData)
    : (r: (PlannerState, seq<BoardGame>))
    ensures r == Filter(p, lex, filter, sortOn, true)
    ensures Sorting.SortedBy(Sorting.GetComparator(sortOn, true), r.1)
  {
    Filter(p, lex, filter, sortOn, true)
  }

  /** Planner.reset: forget every stored clause. */
  function Reset(p: PlannerState): (r: PlannerState)
    ensures r.games == p.games && |r.filterConditions| == 0
  {
    PlannerState(p.games, [])
  }

  // ---------------------------------------------------------------- properties

  /** A clause is a no-op when it has no operator, when it does not split
      into exactly two parts at the operator, or when its column is unknown. */
  lemma MalformedClauseIsNoOp(lex: Lexicon, clause: string, s: seq<BoardGame>)
    ensures lex.operatorFromStr(clause).None? ==> FilterSingle(lex, clause, s) == s
    ensures lex.operatorFromStr(clause).Some? ==>
      var tok := Token(lex.operatorFromStr(clause).value);
      var parts := Split(SquashOperator(clause, tok), tok);
      (|parts| != 2 || lex.columnFromString(parts[0]).None?) ==> FilterSingle(lex, clause, s) == s
  {
  }

  /** An expression without a comma is a single clause, trimmed. */
  lemma SingleClause(filter: string)
    requires ',' !in filter
    ensures Clauses(filter) == [Trim(filter)]
  {
    IndexOfAbsent(filter, ",");
  }

  /** A clause with the operator's token once between a known column and a
      non-empty value, and no whitespace directly in front of the token,
      parses into those three parts; the value keeps any whitespace. */
  lemma SimpleClause(lex: Lexicon, column: string, op: Operations, value: string, c: GameData)
    requires lex.operatorFromStr(column + Token(op) + value) == Some(op)
    requires NoSpaceBefore(column + Token(op) + value, Token(op))
    requires Token(op)[0] !in column && !Contains(value, Token(op)) && value != ""
    requires lex.columnFromString(column) == Some(c)
    ensures ParseClause(lex, column + Token(op) + value) == Some(Condition(c, op, value))
  {
    SquashUnchanged(column + Token(op) + value, Token(op));
    SplitOnce(column, Token(op), value);
  }

  /** The clause a user writes with whitespace around the operator,
      "name == go": one whitespace character and the token are replaced by
      the token, and the whitespace after it is dropped. */
  lemma SquashSpaced(column: string, w: char, ws: string, op: Operations, value: string)
    requires NoSpaces(column) && RegexSpace(w) && NoSpaces(value) && value != ""
    requires forall k :: 0 <= k < |ws| ==> RegexSpace(ws[k])
    ensures SquashOperator(column + [w] + Token(op) + ws + value, Token(op)) == column + Token(op) + value
  {
    SquashSpacedToken(column, w, ws, Token(op), value);
  }

  lemma SquashSpacedToken(column: string, w: char, ws: string, tok: string, value: string)
    requires |tok| > 0 && NoSpaces(column) && RegexSpace(w) && NoSpaces(value) && value != ""
    requires forall k :: 0 <= k < |ws| ==> RegexSpace(ws[k])
    ensures SquashOperator(column + [w] + tok + ws + value, tok) == column + tok + value
  {
    var spaced := [w] + tok + ws + value;
    Regroup(column, [w], tok, ws, value);
    SquashCopies(column, spaced, tok);
    SquashAtSpace(w, tok, ws, value);
    Regroup3(column, tok, value);
  }

  lemma Regroup3(a: string, b: string, c: string)
    ensures a + (b + c) == a + b + c
  {
  }

  lemma Regroup(a: string, b: string, c: string, d: string, e: string)
    ensures a + b + c + d + e == a + (b + c + d + e)
  {
    assert a + b + c + d + e == a + (b + c + d) + e;
  }

  /** The squash step itself: whitespace, the token, whitespace, then text
      that starts with no whitespace and contains none. */
  lemma SquashAtSpace(w: char, tok: string, ws: string, value: string)
    requires |tok| > 0 && RegexSpace(w) && NoSpaces(value) && value != ""
    requires forall k :: 0 <= k < |ws| ==> RegexSpace(ws[k])
    ensures SquashOperator([w] + tok + ws + value, tok) == tok + value
  {
    var head, tail := [w] + tok, ws + value;
    var t := head + tail;
    assert [w] + tok + ws + value == t;
    assert t[1..1 + |tok|] == head[1..] == tok;
    assert t[1 + |tok|..] == tail;
    SquashReplaceStep(t, tok);
    SkipLeadingSpaces(ws, value);
    assert NoSpaceBefore(value, tok);
    SquashUnchanged(value, tok);
  }

  lemma SquashReplaceStep(s: string, tok: string)
    requires |tok| > 0 && |s| > 0 && RegexSpace(s[0]) && OccursAt(s, tok, 1)
    ensures SquashOperator(s, tok) == tok + SquashOperator(SkipSpaces(s[1 + |tok|..]), tok)
  {
  }

  lemma SquashCopyStep(s: string, tok: string)
    requires |tok| > 0 && |s| > 0 && !RegexSpace(s[0])
    ensures SquashOperator(s, tok) == [s[0]] + SquashOperator(s[1..], tok)
  {
  }

  /** Text without whitespace is copied as it is. */
  lemma {:induction false} SquashCopies(p: string, rest: string, tok: string)
    requires |tok| > 0 && NoSpaces(p)
    ensures SquashOperator(p + rest, tok) == p + SquashOperator(rest, tok)
    decreases |p|
  {
    if |p| == 0 {
      assert p + rest == rest;
    } else {
      var s := p + rest;
      assert s[0] == p[0] && s[1..] == p[1..] + rest;
      SquashCopyStep(s, tok);
      SquashCopies(p[1..], rest, tok);
      assert [p[0]] + (p[1..] + SquashOperator(rest, tok)) == p + SquashOperator(rest, tok) by {
        assert [p[0]] + p[1..] == p;
      }
    }
  }

  lemma {:induction false} SkipLeadingSpaces(ws: string, value: string)
    requires forall k :: 0 <= k < |ws| ==> RegexSpace(ws[k])
    requires value != "" && !RegexSpace(value[0])
    ensures SkipSpaces(ws + value) == value
    decreases |ws|
  {
    var s := ws + value;
    if |ws| == 0 {
      assert s == value;
    } else {
      assert s[0] == ws[0] && s[1..] == ws[1..] + value;
      SkipLeadingSpaces(ws[1..], value);
    }
  }

  /** The spaced clause parses into its column, operator and value. */
  lemma SpacedClause(lex: Lexicon, column: string, w: char, ws: string, op: Operations, value: string, c: GameData)
    requires lex.operatorFromStr(column + [w] + Token(op) + ws + value) == Some(op)
    requires lex.columnFromString(column) == Some(c)
    requires NoSpaces(column) && Token(op)[0] !in column && RegexSpace(w)
    requires forall k :: 0 <= k < |ws| ==> RegexSpace(ws[k])
    requires NoSpaces(value) && value != "" && !Contains(value, Token(op))
    ensures ParseClause(lex, column + [w] + Token(op) + ws + value) == Some(Condition(c, op, value))
  {
    SquashSpaced(column, w, ws, op, value);
    SplitOnce(column, Token(op), value);
  }

  /** After reset, the empty expression returns every game. */
  lemma ResetShowsAll(p: PlannerState, lex: Lexicon, sortOn: GameData, ascending: bool)
    ensures multiset(Filter(Reset(p), lex, Some(""), sortOn, ascending).1) == multiset(p.games)
  {
  }

  /** Clauses accumulate: a second call returns only games the first call
      also returned. */
  lemma Narrowing(p: PlannerState, lex: Lexicon, f1: Option<string>, f2: Option<string>,
                  sort1: GameData, asc1: bool, sort2: GameData, asc2: bool)
    ensures
      var (p1, r1) := Filter(p, lex, f1, sort1, asc1);
      var (p2, r2) := Filter(p1, lex, f2, sort2, asc2);
      forall g :: g in r2 ==> g in r1
  {
  }

  /** Without reset, the empty expression does not undo earlier clauses. */
  lemma EmptyFilterKeepsClauses(p: PlannerState, lex: Lexicon, sortOn: GameData, ascending: bool)
    ensures Filter(p, lex, Some(""), sortOn, ascending).0 == p
    ensures Filter(p, lex, None, sortOn, ascending).0 == p
  {
  }

  /** Clause order is irrelevant to which games are returned. */
  lemma ConditionOrderIrrelevant(lex: Lexicon, cs1: seq<string>, cs2: seq<string>, s: seq<BoardGame>)
    requires forall c :: c in cs1 <==> c in cs2
    ensures forall g :: g in ApplyAll(lex, cs1, s) <==> g in ApplyAll(lex, cs2, s)
  {
  }

  lemma SplitTwo(a: string, b: string)
    requires !Contains(a, ",") && !Contains(b, ",") && b != ""
    ensures Split(a + "," + b, ",") == [a, b]
  {
    var s := a + "," + b;
    assert OccursAt(s, ",", |a|);
    assert forall k :: 0 <= k < |a| ==> !OccursAt(s, ",", k) by {
      forall k | 0 <= k < |a| ensures !OccursAt(s, ",", k) {
        assert !OccursAt(a, ",", k);
        assert s[k..k + 1] == a[k..k + 1];
      }
    }
    assert IndexOf(s, ",") == Some(|a|);
    assert s[..|a|] == a && s[|a| + 1..] == b;
    assert Pieces(b, ",") == [b];
    assert Pieces(s, ",") == [a, b];
    assert DropTrailingEmpty([a, b]) == [a, b];
  }

  lemma ClausesOfTwo(a: string, b: string)
    requires !Contains(a, ",") && !Contains(b, ",") && b != ""
    ensures Clauses(a + "," + b) == [Trim(a), Trim(b)]
  {
    SplitTwo(a, b);
  }

  /** `a,b` and `b,a` select the same games from a fresh planner. */
  lemma ConjunctionCommutes(games: seq<BoardGame>, lex: Lexicon, a: string, b: string,
                            sortOn: GameData, ascending: bool)
    requires !Contains(a, ",") && !Contains(b, ",") && a != "" && b != ""
    ensures forall g ::
      g in Filter(NewPlanner(games), lex, Some(a + "," + b), sortOn, ascending).1 <==>
      g in Filter(NewPlanner(games), lex, Some(b + "," + a), sortOn, ascending).1
  {
    ClausesOfTwo(a, b);
    ClausesOfTwo(b, a);
    var (p1, r1) := Filter(NewPlanner(games), lex, Some(a + "," + b), sortOn, ascending);
    var (p2, r2) := Filter(NewPlanner(games), lex, Some(b + "," + a), sortOn, ascending);
    assert p1.filterConditions == [Trim(a), Trim(b)];
    assert p2.filterConditions == [Trim(b), Trim(a)];
    forall g ensures PassesAll(lex, p1.filterConditions, g) == PassesAll(lex, p2.filterConditions, g) {
    }
  }
}
