/** Sorting.sortOn, and the stable sort that `Stream.sorted` performs with
    either this comparator or GameSorter's. */
module Sorting {
  import opened JavaInteger
  import opened JavaString
  import opened Games
  import GameSorter

  /** The ascending comparator of Sorting.sortOn: NAME (and every column
      without a case of its own) compares the lower-cased names with
      String.compareTo; the others compare their attribute. */
  function SortOnAscending(sortOn: GameData, a: BoardGame, b: BoardGame): (r: int)
    ensures -1 <= r <= 1
    ensures r == GameSorter.AscendingCompare(sortOn, a, b)
  {
    match sortOn
    case NAME => CompareTo(ToLower(a.name), ToLower(b.name))
    case RATING => GameSorter.CompareReal(a.rating, b.rating)
    case DIFFICULTY => GameSorter.CompareReal(a.difficulty, b.difficulty)
    case RANK => JavaInteger.Compare(a.rank, b.rank)
    case MIN_PLAYERS => JavaInteger.Compare(a.minPlayers, b.minPlayers)
    case MAX_PLAYERS => JavaInteger.Compare(a.maxPlayers, b.maxPlayers)
    case MIN_TIME => JavaInteger.Compare(a.minPlayTime, b.minPlayTime)
    case MAX_TIME => JavaInteger.Compare(a.maxPlayTime, b.maxPlayTime)
    case YEAR => JavaInteger.Compare(a.yearPublished, b.yearPublished)
    case ID => CompareTo(ToLower(a.name), ToLower(b.name))
  }

  /** Sorting.sortOn's comparator, reversed for descending order. */
  function SortOnCompare(sortOn: GameData, ascending: bool, a: BoardGame, b: BoardGame): (r: int)
    ensures -1 <= r <= 1
    ensures r == GameSorter.Compare(sortOn, ascending, a, b)
  {
    if ascending then SortOnAscending(sortOn, a, b) else SortOnAscending(sortOn, b, a)
  }

  // ---------------------------------------------------------------- orders

  /** Which comparator a sort uses. */
  datatype Order =
    | GetComparator(sortOn: GameData, ascending: bool)
    | SortOnComparator(sortOn: GameData, ascending: bool)

  function Cmp(o: Order, a: BoardGame, b: BoardGame): int
  {
    match o
    case GetComparator(col, asc) => GameSorter.Compare(col, asc, a, b)
    case SortOnComparator(col, asc) => SortOnCompare(col, asc, a, b)
  }

  lemma CmpAntisymmetric(o: Order, a: BoardGame, b: BoardGame)
    ensures Cmp(o, b, a) == -Cmp(o, a, b)
  {
    GameSorter.CompareAntisymmetric(o.sortOn, o.ascending, a, b);
  }

  lemma CmpTransitive(o: Order, a: BoardGame, b: BoardGame, c: BoardGame)
    requires Cmp(o, a, b) <= 0 && Cmp(o, b, c) <= 0
    ensures Cmp(o, a, c) <= 0
  {
    GameSorter.CompareTransitive(o.sortOn, o.ascending, a, b, c);
  }

  ghost predicate SortedBy(o: Order, s: seq<BoardGame>)
  {
    forall i, j :: 0 <= i < j < |s| ==> Cmp(o, s[i], s[j]) <= 0
  }

  // ---------------------------------------------------------------- stable sort

  lemma InsertFront(o: Order, r: seq<BoardGame>, x: BoardGame)
    requires SortedBy(o, r) && |r| > 0 && Cmp(o, r[0], x) > 0
    ensures SortedBy(o, [x] + r)
  {
    CmpAntisymmetric(o, r[0], x);
    forall j | 0 <= j < |r| ensures Cmp(o, x, r[j]) <= 0 {
      if j > 0 {
        CmpTransitive(o, x, r[0], r[j]);
      }
    }
  }

  lemma InsertBehind(o: Order, r: seq<BoardGame>, x: BoardGame, q: seq<BoardGame>)
    requires SortedBy(o, r) && |r| > 0 && Cmp(o, r[0], x) <= 0
    requires SortedBy(o, q) && multiset(q) == multiset(r[1..]) + multiset{x}
    ensures SortedBy(o, [r[0]] + q)
  {
    forall j | 0 <= j < |q| ensures Cmp(o, r[0], q[j]) <= 0 {
      assert q[j] in multiset(q);
      if q[j] != x {
        assert q[j] in r[1..];
        var k :| 0 <= k < |r[1..]| && r[1..][k] == q[j];
        assert r[k + 1] == q[j];
      }
    }
  }

  /** Insert x into a sorted sequence after every element that does not
      compare greater, which keeps equal elements in arrival order. */
  function Insert(o: Order, r: seq<BoardGame>, x: BoardGame): (q: seq<BoardGame>)
    requires SortedBy(o, r)
    ensures SortedBy(o, q)
    ensures multiset(q) == multiset(r) + multiset{x}
    decreases |r|
  {
    if |r| == 0 then [x]
    else if Cmp(o, r[0], x) > 0 then
      InsertFront(o, r, x);
      [x] + r
    else
      var q := Insert(o, r[1..], x);
      InsertBehind(o, r, x, q);
      assert r == [r[0]] + r[1..];
      [r[0]] + q
  }

  lemma DistinctAppend(s: seq<BoardGame>, x: BoardGame)
    requires Distinct(s) && !Includes(s, x)
    ensures Distinct(s + [x])
  {
    var t := s + [x];
    forall i, j | 0 <= i < j < |t| ensures !SameGame(t[i], t[j]) {
      if j == |s| {
        assert t[i] == s[i];
      } else {
        assert t[i] == s[i] && t[j] == s[j];
      }
    }
  }

  lemma DistinctRemove(a: seq<BoardGame>, k: int)
    requires Distinct(a) && 0 <= k < |a|
    ensures Distinct(a[..k] + a[k + 1..])
    ensures !Includes(a[..k] + a[k + 1..], a[k])
    ensures multiset(a[..k] + a[k + 1..]) == multiset(a) - multiset{a[k]}
  {
    var a' := a[..k] + a[k + 1..];
    assert a == a[..k] + [a[k]] + a[k + 1..];
    forall i | 0 <= i < |a'| ensures a'[i] == a[if i < k then i else i + 1] {
    }
    forall i, j | 0 <= i < j < |a'| ensures !SameGame(a'[i], a'[j]) {
      assert a'[i] == a[if i < k then i else i + 1];
      assert a'[j] == a[if j < k then j else j + 1];
    }
    forall m | 0 <= m < |a'| ensures !SameGame(a'[m], a[k]) {
      assert a'[m] == a[if m < k then m else m + 1];
    }
  }

  /** Two sequences with the same elements agree on Distinct. */
  lemma {:induction false} DistinctPermutation(a: seq<BoardGame>, b: seq<BoardGame>)
    requires multiset(a) == multiset(b) && Distinct(a)
    ensures Distinct(b)
    decreases |a|
  {
    if |b| > 0 {
      var x := b[|b| - 1];
      var b' := b[..|b| - 1];
      assert b == b' + [x];
      assert x in multiset(a);
      var k :| 0 <= k < |a| && a[k] == x;
      var a' := a[..k] + a[k + 1..];
      DistinctRemove(a, k);
      assert multiset(a') == multiset(b');
      DistinctPermutation(a', b');
      forall m | 0 <= m < |b'| ensures !SameGame(b'[m], x) {
        assert b'[m] in multiset(a');
      }
      DistinctAppend(b', x);
    }
  }

  /** Stream.sorted: a stable insertion sort by the given comparator. */
  function StableSort(o: Order, s: seq<BoardGame>): (r: seq<BoardGame>)
    ensures SortedBy(o, r)
    ensures multiset(r) == multiset(s)
    decreases |s|
  {
    if |s| == 0 then []
    else
      assert s == s[..|s| - 1] + [s[|s| - 1]];
      Insert(o, StableSort(o, s[..|s| - 1]), s[|s| - 1])
  }

  /** The elements of s that satisfy `tied`, in their order in s. */
  function Among(s: seq<BoardGame>, tied: BoardGame -> bool): (r: seq<BoardGame>)
    ensures |r| <= |s|
    ensures forall g :: g in r <==> g in s && tied(g)
    decreases |s|
  {
    if |s| == 0 then []
    else (if tied(s[0]) then [s[0]] else []) + Among(s[1..], tied)
  }

  lemma {:induction false} AmongAppend(a: seq<BoardGame>, b: seq<BoardGame>, tied: BoardGame -> bool)
    ensures Among(a + b, tied) == Among(a, tied) + Among(b, tied)
    decreases |a|
  {
    if |a| == 0 {
      assert a + b == b;
    } else {
      assert (a + b)[0] == a[0] && (a + b)[1..] == a[1..] + b;
      AmongAppend(a[1..], b, tied);
    }
  }

  /** Inserting y into a sorted sequence puts it behind every element of
      its tie class. */
  lemma {:induction false} AmongInsert(o: Order, r: seq<BoardGame>, y: BoardGame, tied: BoardGame -> bool)
    requires SortedBy(o, r)
    requires forall g, h :: tied(g) && tied(h) ==> Cmp(o, g, h) == 0
    ensures Among(Insert(o, r, y), tied) == Among(r, tied) + Among([y], tied)
    decreases |r|
  {
    if |r| == 0 {
      assert Insert(o, r, y) == [y];
    } else if Cmp(o, r[0], y) > 0 {
      assert Insert(o, r, y) == [y] + r;
      AmongInFront(o, r, y, tied);
    } else {
      SortedTail(o, r);
      var q := Insert(o, r[1..], y);
      assert Insert(o, r, y) == [r[0]] + q;
      AmongInsert(o, r[1..], y, tied);
      AmongBehindHead(r, q, y, tied);
    }
  }

  /** y in front of a sorted r whose head compares greater: none of r ties with y. */
  lemma AmongInFront(o: Order, r: seq<BoardGame>, y: BoardGame, tied: BoardGame -> bool)
    requires SortedBy(o, r) && |r| > 0 && Cmp(o, r[0], y) > 0
    requires forall g, h :: tied(g) && tied(h) ==> Cmp(o, g, h) == 0
    ensures Among([y] + r, tied) == Among(r, tied) + Among([y], tied)
  {
    AmongAppend([y], r, tied);
    if tied(y) {
      AboveAll(o, r, y);
      AmongNone(r, tied);
    } else {
      AmongNone([y], tied);
    }
  }

  lemma AmongBehindHead(r: seq<BoardGame>, q: seq<BoardGame>, y: BoardGame, tied: BoardGame -> bool)
    requires |r| > 0
    requires Among(q, tied) == Among(r[1..], tied) + Among([y], tied)
    ensures Among([r[0]] + q, tied) == Among(r, tied) + Among([y], tied)
  {
    calc {
      Among([r[0]] + q, tied);
      { AmongAppend([r[0]], q, tied); }
      Among([r[0]], tied) + Among(q, tied);
      Among([r[0]], tied) + (Among(r[1..], tied) + Among([y], tied));
      { Associative(Among([r[0]], tied), Among(r[1..], tied), Among([y], tied)); }
      Among([r[0]], tied) + Among(r[1..], tied) + Among([y], tied);
      { AmongHead(r, tied); }
      Among(r, tied) + Among([y], tied);
    }
  }

  lemma AmongHead(r: seq<BoardGame>, tied: BoardGame -> bool)
    requires |r| > 0
    ensures Among(r, tied) == Among([r[0]], tied) + Among(r[1..], tied)
  {
    assert [r[0]][1..] == [];
  }

  lemma Associative(a: seq<BoardGame>, b: seq<BoardGame>, c: seq<BoardGame>)
    ensures a + (b + c) == a + b + c
  {
  }

  /** Every element of a sorted sequence whose head compares greater than
      y compares greater than y. */
  lemma AboveAll(o: Order, r: seq<BoardGame>, y: BoardGame)
    requires SortedBy(o, r) && |r| > 0 && Cmp(o, r[0], y) > 0
    ensures forall g :: g in r ==> Cmp(o, g, y) > 0
  {
    forall g | g in r ensures Cmp(o, g, y) > 0 {
      var j :| 0 <= j < |r| && r[j] == g;
      if Cmp(o, g, y) <= 0 {
        CmpTransitive(o, r[0], g, y);
      }
    }
  }

  lemma AmongNone(s: seq<BoardGame>, tied: BoardGame -> bool)
    requires forall g :: g in s ==> !tied(g)
    ensures Among(s, tied) == []
  {
  }

  lemma {:induction false} AmongStableSort(o: Order, s: seq<BoardGame>, tied: BoardGame -> bool)
    requires forall g, h :: tied(g) && tied(h) ==> Cmp(o, g, h) == 0
    ensures Among(StableSort(o, s), tied) == Among(s, tied)
    decreases |s|
  {
    if |s| > 0 {
      var init, last := s[..|s| - 1], s[|s| - 1];
      assert s == init + [last];
      AmongStableSort(o, init, tied);
      AmongInsert(o, StableSort(o, init), last, tied);
      AmongAppend(init, [last], tied);
    }
  }

  /** Elements that tie with a common x tie with each other. */
  lemma TieClass(o: Order, x: BoardGame, g: BoardGame, h: BoardGame)
    requires Cmp(o, g, x) == 0 && Cmp(o, h, x) == 0
    ensures Cmp(o, g, h) == 0
  {
    CmpAntisymmetric(o, h, x);
    CmpAntisymmetric(o, g, x);
    CmpTransitive(o, g, x, h);
    CmpTransitive(o, h, x, g);
    CmpAntisymmetric(o, g, h);
  }

  /** Stream.sorted is stable: the elements that compare equal to any x
      come out in the order they went in. */
  lemma StableSortStable(o: Order, s: seq<BoardGame>, x: BoardGame)
    ensures Among(StableSort(o, s), g => Cmp(o, g, x) == 0) == Among(s, g => Cmp(o, g, x) == 0)
  {
    var tied := g => Cmp(o, g, x) == 0;
    forall g, h | tied(g) && tied(h) ensures Cmp(o, g, h) == 0 {
      TieClass(o, x, g, h);
    }
    AmongStableSort(o, s, tied);
  }

  /** Sorting keeps a duplicate-free sequence duplicate-free. */
  lemma StableSortDistinct(o: Order, s: seq<BoardGame>)
    requires Distinct(s)
    ensures Distinct(StableSort(o, s))
  {
    DistinctPermutation(s, StableSort(o, s));
  }

  /** When no two different elements tie, there is only one sorted
      arrangement: any two sorted permutations of the same games are equal.
      So the result of a sort does not depend on the input order. */
  lemma {:induction false} SortedUnique(o: Order, a: seq<BoardGame>, b: seq<BoardGame>)
    requires SortedBy(o, a) && SortedBy(o, b) && multiset(a) == multiset(b)
    requires forall x, y :: x in a && y in a && x != y ==> Cmp(o, x, y) != 0
    ensures a == b
    decreases |a|
  {
    if |a| > 0 {
      SortedHeads(o, a, b);
      SortedTails(o, a, b);
      SortedUnique(o, a[1..], b[1..]);
      assert a == [a[0]] + a[1..] && b == [b[0]] + b[1..];
    }
  }

  /** Each head is a least element of the other sequence, so the two heads
      tie, and without ties they are the same game. */
  lemma SortedHeads(o: Order, a: seq<BoardGame>, b: seq<BoardGame>)
    requires SortedBy(o, a) && SortedBy(o, b) && multiset(a) == multiset(b)
    requires forall x, y :: x in a && y in a && x != y ==> Cmp(o, x, y) != 0
    requires |a| > 0
    ensures |b| > 0 && a[0] == b[0]
  {
    assert |b| == |multiset(b)| == |a|;
    assert b[0] in multiset(a) && a[0] in multiset(b);
    var i :| 0 <= i < |a| && a[i] == b[0];
    var j :| 0 <= j < |b| && b[j] == a[0];
    CmpAntisymmetric(o, a[0], a[0]);
    CmpAntisymmetric(o, b[0], b[0]);
    assert Cmp(o, a[0], b[0]) <= 0 by {
      assert i == 0 || Cmp(o, a[0], a[i]) <= 0;
    }
    assert Cmp(o, b[0], a[0]) <= 0 by {
      assert j == 0 || Cmp(o, b[0], b[j]) <= 0;
    }
    CmpAntisymmetric(o, a[0], b[0]);
    assert b[0] in a;
  }

  /** With equal heads, the tails are sorted permutations of each other. */
  lemma SortedTails(o: Order, a: seq<BoardGame>, b: seq<BoardGame>)
    requires SortedBy(o, a) && SortedBy(o, b) && multiset(a) == multiset(b)
    requires forall x, y :: x in a && y in a && x != y ==> Cmp(o, x, y) != 0
    requires |a| > 0 && |b| > 0 && a[0] == b[0]
    ensures SortedBy(o, a[1..]) && SortedBy(o, b[1..]) && multiset(a[1..]) == multiset(b[1..])
    ensures forall x, y :: x in a[1..] && y in a[1..] && x != y ==> Cmp(o, x, y) != 0
  {
    SortedTail(o, a);
    SortedTail(o, b);
    TailMultiset(a, b);
    assert forall x :: x in a[1..] ==> x in a;
  }

  lemma SortedTail(o: Order, a: seq<BoardGame>)
    requires SortedBy(o, a) && |a| > 0
    ensures SortedBy(o, a[1..])
  {
    forall i, j | 0 <= i < j < |a| - 1 ensures Cmp(o, a[1..][i], a[1..][j]) <= 0 {
      assert a[1..][i] == a[i + 1] && a[1..][j] == a[j + 1];
    }
  }

  lemma TailMultiset(a: seq<BoardGame>, b: seq<BoardGame>)
    requires multiset(a) == multiset(b) && |a| > 0 && |b| > 0 && a[0] == b[0]
    ensures multiset(a[1..]) == multiset(b[1..])
  {
    assert a == [a[0]] + a[1..] && b == [b[0]] + b[1..];
    assert multiset(a[1..]) == multiset(a) - multiset{a[0]};
    assert multiset(b[1..]) == multiset(b) - multiset{b[0]};
  }

  /** Sortedness follows from the order of neighbours. */
  lemma {:induction false} SortedByNeighbours(o: Order, s: seq<BoardGame>)
    requires forall i :: 0 <= i < |s| - 1 ==> Cmp(o, s[i], s[i + 1]) <= 0
    ensures SortedBy(o, s)
    decreases |s|
  {
    if |s| > 1 {
      SortedByNeighbours(o, s[1..]);
      forall j | 1 <= j < |s| ensures Cmp(o, s[0], s[j]) <= 0 {
        if j > 1 {
          assert s[1..][j - 1] == s[j];
          CmpTransitive(o, s[0], s[1], s[j]);
        }
      }
      forall i, j | 0 <= i < j < |s| ensures Cmp(o, s[i], s[j]) <= 0 {
        if i > 0 {
          assert s[1..][i - 1] == s[i] && s[1..][j - 1] == s[j];
        }
      }
    }
  }

  /** Strictly increasing neighbours: sorted, and no two different
      elements tie. */
  lemma StrictNeighbours(o: Order, s: seq<BoardGame>)
    requires forall i :: 0 <= i < |s| - 1 ==> Cmp(o, s[i], s[i + 1]) < 0
    ensures SortedBy(o, s)
    ensures forall x, y :: x in s && y in s && x != y ==> Cmp(o, x, y) != 0
  {
    SortedByNeighbours(o, s);
    forall i, j | 0 <= i < j < |s| ensures Cmp(o, s[i], s[j]) < 0 {
      CmpAntisymmetric(o, s[i], s[j]);
      CmpAntisymmetric(o, s[i], s[i + 1]);
      if i + 1 < j && Cmp(o, s[j], s[i]) <= 0 {
        CmpTransitive(o, s[i + 1], s[j], s[i]);
      }
    }
    forall x, y | x in s && y in s && x != y ensures Cmp(o, x, y) != 0 {
      var i :| 0 <= i < |s| && s[i] == x;
      var j :| 0 <= j < |s| && s[j] == y;
      CmpAntisymmetric(o, x, y);
    }
  }

  // ---------------------------------------------------------------- keys

  /** a may precede b in a sequence sorted on the column's key: the integer
      or double attribute, or for NAME and every column without a case of
      its own, the lower-cased name. */
  ghost predicate InKeyOrder(sortOn: GameData, ascending: bool, a: BoardGame, b: BoardGame)
  {
    if IsIntColumn(sortOn) then
      (if ascending then IntValue(a, sortOn) <= IntValue(b, sortOn) else IntValue(a, sortOn) >= IntValue(b, sortOn))
    else if IsRealColumn(sortOn) then
      (if ascending then RealValue(a, sortOn) <= RealValue(b, sortOn) else RealValue(a, sortOn) >= RealValue(b, sortOn))
    else
      (if ascending then CompareTo(ToLower(a.name), ToLower(b.name)) <= 0
       else CompareTo(ToLower(a.name), ToLower(b.name)) >= 0)
  }

  lemma SortOnCompareIsKeyOrder(sortOn: GameData, ascending: bool, a: BoardGame, b: BoardGame)
    ensures SortOnCompare(sortOn, ascending, a, b) <= 0 <==> InKeyOrder(sortOn, ascending, a, b)
  {
    CompareToAntisymmetric(ToLower(a.name), ToLower(b.name));
  }

  /** Sorting.sortOn: a permutation of the stream, ordered on the column's
      key, non-decreasing when ascending and non-increasing otherwise. */
  function SortOn(stream: seq<BoardGame>, sortOn: GameData, ascending: bool): (r: seq<BoardGame>)
    ensures multiset(r) == multiset(stream)
    ensures forall i, j :: 0 <= i < j < |r| ==> InKeyOrder(sortOn, ascending, r[i], r[j])
  {
    var r := StableSort(SortOnComparator(sortOn, ascending), stream);
    assert forall i, j :: 0 <= i < j < |r| ==> InKeyOrder(sortOn, ascending, r[i], r[j]) by {
      forall i, j | 0 <= i < j < |r| ensures InKeyOrder(sortOn, ascending, r[i], r[j]) {
        SortOnCompareIsKeyOrder(sortOn, ascending, r[i], r[j]);
      }
    }
    r
  }
}
