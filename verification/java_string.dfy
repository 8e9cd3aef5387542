/** The java.lang.String operations the planner relies on. Case mapping is
    ASCII only: Java's Unicode case tables are not modelled. Comparison
    results are reduced to their sign. */
module JavaString {
  import opened Wrappers
  import opened JavaInteger

  // ---------------------------------------------------------------- case

  function LowerChar(c: char): char
  {
    if 'A' <= c <= 'Z' then (c as int + 32) as char else c
  }

  function UpperChar(c: char): char
  {
    if 'a' <= c <= 'z' then (c as int - 32) as char else c
  }

  /** String.toLowerCase. */
  function ToLower(s: string): (r: string)
    ensures |r| == |s|
    ensures forall k :: 0 <= k < |s| ==> r[k] == LowerChar(s[k])
  {
    seq(|s|, k requires 0 <= k < |s| => LowerChar(s[k]))
  }

  lemma ToLowerIdempotent(s: string)
    ensures ToLower(ToLower(s)) == ToLower(s)
  {
  }

  lemma ToLowerSlice(s: string, i: int, j: int)
    requires 0 <= i <= j <= |s|
    ensures ToLower(s[i..j]) == ToLower(s)[i..j]
  {
  }

  // ---------------------------------------------------------------- trim

  /** The characters String.trim removes: every code point up to U+0020. */
  predicate Blank(c: char)
  {
    c <= ' '
  }

  function TextStart(s: string): (i: nat)
    ensures i <= |s|
    ensures forall k :: 0 <= k < i ==> Blank(s[k])
    ensures i < |s| ==> !Blank(s[i])
    decreases |s|
  {
    if |s| == 0 || !Blank(s[0]) then 0 else 1 + TextStart(s[1..])
  }

  function TextEnd(s: string, start: nat): (j: nat)
    requires start <= |s|
    ensures start <= j <= |s|
    ensures forall k :: j <= k < |s| ==> Blank(s[k])
    ensures start < j ==> !Blank(s[j - 1])
    decreases |s|
  {
    if |s| == start || !Blank(s[|s| - 1]) then |s| else TextEnd(s[..|s| - 1], start)
  }

  /** s[i..j] is what trimming s leaves: everything outside it is blank and,
      unless it is empty, it starts and ends with a non-blank character. */
  ghost predicate TrimmedSlice(s: string, i: int, j: int)
  {
    && 0 <= i <= j <= |s|
    && (forall k :: 0 <= k < i ==> Blank(s[k]))
    && (forall k :: j <= k < |s| ==> Blank(s[k]))
    && (i < j ==> !Blank(s[i]) && !Blank(s[j - 1]))
  }

  /** Where trim cuts s: the first non-blank position and one past the last. */
  function TrimBounds(s: string): (b: (nat, nat))
    ensures TrimmedSlice(s, b.0, b.1)
  {
    var i := TextStart(s);
    (i, TextEnd(s, i))
  }

  /** String.trim. */
  function Trim(s: string): (r: string)
    ensures |r| <= |s|
    ensures |r| > 0 ==> !Blank(r[0]) && !Blank(r[|r| - 1])
  {
    s[TrimBounds(s).0..TrimBounds(s).1]
  }

  /** Only one slice of s qualifies as its trimmed form, so trim is
      characterised by TrimmedSlice. */
  lemma TrimIs(s: string, i: int, j: int)
    requires TrimmedSlice(s, i, j)
    ensures Trim(s) == s[i..j]
  {
    var (i', j') := TrimBounds(s);
    if i < j {
      assert !Blank(s[i]) && !Blank(s[j - 1]);
    }
    if i' < j' {
      assert !Blank(s[i']) && !Blank(s[j' - 1]);
    }
  }

  /** A string that starts and ends with a non-blank character is its own
      trimmed form. */
  lemma TrimKeeps(s: string)
    requires |s| > 0 && !Blank(s[0]) && !Blank(s[|s| - 1])
    ensures Trim(s) == s
  {
    assert TrimmedSlice(s, 0, |s|);
    TrimIs(s, 0, |s|);
    assert s[0..|s|] == s;
  }

  /** Blank padding on either side does not change what trim returns. */
  lemma TrimIgnoresPadding(a: string, s: string, b: string)
    requires forall k :: 0 <= k < |a| ==> Blank(a[k])
    requires forall k :: 0 <= k < |b| ==> Blank(b[k])
    ensures Trim(a + s + b) == Trim(s)
  {
    var i, j := TrimBounds(s).0, TrimBounds(s).1;
    TrimPadded(a, s, b, i, j);
    SliceOfPadded(a, s, b, i, j);
  }

  lemma TrimPadded(a: string, s: string, b: string, i: int, j: int)
    requires forall k :: 0 <= k < |a| ==> Blank(a[k])
    requires forall k :: 0 <= k < |b| ==> Blank(b[k])
    requires TrimmedSlice(s, i, j)
    ensures Trim(a + s + b) == (a + s + b)[|a| + i..|a| + j]
  {
    PaddedSlice(a, s, b, i, j);
    TrimIs(a + s + b, |a| + i, |a| + j);
  }

  lemma SliceOfPadded(a: string, s: string, b: string, i: int, j: int)
    requires 0 <= i <= j <= |s|
    ensures (a + s + b)[|a| + i..|a| + j] == s[i..j]
  {
  }

  lemma PaddedSlice(a: string, s: string, b: string, i: int, j: int)
    requires forall k :: 0 <= k < |a| ==> Blank(a[k])
    requires forall k :: 0 <= k < |b| ==> Blank(b[k])
    requires TrimmedSlice(s, i, j)
    ensures TrimmedSlice(a + s + b, |a| + i, |a| + j)
  {
    var t := a + s + b;
    forall k | 0 <= k < |t| && !(|a| + i <= k < |a| + j) ensures Blank(t[k]) {
      if k < |a| {
        assert t[k] == a[k];
      } else if k < |a| + |s| {
        assert t[k] == s[k - |a|];
      } else {
        assert t[k] == b[k - |a| - |s|];
      }
    }
    if i < j {
      assert t[|a| + i] == s[i] && t[|a| + j - 1] == s[j - 1];
    }
  }

  lemma TrimIdempotent(s: string)
    ensures Trim(Trim(s)) == Trim(s)
  {
    var r := Trim(s);
    assert TrimmedSlice(r, 0, |r|);
    TrimIs(r, 0, |r|);
  }

  /** Trimming and lower-casing commute, because lower-casing never turns a
      blank character into a non-blank one or back. */
  lemma TrimToLower(s: string)
    ensures Trim(ToLower(s)) == ToLower(Trim(s))
  {
    var (i, j) := TrimBounds(s);
    var l := ToLower(s);
    assert TrimmedSlice(s, i, j);
    forall k | 0 <= k < |s| ensures Blank(l[k]) <==> Blank(s[k]) {
      assert l[k] == LowerChar(s[k]);
    }
    assert TrimmedSlice(l, i, j);
    TrimIs(l, i, j);
    assert Trim(s) == s[i..j];
    ToLowerSlice(s, i, j);
  }

  // ---------------------------------------------------------------- equality

  /** One step of String.regionMatches(ignoreCase = true). */
  predicate CharsEqualIgnoreCase(c1: char, c2: char)
  {
    || c1 == c2
    || UpperChar(c1) == UpperChar(c2)
    || LowerChar(UpperChar(c1)) == LowerChar(UpperChar(c2))
  }

  /** String.equalsIgnoreCase: equal lengths and every pair of characters
      equal after upper-casing or after upper- then lower-casing. */
  predicate EqualsIgnoreCase(a: string, b: string): (r: bool)
    ensures r ==> |a| == |b|
    ensures a == b ==> r
  {
    |a| == |b| && forall k :: 0 <= k < |a| ==> CharsEqualIgnoreCase(a[k], b[k])
  }

  lemma CharsEqualIgnoreCaseIsLower(c1: char, c2: char)
    ensures CharsEqualIgnoreCase(c1, c2) <==> LowerChar(c1) == LowerChar(c2)
  {
  }

  /** equalsIgnoreCase holds exactly when the lower-cased strings are equal. */
  lemma EqualsIgnoreCaseIsLower(a: string, b: string)
    ensures EqualsIgnoreCase(a, b) <==> ToLower(a) == ToLower(b)
  {
    forall k | 0 <= k < |a| && k < |b| {
      CharsEqualIgnoreCaseIsLower(a[k], b[k]);
    }
    if |a| == |b| && ToLower(a) != ToLower(b) {
      var k :| 0 <= k < |a| && ToLower(a)[k] != ToLower(b)[k];
      assert LowerChar(a[k]) != LowerChar(b[k]);
    }
  }

  // ---------------------------------------------------------------- ordering

  /** String.compareTo: lexicographic by character code, a proper prefix
      first. Only the sign of the Java result is kept. */
  function CompareTo(a: string, b: string): (r: int)
    ensures -1 <= r <= 1
    ensures r == 0 <==> a == b
    decreases |a|
  {
    if |a| == 0 then (if |b| == 0 then 0 else -1)
    else if |b| == 0 then 1
    else if a[0] < b[0] then -1
    else if a[0] > b[0] then 1
    else
      assert a == [a[0]] + a[1..] && b == [b[0]] + b[1..];
      CompareTo(a[1..], b[1..])
  }

  lemma {:induction false} CompareToAntisymmetric(a: string, b: string)
    ensures CompareTo(b, a) == -CompareTo(a, b)
    decreases |a|
  {
    if |a| > 0 && |b| > 0 && a[0] == b[0] {
      CompareToAntisymmetric(a[1..], b[1..]);
    }
  }

  lemma {:induction false} CompareToTransitive(a: string, b: string, c: string)
    requires CompareTo(a, b) <= 0 && CompareTo(b, c) <= 0
    ensures CompareTo(a, c) <= 0
    decreases |a|
  {
    if |a| > 0 && |b| > 0 && |c| > 0 && a[0] == b[0] == c[0] {
      CompareToTransitive(a[1..], b[1..], c[1..]);
    }
  }

  /** compareTo is lexicographic: the first differing character decides. */
  lemma {:induction false} CompareToFirstDifference(a: string, b: string, k: nat)
    requires k < |a| && k < |b| && a[..k] == b[..k] && a[k] != b[k]
    ensures CompareTo(a, b) == if a[k] < b[k] then -1 else 1
    decreases k
  {
    if k > 0 {
      assert a[0] == a[..k][0] && b[0] == b[..k][0];
      assert a[1..][..k - 1] == a[..k][1..] && b[1..][..k - 1] == b[..k][1..];
      CompareToFirstDifference(a[1..], b[1..], k - 1);
    }
  }

  /** A proper prefix comes first. */
  lemma {:induction false} CompareToPrefix(a: string, b: string)
    requires |a| < |b| && b[..|a|] == a
    ensures CompareTo(a, b) == -1
    decreases |a|
  {
    if |a| > 0 {
      assert a[0] == b[..|a|][0];
      assert b[1..][..|a| - 1] == b[..|a|][1..];
      CompareToPrefix(a[1..], b[1..]);
    }
  }

  function FoldChar(c: char): char
  {
    LowerChar(UpperChar(c))
  }

  /** String.compareToIgnoreCase (and String.CASE_INSENSITIVE_ORDER): walk
      both strings; at the first pair of characters that differ even after
      upper-casing and then lower-casing, compare those; otherwise the
      shorter string comes first. Only the sign is kept. */
  function CompareIgnoreCase(a: string, b: string): (r: int)
    ensures -1 <= r <= 1
    ensures r == CompareTo(ToLower(a), ToLower(b))
    decreases |a|
  {
    if |a| == 0 || |b| == 0 then Sign(|a| - |b|)
    else
      assert FoldChar(a[0]) == LowerChar(a[0]) && FoldChar(b[0]) == LowerChar(b[0]);
      assert ToLower(a)[1..] == ToLower(a[1..]) && ToLower(b)[1..] == ToLower(b[1..]);
      if a[0] != b[0] && UpperChar(a[0]) != UpperChar(b[0]) && FoldChar(a[0]) != FoldChar(b[0])
      then Sign(FoldChar(a[0]) as int - FoldChar(b[0]) as int)
      else CompareIgnoreCase(a[1..], b[1..])
  }

  /** compareToIgnoreCase is zero exactly when equalsIgnoreCase holds. */
  lemma CompareIgnoreCaseZero(a: string, b: string)
    ensures CompareIgnoreCase(a, b) == 0 <==> EqualsIgnoreCase(a, b)
  {
  }

  // ---------------------------------------------------------------- search

  predicate OccursAt(s: string, t: string, k: int)
  {
    0 <= k && k + |t| <= |s| && s[k..k + |t|] == t
  }

  lemma OccursShift(s: string, t: string)
    requires |s| > 0
    ensures forall k :: k >= 0 ==> (OccursAt(s[1..], t, k) <==> OccursAt(s, t, k + 1))
    ensures forall k :: k >= 1 ==> (OccursAt(s, t, k) <==> OccursAt(s[1..], t, k - 1))
  {
    forall k | k >= 0 ensures OccursAt(s[1..], t, k) <==> OccursAt(s, t, k + 1) {
      if k + |t| <= |s| - 1 {
        assert s[1..][k..k + |t|] == s[k + 1..k + 1 + |t|];
      }
    }
  }

  /** String.indexOf(t): the first position where t occurs, if any. */
  function IndexOf(s: string, t: string): (r: Option<nat>)
    ensures r.Some? ==> OccursAt(s, t, r.value)
    ensures r.Some? ==> forall k :: 0 <= k < r.value ==> !OccursAt(s, t, k)
    ensures r.None? ==> forall k :: !OccursAt(s, t, k)
    decreases |s|
  {
    if |t| > |s| then None
    else if s[..|t|] == t then Some(0)
    else
      OccursShift(s, t);
      match IndexOf(s[1..], t)
      case None => None
      case Some(i) => Some(i + 1)
  }

  /** String.contains(t): t occurs somewhere in s. */
  predicate Contains(s: string, t: string): (r: bool)
    ensures r <==> exists k :: OccursAt(s, t, k)
  {
    IndexOf(s, t).Some?
  }

  /** An occurrence with no earlier start of the token's first character is
      the one indexOf finds. */
  lemma IndexOfAt(s: string, t: string, i: nat)
    requires |t| > 0 && OccursAt(s, t, i) && t[0] !in s[..i]
    ensures IndexOf(s, t) == Some(i)
  {
    forall k | 0 <= k < i ensures !OccursAt(s, t, k) {
      assert s[..i][k] == s[k];
      if k + |t| <= |s| {
        assert s[k..k + |t|][0] == s[k];
      }
    }
  }

  /** A string without the token's first character does not contain it. */
  lemma IndexOfAbsent(s: string, t: string)
    requires |t| > 0 && t[0] !in s
    ensures IndexOf(s, t).None?
  {
    forall k ensures !OccursAt(s, t, k) {
      if 0 <= k && k + |t| <= |s| {
        assert s[k..k + |t|][0] == s[k];
      }
    }
  }

  // ---------------------------------------------------------------- split

  /** The pieces between successive, non-overlapping occurrences of sep,
      scanning left to right. */
  function Pieces(s: string, sep: string): (r: seq<string>)
    requires |sep| > 0
    ensures |r| >= 1
    decreases |s|
  {
    match IndexOf(s, sep)
    case None => [s]
    case Some(i) => [s[..i]] + Pieces(s[i + |sep|..], sep)
  }

  function Join(parts: seq<string>, sep: string): string
  {
    if |parts| == 0 then ""
    else if |parts| == 1 then parts[0]
    else parts[0] + sep + Join(parts[1..], sep)
  }

  /** Joining the pieces with the separator gives back the string. */
  lemma {:induction false} JoinPieces(s: string, sep: string)
    requires |sep| > 0
    ensures Join(Pieces(s, sep), sep) == s
    decreases |s|
  {
    var found := IndexOf(s, sep);
    if found.Some? {
      var i := found.value;
      var head, rest := s[..i], s[i + |sep|..];
      JoinPieces(rest, sep);
      var p := Pieces(s, sep);
      assert p == [head] + Pieces(rest, sep);
      assert p[1..] == Pieces(rest, sep);
      calc {
        Join(p, sep);
        head + sep + Join(Pieces(rest, sep), sep);
        head + sep + rest;
        { assert s[i..i + |sep|] == sep; }
        s[..i] + s[i..i + |sep|] + s[i + |sep|..];
        s;
      }
    }
  }

  /** No piece contains the separator. */
  lemma {:induction false} PiecesFreeOfSeparator(s: string, sep: string)
    requires |sep| > 0
    ensures forall k :: 0 <= k < |Pieces(s, sep)| ==> !Contains(Pieces(s, sep)[k], sep)
    decreases |s|
  {
    match IndexOf(s, sep)
    case None =>
    case Some(i) =>
      var rest := s[i + |sep|..];
      PiecesFreeOfSeparator(rest, sep);
      var head := s[..i];
      forall k | OccursAt(head, sep, k) ensures false {
        assert head[k..k + |sep|] == s[k..k + |sep|];
        assert OccursAt(s, sep, k);
      }
      assert !Contains(head, sep);
  }

  function DropTrailingEmpty(parts: seq<string>): (r: seq<string>)
    ensures |r| <= |parts| && r == parts[..|r|]
    ensures forall k :: |r| <= k < |parts| ==> parts[k] == ""
    ensures |r| > 0 ==> r[|r| - 1] != ""
  {
    if |parts| > 0 && parts[|parts| - 1] == "" then DropTrailingEmpty(parts[..|parts| - 1])
    else parts
  }

  /** String.split with a separator that contains no regular-expression
      metacharacter: when sep does not occur the result is [s] (even for the
      empty string); otherwise the pieces with trailing empty ones dropped. */
  function Split(s: string, sep: string): (r: seq<string>)
    requires |sep| > 0
    ensures !Contains(s, sep) ==> r == [s]
    ensures Contains(s, sep) ==>
      && |r| <= |Pieces(s, sep)|
      && r == Pieces(s, sep)[..|r|]
      && (forall k :: |r| <= k < |Pieces(s, sep)| ==> Pieces(s, sep)[k] == "")
      && (|r| > 0 ==> r[|r| - 1] != "")
  {
    if IndexOf(s, sep).None? then [s] else DropTrailingEmpty(Pieces(s, sep))
  }

  /** One separator between two pieces: split gives the two pieces back,
      provided the separator cannot start inside the first piece and does
      not occur in the second, which is not empty. */
  lemma SplitOnce(a: string, sep: string, b: string)
    requires |sep| > 0 && sep[0] !in a && !Contains(b, sep) && b != ""
    ensures Split(a + sep + b, sep) == [a, b]
  {
    var s := a + sep + b;
    assert s[..|a|] == a && s[|a|..|a| + |sep|] == sep && s[|a| + |sep|..] == b;
    IndexOfAt(s, sep, |a|);
    assert Pieces(s, sep) == [a] + Pieces(b, sep);
  }
}
