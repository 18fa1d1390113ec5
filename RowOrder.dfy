/** The order the log table sorts its rows in: by level or by time string, either direction. */
module RowOrder {
  import opened Levels
  import opened Rows

  /** `a < b` on `std::string`: lexicographic by character code, a proper prefix first. */
  predicate StrLess(a: string, b: string) {
    if b == [] then false
    else if a == [] then true
    else if a[0] != b[0] then a[0] < b[0]
    else StrLess(a[1..], b[1..])
  }

  lemma {:induction false} StrLessIrreflexive(a: string)
    ensures !StrLess(a, a)
  {
    if a != [] {
      StrLessIrreflexive(a[1..]);
    }
  }

  lemma {:induction false} StrLessTransitive(a: string, b: string, c: string)
    requires StrLess(a, b) && StrLess(b, c)
    ensures StrLess(a, c)
  {
    if a != [] && a[0] == b[0] && b[0] == c[0] {
      StrLessTransitive(a[1..], b[1..], c[1..]);
    }
  }

  /** Any two different strings are ordered one way or the other. */
  lemma {:induction false} StrLessTotal(a: string, b: string)
    requires a != b
    ensures StrLess(a, b) || StrLess(b, a)
  {
    if a != [] && b != [] && a[0] == b[0] {
      assert a == [a[0]] + a[1..] && b == [b[0]] + b[1..];
      StrLessTotal(a[1..], b[1..]);
    }
  }

  lemma StrLessAsymmetric(a: string, b: string)
    requires StrLess(a, b)
    ensures !StrLess(b, a)
  {
    if StrLess(b, a) {
      StrLessTransitive(a, b, a);
      StrLessIrreflexive(a);
    }
  }

  /** The comparator handed to `std::sort`: column 0 orders by level, column 1 by time string,
      `<` when ascending and `>` otherwise; any other column orders nothing. */
  predicate Precedes(column: int, ascending: bool, a: Row, b: Row) {
    if column == 0 then (if ascending then a.level < b.level else a.level > b.level)
    else if column == 1 then (if ascending then StrLess(a.time, b.time) else StrLess(b.time, a.time))
    else false
  }

  /** No row precedes itself. */
  lemma PrecedesIrreflexive(column: int, ascending: bool, a: Row)
    ensures !Precedes(column, ascending, a, a)
  {
    StrLessIrreflexive(a.time);
  }

  lemma PrecedesAsymmetric(column: int, ascending: bool, a: Row, b: Row)
    requires Precedes(column, ascending, a, b)
    ensures !Precedes(column, ascending, b, a)
  {
    if column == 1 {
      if ascending {
        StrLessAsymmetric(a.time, b.time);
      } else {
        StrLessAsymmetric(b.time, a.time);
      }
    }
  }

  lemma PrecedesTransitive(column: int, ascending: bool, a: Row, b: Row, c: Row)
    requires Precedes(column, ascending, a, b) && Precedes(column, ascending, b, c)
    ensures Precedes(column, ascending, a, c)
  {
    if column == 1 {
      if ascending {
        StrLessTransitive(a.time, b.time, c.time);
      } else {
        StrLessTransitive(c.time, b.time, a.time);
      }
    }
  }

  /** "Does not precede" is transitive too. With irreflexivity this makes the comparator a strict
      weak ordering for every column and direction, as `std::sort` requires of it. */
  lemma NotPrecedesTransitive(column: int, ascending: bool, a: Row, b: Row, c: Row)
    requires !Precedes(column, ascending, b, a) && !Precedes(column, ascending, c, b)
    ensures !Precedes(column, ascending, c, a)
  {
    if column == 1 && Precedes(column, ascending, c, a) {
      if a.time != b.time {
        StrLessTotal(a.time, b.time);
        PrecedesTransitive(column, ascending, c, a, b);
      }
      assert false;
    }
  }

  /** No row is followed by a row that precedes it. */
  ghost predicate SortedBy(s: seq<Row>, column: int, ascending: bool) {
    forall i, j :: 0 <= i < j < |s| ==> !Precedes(column, ascending, s[j], s[i])
  }

  /** `std::sort(rows.begin(), rows.end(), comparator)`: reorders the rows in place. */
  method SortInPlace(a: array<Row>, column: int, ascending: bool)
    modifies a
    ensures SortedBy(a[..], column, ascending)
    ensures multiset(a[..]) == multiset(old(a[..]))
  {
    var i := 0;
    while i < a.Length
      invariant 0 <= i <= a.Length
      invariant SortedBy(a[..i], column, ascending)
      invariant multiset(a[..]) == multiset(old(a[..]))
    {
      SinkInto(a, i, column, ascending);
      i := i + 1;
    }
    assert a[..i] == a[..];
  }

  /** One insertion step: `a[i]` sinks into the sorted prefix `a[..i]`, leaving `a[..i + 1]` sorted. */
  method SinkInto(a: array<Row>, i: int, column: int, ascending: bool)
    requires 0 <= i < a.Length
    requires SortedBy(a[..i], column, ascending)
    modifies a
    ensures SortedBy(a[..i + 1], column, ascending)
    ensures multiset(a[..]) == multiset(old(a[..]))
    ensures a[i + 1..] == old(a[i + 1..])
  {
    SinkStart(a[..], i, column, ascending);
    var j := i;
    while j > 0 && Precedes(column, ascending, a[j], a[j - 1])
      invariant 0 <= j <= i
      invariant Sinking(a[..], i, j, column, ascending)
      invariant multiset(a[..]) == multiset(old(a[..]))
      invariant a[i + 1..] == old(a[i + 1..])
    {
      ghost var before := a[..];
      SinkStep(before, i, j, column, ascending);
      SwapAdjacent(a, j);
      assert a[i + 1..] == before[i + 1..];
      j := j - 1;
    }
    SinkDone(a[..], i, j, column, ascending);
  }

  /** While `s[j]` sinks through `s[..i + 1]`, every pair is in order except those involving `s[j]`,
      and `s[j]` is in order with everything after it. */
  ghost predicate Sinking(s: seq<Row>, i: int, j: int, column: int, ascending: bool)
    requires 0 <= j <= i < |s|
  {
    && (forall k, l :: 0 <= k < l <= i && k != j && l != j ==> !Precedes(column, ascending, s[l], s[k]))
    && (forall l :: j < l <= i ==> !Precedes(column, ascending, s[l], s[j]))
    && (forall k, l :: 0 <= k < j < l <= i ==> !Precedes(column, ascending, s[l], s[k]))
  }

  /** Exchanges `a[j - 1]` and `a[j]`. */
  method SwapAdjacent(a: array<Row>, j: int)
    requires 0 < j < a.Length
    modifies a
    ensures a[..] == old(a[..])[j - 1 := old(a[j])][j := old(a[j - 1])]
    ensures multiset(a[..]) == multiset(old(a[..]))
  {
    a[j - 1], a[j] := a[j], a[j - 1];
  }

  /** Before sinking, a sorted prefix `s[..i]` leaves only pairs involving `s[i]` unchecked. */
  lemma SinkStart(s: seq<Row>, i: int, column: int, ascending: bool)
    requires 0 <= i < |s| && SortedBy(s[..i], column, ascending)
    ensures Sinking(s, i, i, column, ascending)
  {
    forall k, l | 0 <= k < l < i
      ensures !Precedes(column, ascending, s[l], s[k])
    {
      assert s[..i][k] == s[k] && s[..i][l] == s[l];
    }
  }

  /** Swapping `s[j]` with a predecessor it precedes moves the sinking row one place down. */
  lemma SinkStep(s: seq<Row>, i: int, j: int, column: int, ascending: bool)
    requires 0 < j <= i < |s| && Sinking(s, i, j, column, ascending)
    requires Precedes(column, ascending, s[j], s[j - 1])
    ensures Sinking(s[j - 1 := s[j]][j := s[j - 1]], i, j - 1, column, ascending)
  {
    PrecedesAsymmetric(column, ascending, s[j], s[j - 1]);
  }

  /** Once the sinking row does not precede its predecessor, the whole prefix is sorted. */
  lemma SinkDone(s: seq<Row>, i: int, j: int, column: int, ascending: bool)
    requires 0 <= j <= i < |s| && Sinking(s, i, j, column, ascending)
    requires j == 0 || !Precedes(column, ascending, s[j], s[j - 1])
    ensures SortedBy(s[..i + 1], column, ascending)
  {
    forall k | 0 <= k < j
      ensures !Precedes(column, ascending, s[j], s[k])
    {
      if k < j - 1 {
        NotPrecedesTransitive(column, ascending, s[k], s[j - 1], s[j]);
      }
    }
  }

  /** Sorted on column 0, the levels run non-decreasing when ascending and non-increasing otherwise. */
  lemma SortedByLevel(s: seq<Row>, ascending: bool, i: int, j: int)
    requires SortedBy(s, 0, ascending)
    requires 0 <= i < j < |s|
    ensures if ascending then s[i].level <= s[j].level else s[i].level >= s[j].level
  {}

  /** Sorted on column 1, the time strings run non-decreasing when ascending and non-increasing otherwise. */
  lemma SortedByTime(s: seq<Row>, ascending: bool, i: int, j: int)
    requires SortedBy(s, 1, ascending)
    requires 0 <= i < j < |s|
    ensures s[i].time == s[j].time || (if ascending then StrLess(s[i].time, s[j].time) else StrLess(s[j].time, s[i].time))
  {
    assert !Precedes(1, ascending, s[j], s[i]);
    if s[i].time != s[j].time {
      StrLessTotal(s[i].time, s[j].time);
    }
  }

  /** Sorted by level, in either direction, rows of one level stand together. */
  lemma SortedByLevelGroups(s: seq<Row>, ascending: bool, i: int, j: int, k: int)
    requires SortedBy(s, 0, ascending)
    requires 0 <= i < j < k < |s| && s[i].level == s[k].level
    ensures s[j].level == s[i].level
  {
    SortedByLevel(s, ascending, i, j);
    SortedByLevel(s, ascending, j, k);
    assert s[i].level as int == s[k].level as int;
  }

  /** `s` back to front. */
  function Reversed(s: seq<Row>): (r: seq<Row>)
    ensures |r| == |s|
  {
    if s == [] then [] else [s[|s| - 1]] + Reversed(s[..|s| - 1])
  }

  lemma {:induction false} ReversedAt(s: seq<Row>, i: int)
    requires 0 <= i < |s|
    ensures Reversed(s)[i] == s[|s| - 1 - i]
  {
    if i > 0 {
      ReversedAt(s[..|s| - 1], i - 1);
    }
  }

  lemma {:induction false} ReversedMultiset(s: seq<Row>)
    ensures multiset(Reversed(s)) == multiset(s)
  {
    if s != [] {
      ReversedMultiset(s[..|s| - 1]);
      assert s == s[..|s| - 1] + [s[|s| - 1]];
    }
  }

  /** Any two different rows of `s` are ordered one way or the other. */
  ghost predicate Comparable(s: seq<Row>, column: int, ascending: bool) {
    forall i, j :: 0 <= i < |s| && 0 <= j < |s| && s[i] != s[j] ==>
      Precedes(column, ascending, s[i], s[j]) || Precedes(column, ascending, s[j], s[i])
  }

  /** Two sorted arrangements of the same rows start with the same row when the comparator
      orders every two different rows. */
  lemma SortedHeadsAgree(s: seq<Row>, t: seq<Row>, column: int, ascending: bool)
    requires SortedBy(s, column, ascending) && SortedBy(t, column, ascending)
    requires multiset(s) == multiset(t) && s != []
    requires Comparable(s, column, ascending)
    ensures t != [] && s[0] == t[0]
  {
    assert s[0] in multiset(t);
    assert t[0] in multiset(s);
    var k :| 0 <= k < |s| && s[k] == t[0];
    var m :| 0 <= m < |t| && t[m] == s[0];
    if s[0] != t[0] {
      // then k > 0 and m > 0, so each of s[0] and t[0] must not precede the other: impossible
      assert false;
    }
  }

  /** Dropping the same first row from two arrangements of the same rows leaves arrangements of the same rows. */
  lemma TailsSameRows(s: seq<Row>, t: seq<Row>)
    requires multiset(s) == multiset(t) && s != [] && t != [] && s[0] == t[0]
    ensures multiset(s[1..]) == multiset(t[1..])
  {
    assert s == [s[0]] + s[1..] && t == [t[0]] + t[1..];
    assert multiset(s[1..]) == multiset(s) - multiset{s[0]};
    assert multiset(t[1..]) == multiset(t) - multiset{t[0]};
  }

  /** When the comparator orders every two different rows, there is only one sorted arrangement. */
  lemma {:induction false} SortedPermutationUnique(s: seq<Row>, t: seq<Row>, column: int, ascending: bool)
    requires SortedBy(s, column, ascending) && SortedBy(t, column, ascending)
    requires multiset(s) == multiset(t)
    requires Comparable(s, column, ascending)
    ensures s == t
  {
    if s == [] {
      assert |t| == |multiset(t)| == 0;
    } else {
      SortedHeadsAgree(s, t, column, ascending);
      TailsSameRows(s, t);
      SortedPermutationUnique(s[1..], t[1..], column, ascending);
      assert s == [s[0]] + s[1..] && t == [t[0]] + t[1..];
    }
  }

  /** Reversing a sequence sorted by time ascending gives one sorted by time descending. */
  lemma ReversedSortedByTime(s: seq<Row>)
    requires SortedBy(s, 1, true)
    ensures SortedBy(Reversed(s), 1, false)
  {
    var r := Reversed(s);
    forall i, j | 0 <= i < j < |r|
      ensures !Precedes(1, false, r[j], r[i])
    {
      ReversedAt(s, i);
      ReversedAt(s, j);
    }
  }

  /** With pairwise different times, any two different rows of the reversal are ordered by time. */
  lemma ReversedComparableByTime(s: seq<Row>)
    requires forall i, j :: 0 <= i < j < |s| ==> s[i].time != s[j].time
    ensures Comparable(Reversed(s), 1, false)
  {
    var r := Reversed(s);
    forall i, j | 0 <= i < |r| && 0 <= j < |r| && r[i] != r[j]
      ensures Precedes(1, false, r[i], r[j]) || Precedes(1, false, r[j], r[i])
    {
      ReversedAt(s, i);
      ReversedAt(s, j);
      var a, b := |s| - 1 - i, |s| - 1 - j;
      assert r[i].time != r[j].time by {
        if a < b {
          assert s[a].time != s[b].time;
        } else {
          assert s[b].time != s[a].time;
        }
      }
      StrLessTotal(r[i].time, r[j].time);
    }
  }

  /** Rows with pairwise different time strings, sorted by time ascending and then sorted by time
      descending, end up in exactly the reverse order. */
  lemma AscendingThenDescendingReverses(s: seq<Row>, t: seq<Row>)
    requires SortedBy(s, 1, true)
    requires forall i, j :: 0 <= i < j < |s| ==> s[i].time != s[j].time
    requires multiset(t) == multiset(s) && SortedBy(t, 1, false)
    ensures t == Reversed(s)
  {
    ReversedMultiset(s);
    ReversedSortedByTime(s);
    ReversedComparableByTime(s);
    SortedPermutationUnique(Reversed(s), t, 1, false);
  }
}
