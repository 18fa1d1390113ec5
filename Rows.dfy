/** The rows of the log and the filter that picks the rows a draw shows. */
module Rows {
  import opened Levels

  /** One entry of `rows`: the level, the bracketed time string and the message. */
  datatype Row = Row(level: Level, time: string, message: string)

  /** The rows a draw shows for a given mask: those whose level passes `visLevel & level`,
      in the order they have in the store. */
  function Visible(s: seq<Row>, mask: Mask): (r: seq<Row>)
    ensures |r| <= |s|
  {
    if s == [] then []
    else Visible(s[..|s| - 1], mask) + (if IsVisible(mask, s[|s| - 1].level) then [s[|s| - 1]] else [])
  }

  /** Filtering one row more of a prefix adds that row exactly when its level is visible. */
  lemma VisiblePrefixStep(s: seq<Row>, i: int, mask: Mask)
    requires 0 <= i < |s|
    ensures Visible(s[..i + 1], mask) == Visible(s[..i], mask) + (if IsVisible(mask, s[i].level) then [s[i]] else [])
  {
    assert s[..i + 1][..i] == s[..i];
  }

  /** A row is shown exactly when it is in the store and its level is visible. */
  lemma {:induction false} VisibleMembership(s: seq<Row>, mask: Mask, x: Row)
    ensures x in Visible(s, mask) <==> x in s && IsVisible(mask, x.level)
  {
    if s != [] {
      var init := s[..|s| - 1];
      VisibleMembership(init, mask, x);
      assert s == init + [s[|s| - 1]];
    }
  }

  /** The filter keeps order: filtering a concatenation filters each part in turn. */
  lemma {:induction false} VisibleAppend(s: seq<Row>, t: seq<Row>, mask: Mask)
    ensures Visible(s + t, mask) == Visible(s, mask) + Visible(t, mask)
  {
    if t == [] {
      assert s + t == s;
    } else {
      var init := t[..|t| - 1];
      VisibleAppend(s, init, mask);
      assert (s + t)[..|s + t| - 1] == s + init;
    }
  }

  /** Each shown row appears as often as it does in the store, or not at all if its level is hidden. */
  lemma {:induction false} VisibleCount(s: seq<Row>, mask: Mask, x: Row)
    ensures multiset(Visible(s, mask))[x] == if IsVisible(mask, x.level) then multiset(s)[x] else 0
  {
    if s != [] {
      var init := s[..|s| - 1];
      VisibleCount(init, mask, x);
      assert s == init + [s[|s| - 1]];
    }
  }

  /** What a draw shows does not depend on the order of the store, only on its contents:
      reordering the rows (as a sort does) reorders the shown rows the same way. */
  lemma VisibleIgnoresOrder(s: seq<Row>, t: seq<Row>, mask: Mask)
    requires multiset(s) == multiset(t)
    ensures multiset(Visible(s, mask)) == multiset(Visible(t, mask))
  {
    forall x: Row
      ensures multiset(Visible(s, mask))[x] == multiset(Visible(t, mask))[x]
    {
      VisibleCount(s, mask, x);
      VisibleCount(t, mask, x);
    }
  }

  /** With every level visible, every row of a named level is shown, in store order. */
  lemma {:induction false} VisibleAllLevels(s: seq<Row>, mask: Mask)
    requires mask & ALL_VISIBLE == ALL_VISIBLE
    requires forall i :: 0 <= i < |s| ==> IsNamed(s[i].level)
    ensures Visible(s, mask) == s
  {
    if s != [] {
      VisibleAllLevels(s[..|s| - 1], mask);
    }
  }
}
