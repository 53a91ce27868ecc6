/*
 * The layered state of one grid cell (GridItem in gui.py): a stack of small
 * integer tags whose top is what the cell currently shows.  The stack itself
 * is a value here; the Grid in grid.dfy keeps one such value per cell.
 */
module CellStack {

  /** The tag on top of a stack: the cell's current appearance. */
  function Top(s: seq<int>): int
    requires s != []
  {
    s[|s| - 1]
  }

  /**
   * What popping "while the top equals v" leaves of `s`: the run of `v` tags
   * on top is removed and everything below it is kept.  The result is [] when
   * every entry equals `v`; that is the case in which the source asks an empty
   * list for its top and fails.
   */
  function PopWhile(s: seq<int>, v: int): (r: seq<int>)
    ensures r <= s
    ensures r == [] || Top(r) != v
    ensures forall i :: |r| <= i < |s| ==> s[i] == v
    decreases |s|
  {
    if s != [] && Top(s) == v then PopWhile(s[..|s| - 1], v) else s
  }

  /**
   * PopWhile removes exactly the maximal run of `v` on top: any prefix `p`
   * that stops below such a run (its own top is not `v`, and everything above
   * it is `v`) is what PopWhile returns.
   */
  lemma {:induction false} PopWhileIsMaximalRun(s: seq<int>, v: int, p: seq<int>)
    requires p <= s
    requires p == [] || Top(p) != v
    requires forall i :: |p| <= i < |s| ==> s[i] == v
    ensures PopWhile(s, v) == p
  {
    var r := PopWhile(s, v);
    assert p != [] ==> s[|p| - 1] != v;
    assert r != [] ==> s[|r| - 1] != v;
    assert |r| == |p|;
    assert r == s[..|r|] && p == s[..|p|];
  }

  /** A stack whose top is not `v` is left as it is. */
  lemma {:induction false} PopWhileNoop(s: seq<int>, v: int)
    requires s != [] && Top(s) != v
    ensures PopWhile(s, v) == s
  {
    PopWhileIsMaximalRun(s, v, s);
  }

  /** The stack drains completely exactly when every entry equals `v`. */
  lemma {:induction false} PopWhileDrains(s: seq<int>, v: int)
    ensures PopWhile(s, v) == [] <==> forall i :: 0 <= i < |s| ==> s[i] == v
  {
    var r := PopWhile(s, v);
    if r != [] {
      assert s[|r| - 1] == Top(r);
    }
  }

  /**
   * Pushing `v` onto a non-empty stack and then popping while the top is `v`
   * gives back the original stack exactly when that stack did not already
   * show `v`.  On an empty stack the pop drains it: that is the source's
   * IndexError, not a restoration.
   */
  lemma {:induction false} PushThenPopWhile(s: seq<int>, v: int)
    ensures s != [] ==> (PopWhile(s + [v], v) == s <==> Top(s) != v)
    ensures s == [] ==> PopWhile(s + [v], v) == []
  {
    var t := s + [v];
    assert t[..|t| - 1] == s;
    assert PopWhile(t, v) == PopWhile(s, v);
    if s != [] && Top(s) != v {
      PopWhileNoop(s, v);
    }
  }
}
