/**
 * The query semantics the credential store relies on, over tables held as
 * sequences of rows in insertion order:
 *  - `Select` is `SELECT cols FROM rows WHERE where` (no ORDER BY, so rows
 *    come back in table order);
 *  - `UpdatedWhere` says what `UPDATE rows SET ... WHERE where` leaves behind;
 *  - `FindIndex` is JavaScript's `Array.prototype.find` (the first element
 *    the callback accepts), returning the position of that element.
 */
module Query {

  datatype Option<T> = None | Some(value: T)

  /** SELECT cols FROM rows WHERE where, in table order. */
  function Select<T, U>(rows: seq<T>, where: T -> bool, cols: T -> U): (r: seq<U>)
    ensures |r| <= |rows|
    ensures forall i :: 0 <= i < |rows| && where(rows[i]) ==> cols(rows[i]) in r
    ensures forall k :: 0 <= k < |r| ==>
              exists i :: 0 <= i < |rows| && where(rows[i]) && r[k] == cols(rows[i])
    ensures r == [] <==> forall i :: 0 <= i < |rows| ==> !where(rows[i])
    decreases |rows|
  {
    if rows == [] then []
    else
      var init, last := rows[..|rows| - 1], rows[|rows| - 1];
      assert forall i :: 0 <= i < |init| ==> init[i] == rows[i];
      Select(init, where, cols) + (if where(last) then [cols(last)] else [])
  }

  /**
   * UPDATE rows SET ... WHERE where: `after` is `before` with exactly the rows
   * selected by `where` rewritten by `change`, in place; no row is added,
   * deleted or moved.
   */
  ghost predicate UpdatedWhere<T>(before: seq<T>, after: seq<T>, where: T -> bool, change: T -> T) {
    && |after| == |before|
    && forall i :: 0 <= i < |before| ==>
         after[i] == if where(before[i]) then change(before[i]) else before[i]
  }

  /** The position of the first element `p` accepts, as `Array.prototype.find` scans. */
  function FindIndex<T>(s: seq<T>, p: T -> bool): (r: Option<nat>)
    ensures r.Some? ==> r.value < |s| && p(s[r.value]) && forall j :: 0 <= j < r.value ==> !p(s[j])
    ensures r.None? <==> forall j :: 0 <= j < |s| ==> !p(s[j])
  {
    if s == [] then None
    else if p(s[0]) then Some(0)
    else match FindIndex(s[1..], p)
      case None => None
      case Some(k) => Some(k + 1)
  }

  /** The first row a SELECT returns is taken from the first row the WHERE accepts. */
  lemma {:induction false} SelectFirst<T, U>(rows: seq<T>, where: T -> bool, cols: T -> U)
    ensures Select(rows, where, cols) != [] <==> FindIndex(rows, where).Some?
    ensures FindIndex(rows, where).Some? ==>
              Select(rows, where, cols)[0] == cols(rows[FindIndex(rows, where).value])
    decreases |rows|
  {
    if rows != [] {
      var init := rows[..|rows| - 1];
      assert forall i :: 0 <= i < |init| ==> init[i] == rows[i];
      SelectFirst(init, where, cols);
      FindIndexPrefix(rows, where);
    }
  }

  /** Dropping the last element changes a find only when that element was the first hit. */
  lemma FindIndexPrefix<T>(s: seq<T>, p: T -> bool)
    requires s != []
    ensures var init := s[..|s| - 1];
      match FindIndex(init, p)
      case Some(i) => FindIndex(s, p) == Some(i)
      case None => FindIndex(s, p) == if p(s[|s| - 1]) then Some(|s| - 1) else None
  {
    var init := s[..|s| - 1];
    assert forall i :: 0 <= i < |init| ==> init[i] == s[i];
  }

  /** Appending a row to a table appends at most that row to every SELECT over it. */
  lemma SelectAppend<T, U>(rows: seq<T>, x: T, where: T -> bool, cols: T -> U)
    ensures Select(rows + [x], where, cols) == Select(rows, where, cols) + (if where(x) then [cols(x)] else [])
  {
    assert (rows + [x])[..|rows|] == rows;
  }

  /** Two sequences on which `p` agrees position by position have the same first hit. */
  lemma FindIndexAgree<T>(s: seq<T>, t: seq<T>, p: T -> bool)
    requires |s| == |t|
    requires forall i :: 0 <= i < |s| ==> p(s[i]) == p(t[i])
    ensures FindIndex(s, p) == FindIndex(t, p)
  {
    var a, b := FindIndex(s, p), FindIndex(t, p);
    if a.Some? && b.Some? {
      assert !(a.value < b.value) && !(b.value < a.value);
    }
  }

  /** Row `x` and row `y` are alike as far as a SELECT with `where` and `cols` can tell. */
  ghost predicate SameSelection<T, U>(x: T, y: T, where: T -> bool, cols: T -> U) {
    where(x) == where(y) && (where(x) ==> cols(x) == cols(y))
  }

  /**
   * Two tables that agree, row by row, on which rows the WHERE accepts and on
   * the selected columns of those rows give the same SELECT result.
   */
  lemma {:induction false} SelectAgree<T, U>(s: seq<T>, t: seq<T>, where: T -> bool, cols: T -> U)
    requires |s| == |t|
    requires forall i :: 0 <= i < |s| ==> SameSelection(s[i], t[i], where, cols)
    ensures Select(s, where, cols) == Select(t, where, cols)
    decreases |s|
  {
    if s != [] {
      var n := |s| - 1;
      SameSelectionPrefix(s, t, where, cols, n);
      SelectAgree(s[..n], t[..n], where, cols);
      SelectLast(s, where, cols);
      SelectLast(t, where, cols);
      assert SameSelection(s[n], t[n], where, cols);
    }
  }

  /** Row-by-row agreement carries over to prefixes. */
  lemma SameSelectionPrefix<T, U>(s: seq<T>, t: seq<T>, where: T -> bool, cols: T -> U, n: nat)
    requires n <= |s| == |t|
    requires forall i :: 0 <= i < |s| ==> SameSelection(s[i], t[i], where, cols)
    ensures forall i :: 0 <= i < n ==> SameSelection(s[..n][i], t[..n][i], where, cols)
  {
    assert forall i :: 0 <= i < n ==> s[..n][i] == s[i] && t[..n][i] == t[i];
  }

  /** A SELECT unfolds at the last row of the table. */
  lemma SelectLast<T, U>(rows: seq<T>, where: T -> bool, cols: T -> U)
    requires rows != []
    ensures Select(rows, where, cols) ==
              Select(rows[..|rows| - 1], where, cols) + (if where(rows[|rows| - 1]) then [cols(rows[|rows| - 1])] else [])
  {
  }
}
