/** The pieces of a database read that the controllers use: lookup by a
    condition, filtering in table order, reversal for a descending order and
    offset/limit pagination. */
module Query {

  /** The first row satisfying `p`, or -1 when no row does. */
  function FirstIndex<T>(s: seq<T>, p: T -> bool): (i: int)
    ensures -1 <= i < |s|
    ensures 0 <= i ==> p(s[i]) && forall k :: 0 <= k < i ==> !p(s[k])
    ensures i < 0 <==> forall k :: 0 <= k < |s| ==> !p(s[k])
  {
    if s == [] then -1
    else if p(s[0]) then 0
    else
      var k := FirstIndex(s[1..], p);
      if k < 0 then -1 else k + 1
  }

  /** The rows satisfying `p`, in table order. */
  function Filter<T(!new)>(s: seq<T>, p: T -> bool): (r: seq<T>)
    ensures |r| <= |s|
    ensures forall x :: x in r <==> x in s && p(x)
    ensures multiset(r) <= multiset(s)
  {
    if s == [] then []
    else
      assert s == [s[0]] + s[1..];
      if p(s[0]) then [s[0]] + Filter(s[1..], p) else Filter(s[1..], p)
  }

  /** The rows in the opposite order. */
  function Reverse<T>(s: seq<T>): (r: seq<T>)
    ensures |r| == |s|
    ensures forall i :: 0 <= i < |s| ==> r[i] == s[|s| - 1 - i]
  {
    if s == [] then [] else Reverse(s[1..]) + [s[0]]
  }

  lemma MulNonNegative(a: nat, b: nat)
    ensures a * b >= 0
  {
  }

  /** The number of rows skipped before page `page` when pages hold `limit` rows. */
  function Offset(limit: nat, page: int): (n: nat)
    requires page >= 1
  {
    MulNonNegative(page - 1, limit);
    (page - 1) * limit
  }

  function Min(a: int, b: int): int {
    if a <= b then a else b
  }

  /** Page `page` (counted from 1) of `rows` with `limit` rows per page: at
      most `limit` rows, taken in order from offset `(page - 1) * limit`. */
  function Paginate<T>(rows: seq<T>, limit: nat, page: int): (r: seq<T>)
    requires page >= 1
    ensures |r| <= limit
    ensures |r| == if Offset(limit, page) >= |rows| then 0 else Min(limit, |rows| - Offset(limit, page))
    ensures forall i :: 0 <= i < |r| ==> Offset(limit, page) + i < |rows| && r[i] == rows[Offset(limit, page) + i]
  {
    var offset := Offset(limit, page);
    if offset >= |rows| then [] else rows[offset .. Min(offset + limit, |rows|)]
  }

  /** A page holds rows of the listing only. */
  lemma PageWithin<T>(rows: seq<T>, limit: nat, page: int)
    requires page >= 1
    ensures forall x :: x in Paginate(rows, limit, page) ==> x in rows
  {
    var r := Paginate(rows, limit, page);
    forall x | x in r
      ensures x in rows
    {
      var i :| 0 <= i < |r| && r[i] == x;
      assert rows[Offset(limit, page) + i] == x;
    }
  }

  /** Consecutive pages are contiguous: page `page + 1` starts right where
      page `page` stops, so no row is skipped or shown twice between them. */
  lemma NextPageFollows<T>(rows: seq<T>, limit: nat, page: int)
    requires page >= 1
    ensures Offset(limit, page + 1) == Offset(limit, page) + limit
    ensures |Paginate(rows, limit, page + 1)| > 0 ==> |Paginate(rows, limit, page)| == limit
  {
    assert (page + 1 - 1) * limit == (page - 1) * limit + limit;
  }

  /** Every row lies on a page: with `limit > 0`, row `i` is row `i % limit`
      of page `i / limit + 1`. */
  lemma RowOnItsPage<T>(rows: seq<T>, limit: nat, i: nat)
    requires 0 < limit && i < |rows|
    ensures i / limit + 1 >= 1
    ensures i % limit < |Paginate(rows, limit, i / limit + 1)|
    ensures Paginate(rows, limit, i / limit + 1)[i % limit] == rows[i]
  {
    var page := i / limit + 1;
    assert Offset(limit, page) == (i / limit) * limit;
    assert (i / limit) * limit + i % limit == i;
  }
}
