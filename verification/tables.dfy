/** The two ORM query shapes the services use, over a table held as a
    sequence of rows whose id is their position: `filter_by(...).first()`
    and `filter_by(...).all()`.  Without an ORDER BY the database returns
    rows in no promised order; this model reads them in id order. */
module Tables {
  import opened Results

  /** `query.filter(p).first()`: the lowest id whose row satisfies `p`. */
  function FindFirst<T>(rows: seq<T>, p: T -> bool): (r: Option<nat>)
    ensures r.None? <==> forall i :: 0 <= i < |rows| ==> !p(rows[i])
    ensures r.Some? ==> r.value < |rows| && p(rows[r.value])
    ensures r.Some? ==> forall j :: 0 <= j < r.value ==> !p(rows[j])
  {
    if |rows| == 0 then None
    else if p(rows[0]) then Some(0)
    else match FindFirst(rows[1..], p)
      case None => None
      case Some(k) => Some(k + 1)
  }

  /** `query.filter(p).all()`, as the ids of the matching rows in
      increasing order: every id listed matches, every matching id is
      listed, and none is listed twice. */
  function FilterIds<T>(rows: seq<T>, p: T -> bool): (r: seq<nat>)
    ensures forall k :: 0 <= k < |r| ==> r[k] < |rows| && p(rows[r[k]])
    ensures forall i :: 0 <= i < |rows| && p(rows[i]) ==> i in r
    ensures forall k, l :: 0 <= k < l < |r| ==> r[k] < r[l]
  {
    if |rows| == 0 then []
    else
      var front := FilterIds(rows[..|rows| - 1], p);
      var last := |rows| - 1;
      if p(rows[last]) then front + [last] else front
  }

  /** No two rows that satisfy `p` share a `key`: a (partial) unique index. */
  ghost predicate UniqueAmong<T, K>(rows: seq<T>, p: T -> bool, key: T -> K) {
    forall i, j :: 0 <= i < j < |rows| && p(rows[i]) && p(rows[j]) ==> key(rows[i]) != key(rows[j])
  }

  /** A unique key over the whole table. */
  ghost predicate UniqueBy<T, K>(rows: seq<T>, key: T -> K) {
    UniqueAmong(rows, (t: T) => true, key)
  }

  /** No element occurs twice. */
  ghost predicate Distinct<T>(s: seq<T>) {
    forall i, j :: 0 <= i < j < |s| ==> s[i] != s[j]
  }

  /** `[x for x in s if p(x)]`: keeps exactly the elements satisfying `p`,
      and keeps a list without repeats free of repeats. */
  function Keep<T>(s: seq<T>, p: T -> bool): (r: seq<T>)
    ensures forall k :: 0 <= k < |r| ==> r[k] in s && p(r[k])
    ensures forall x :: x in s && p(x) ==> x in r
    ensures Distinct(s) ==> Distinct(r)
  {
    if |s| == 0 then []
    else
      var front := Keep(s[..|s| - 1], p);
      var last := s[|s| - 1];
      assert forall x :: x in s[..|s| - 1] ==> x in s;
      assert forall x :: x in s ==> x in s[..|s| - 1] || x == last;
      if p(last) then front + [last] else front
  }
}
