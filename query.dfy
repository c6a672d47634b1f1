/**
 * The parts of a database query the handlers use: `where` (a filter that
 * keeps the table order), `orderBy: { createdAt: 'desc' }` (tables are kept
 * in creation order, so newest first is the reverse), `take` and a cursor
 * with `skip: 1`.
 */
module Query {
  import opened Wrappers
  import opened ApiTypes

  /** `where`: the rows that satisfy `keep`, in table order. */
  function Filter<T>(s: seq<T>, keep: T -> bool): (r: seq<T>)
    ensures |r| <= |s|
    ensures forall i :: 0 <= i < |r| ==> r[i] in s && keep(r[i])
    ensures forall i :: 0 <= i < |s| && keep(s[i]) ==> s[i] in r
  {
    if s == [] then []
    else if keep(s[0]) then [s[0]] + Filter(s[1..], keep)
    else Filter(s[1..], keep)
  }

  /** `orderBy: { createdAt: 'desc' }` over rows stored in creation order. */
  function Newest<T>(s: seq<T>): (r: seq<T>)
    ensures |r| == |s|
    ensures forall i :: 0 <= i < |s| ==> r[i] == s[|s| - 1 - i]
  {
    if s == [] then [] else Newest(s[1..]) + [s[0]]
  }

  function Min(a: nat, b: nat): nat {
    if a <= b then a else b
  }

  /** `take: n`: the first `n` rows, or all of them when there are fewer. */
  function Take<T>(s: seq<T>, n: nat): (r: seq<T>)
    ensures |r| == Min(n, |s|)
    ensures forall i :: 0 <= i < |r| ==> r[i] == s[i]
  {
    if n < |s| then s[..n] else s
  }

  /** The position of the first row whose key is `id`. */
  function IndexOf<T>(s: seq<T>, key: T -> Id, id: Id): (k: Option<nat>)
    ensures k.Some? ==> k.value < |s| && key(s[k.value]) == id
    ensures k.Some? ==> forall j :: 0 <= j < k.value ==> key(s[j]) != id
    ensures k.None? ==> forall j :: 0 <= j < |s| ==> key(s[j]) != id
  {
    if s == [] then None
    else if key(s[0]) == id then Some(0)
    else
      var k := IndexOf(s[1..], key, id);
      if k.None? then None else Some(k.value + 1)
  }


  /** `skip: n`: the rows after the first `n`. */
  function Skip<T>(s: seq<T>, n: nat): (r: seq<T>)
    ensures |r| == |s| - Min(n, |s|)
    ensures forall i :: 0 <= i < |r| ==> r[i] == s[Min(n, |s|) + i]
  {
    if n < |s| then s[n..] else []
  }

  /**
   * The rows a listing takes its page from, newest first. Without a cursor:
   * every row that satisfies `keep`. With `cursor: { id }, skip: 1`: the
   * cursor row is looked up in the whole table, the rows created up to and
   * including it that satisfy `keep` are taken, and the first of them is
   * skipped. A cursor naming no row leaves nothing.
   */
  function Candidates<T>(s: seq<T>, keep: T -> bool, key: T -> Id, cursor: Option<Id>): (r: seq<T>)
    ensures cursor.None? ==> |r| == |Filter(s, keep)|
    ensures cursor.Some? && IndexOf(s, key, cursor.value).None? ==> r == []
  {
    if cursor.None? then Newest(Filter(s, keep))
    else
      match IndexOf(s, key, cursor.value)
      case None => []
      case Some(k) => Skip(Newest(Filter(s[..k + 1], keep)), 1)
  }

  /** `findMany({ where, orderBy: { createdAt: 'desc' }, take: limit, cursor, skip: 1 })`. */
  function Listing<T>(s: seq<T>, keep: T -> bool, key: T -> Id, cursor: Option<Id>, limit: nat): (page: seq<T>)
    ensures |page| <= limit
    ensures cursor.None? ==> |page| == Min(limit, |Filter(s, keep)|)
    ensures cursor.Some? && IndexOf(s, key, cursor.value).None? ==> page == []
  {
    Take(Candidates(s, keep, key, cursor), limit)
  }

  // ------------------------------------------------------------------ lemmas

  /** Rows in strictly increasing key order: creation order, as ids are handed out. */
  predicate Ascending<T>(s: seq<T>, key: T -> Id) {
    forall i, j :: 0 <= i < j < |s| ==> key(s[i]) < key(s[j])
  }

  /** Rows in strictly decreasing key order: newest first. */
  predicate Descending<T>(s: seq<T>, key: T -> Id) {
    forall i, j :: 0 <= i < j < |s| ==> key(s[i]) > key(s[j])
  }

  /** In an ascending table, a key identifies one row. */
  lemma AscendingKeysDistinct<T>(s: seq<T>, key: T -> Id, i: nat, j: nat)
    requires Ascending(s, key) && i < |s| && j < |s| && key(s[i]) == key(s[j])
    ensures i == j
  {
  }

  /** A filter keeps rows in creation order. */
  lemma {:induction false} FilterAscending<T>(s: seq<T>, keep: T -> bool, key: T -> Id)
    requires Ascending(s, key)
    ensures Ascending(Filter(s, keep), key)
    decreases |s|
  {
    if s != [] {
      var rest := s[1..];
      assert Ascending(rest, key) by {
        forall i, j | 0 <= i < j < |rest| ensures key(rest[i]) < key(rest[j]) {
          assert rest[i] == s[i + 1] && rest[j] == s[j + 1];
        }
      }
      forall i | 0 <= i < |rest| ensures key(s[0]) < key(rest[i]) {
        assert rest[i] == s[i + 1];
      }
      FilterAscending(rest, keep, key);
      FilterKeysAbove(rest, keep, key, key(s[0]));
      var f := Filter(rest, keep);
      if keep(s[0]) {
        var r := [s[0]] + f;
        assert Filter(s, keep) == r;
        forall i, j | 0 <= i < j < |r| ensures key(r[i]) < key(r[j]) {
          assert r[j] == f[j - 1];
          if i > 0 {
            assert r[i] == f[i - 1];
          }
        }
      } else {
        assert Filter(s, keep) == f;
      }
    }
  }

  /** A filter keeps only rows of the table, so a bound on every key of the table bounds the kept keys. */
  lemma {:induction false} FilterKeysAbove<T>(s: seq<T>, keep: T -> bool, key: T -> Id, b: Id)
    requires forall i :: 0 <= i < |s| ==> b < key(s[i])
    ensures forall i :: 0 <= i < |Filter(s, keep)| ==> b < key(Filter(s, keep)[i])
    decreases |s|
  {
    if s != [] {
      FilterKeysAbove(s[1..], keep, key, b);
    }
  }

  /** Newest first: rows in creation order come out in decreasing key order. */
  lemma NewestDescending<T>(s: seq<T>, key: T -> Id)
    requires Ascending(s, key)
    ensures Descending(Newest(s), key)
  {
    var r := Newest(s);
    forall i, j | 0 <= i < j < |r| ensures key(r[i]) > key(r[j]) {
      assert r[i] == s[|s| - 1 - i] && r[j] == s[|s| - 1 - j];
    }
  }

  /** The number of rows a filter keeps grows by one when a kept row is appended and is otherwise unchanged. */
  lemma {:induction false} FilterAppend<T>(s: seq<T>, x: T, keep: T -> bool)
    ensures Filter(s + [x], keep) == Filter(s, keep) + (if keep(x) then [x] else [])
    decreases |s|
  {
    if s == [] {
      assert s + [x] == [x];
    } else {
      assert (s + [x])[1..] == s[1..] + [x];
      FilterAppend(s[1..], x, keep);
    }
  }

  /** The filter of a table below a key bound stays below it. */
  lemma {:induction false} FilterKeysBelow<T>(s: seq<T>, keep: T -> bool, key: T -> Id, b: Id)
    requires forall i :: 0 <= i < |s| ==> key(s[i]) < b
    ensures forall i :: 0 <= i < |Filter(s, keep)| ==> key(Filter(s, keep)[i]) < b
    decreases |s|
  {
    if s != [] {
      FilterKeysBelow(s[1..], keep, key, b);
    }
  }

  lemma NewestSnoc<T>(s: seq<T>, x: T)
    ensures Newest(s + [x]) == [x] + Newest(s)
  {
    var r := Newest(s + [x]);
    forall i | 0 <= i < |r| ensures r[i] == ([x] + Newest(s))[i] {
      if i > 0 {
        assert r[i] == (s + [x])[|s| - i] == s[|s| - 1 - (i - 1)];
      }
    }
  }

  /**
   * With a cursor on row `k`, the candidates are the matching rows created
   * before it, newest first. When the cursor row does not match itself,
   * `skip: 1` drops the newest of them instead of the cursor row.
   */
  lemma CursorCandidates<T>(s: seq<T>, keep: T -> bool, key: T -> Id, c: Id, k: nat)
    requires IndexOf(s, key, c) == Some(k)
    ensures keep(s[k]) ==> Candidates(s, keep, key, Some(c)) == Newest(Filter(s[..k], keep))
    ensures !keep(s[k]) ==> Candidates(s, keep, key, Some(c)) == Skip(Newest(Filter(s[..k], keep)), 1)
  {
    assert s[..k + 1] == s[..k] + [s[k]];
    FilterAppend(s[..k], s[k], keep);
    if keep(s[k]) {
      var f := Filter(s[..k], keep);
      NewestSnoc(f, s[k]);
      assert Skip([s[k]] + Newest(f), 1) == Newest(f);
    } else {
      assert Filter(s[..k] + [s[k]], keep) == Filter(s[..k], keep);
    }
  }

  /** In an ascending table, the rows before row `k` are exactly the rows with a smaller key. */
  lemma AscendingPrefix<T>(s: seq<T>, key: T -> Id, k: nat)
    requires Ascending(s, key) && k < |s|
    ensures Ascending(s[..k], key)
    ensures forall i :: 0 <= i < k ==> key(s[..k][i]) < key(s[k])
    ensures forall x :: x in s && key(x) < key(s[k]) ==> x in s[..k]
  {
    forall x | x in s && key(x) < key(s[k]) ensures x in s[..k] {
      var m :| 0 <= m < |s| && s[m] == x;
      assert s[..k][m] == x;
    }
  }

  /** Newest first over matching rows of an ascending table: rows of the table, matching, in decreasing key order. */
  lemma NewestFilterSound<T>(s: seq<T>, keep: T -> bool, key: T -> Id)
    requires Ascending(s, key)
    ensures var r := Newest(Filter(s, keep));
      (forall i :: 0 <= i < |r| ==> r[i] in s && keep(r[i])) && Descending(r, key)
  {
    FilterAscending(s, keep, key);
    NewestDescending(Filter(s, keep), key);
  }

  /** A matching row of the table is among the matching rows, newest first. */
  lemma NewestFilterComplete<T>(s: seq<T>, keep: T -> bool, x: T)
    requires x in s && keep(x)
    ensures x in Newest(Filter(s, keep))
  {
    var f := Filter(s, keep);
    var m :| 0 <= m < |s| && s[m] == x;
    assert x in f;
    var j :| 0 <= j < |f| && f[j] == x;
    assert Newest(f)[|f| - 1 - j] == x;
  }

  /** Every candidate is a matching row, candidates come newest first, and all are older than the cursor row. */
  lemma CandidatesSound<T>(s: seq<T>, keep: T -> bool, key: T -> Id, cursor: Option<Id>)
    requires Ascending(s, key)
    ensures var r := Candidates(s, keep, key, cursor);
      && (forall i :: 0 <= i < |r| ==> r[i] in s && keep(r[i]))
      && Descending(r, key)
      && (cursor.Some? ==> forall i :: 0 <= i < |r| ==> key(r[i]) < cursor.value)
  {
    if cursor.None? {
      NewestFilterSound(s, keep, key);
    } else if IndexOf(s, key, cursor.value).Some? {
      var k := IndexOf(s, key, cursor.value).value;
      CursorCandidates(s, keep, key, cursor.value, k);
      AscendingPrefix(s, key, k);
      NewestFilterSound(s[..k], keep, key);
      FilterKeysBelow(s[..k], keep, key, cursor.value);
      SkipSound(Newest(Filter(s[..k], keep)), s, keep, key, cursor.value);
    }
  }

  lemma SkipSound<T>(r: seq<T>, s: seq<T>, keep: T -> bool, key: T -> Id, b: Id)
    requires forall i :: 0 <= i < |r| ==> r[i] in s && keep(r[i]) && key(r[i]) < b
    requires Descending(r, key)
    ensures var q := Skip(r, 1);
      (forall i :: 0 <= i < |q| ==> q[i] in s && keep(q[i]) && key(q[i]) < b) && Descending(q, key)
  {
    var q := Skip(r, 1);
    forall i, j | 0 <= i < j < |q| ensures key(q[i]) > key(q[j]) {
      assert q[i] == r[1 + i] && q[j] == r[1 + j];
    }
  }

  /**
   * A row is a candidate when it matches and, if a cursor is given whose
   * own row `y` matches too, it is older than `y`.
   */
  lemma CandidatesComplete<T>(s: seq<T>, keep: T -> bool, key: T -> Id, y: T, x: T)
    requires Ascending(s, key)
    requires y in s && keep(y) && x in s && keep(x) && key(x) < key(y)
    ensures x in Candidates(s, keep, key, Some(key(y)))
  {
    var k := IndexOf(s, key, key(y)).value;
    var m :| 0 <= m < |s| && s[m] == y;
    AscendingKeysDistinct(s, key, k, m);
    CursorCandidates(s, keep, key, key(y), k);
    AscendingPrefix(s, key, k);
    NewestFilterComplete(s[..k], keep, x);
  }

  /** A page full of rows newer than `x`: the only way a candidate `x` can be missing from it. */
  predicate FullAbove<T>(page: seq<T>, limit: nat, key: T -> Id, x: T) {
    |page| == limit && forall i :: 0 <= i < |page| ==> key(x) < key(page[i])
  }

  /** `take` of a newest-first list keeps a row unless the page is already full of newer rows. */
  lemma TakeComplete<T>(r: seq<T>, key: T -> Id, limit: nat, x: T)
    requires Descending(r, key) && x in r
    ensures x in Take(r, limit) || FullAbove(Take(r, limit), limit, key, x)
  {
    var j :| 0 <= j < |r| && r[j] == x;
    var page := Take(r, limit);
    if j < |page| {
      assert page[j] == x;
    } else {
      forall i | 0 <= i < |page| ensures key(x) < key(page[i]) {
        assert page[i] == r[i];
      }
    }
  }

  /**
   * A listing over a table in creation order: rows of the table that satisfy
   * the filter, newest first, at most `limit`, all older than the cursor row.
   */
  lemma ListingPage<T>(s: seq<T>, keep: T -> bool, key: T -> Id, cursor: Option<Id>, limit: nat)
    requires Ascending(s, key)
    ensures var page := Listing(s, keep, key, cursor, limit);
      && |page| <= limit
      && (forall i :: 0 <= i < |page| ==> page[i] in s && keep(page[i]))
      && Descending(page, key)
      && (cursor.Some? ==> forall i :: 0 <= i < |page| ==> key(page[i]) < cursor.value)
  {
    var r := Candidates(s, keep, key, cursor);
    var page := Take(r, limit);
    CandidatesSound(s, keep, key, cursor);
    forall i, j | 0 <= i < j < |page| ensures key(page[i]) > key(page[j]) {
      assert page[i] == r[i] && page[j] == r[j];
    }
  }

  /**
   * Nothing is missed: without a cursor, every matching row is listed unless
   * the page is full of newer rows; with a cursor on a matching row `y`, the
   * same holds of every matching row older than `y`.
   */
  lemma ListingComplete<T>(s: seq<T>, keep: T -> bool, key: T -> Id, limit: nat, x: T)
    requires Ascending(s, key)
    requires x in s && keep(x)
    ensures var page := Listing(s, keep, key, None, limit);
      x in page || FullAbove(page, limit, key, x)
    ensures forall y :: y in s && keep(y) && key(x) < key(y) ==>
      var page := Listing(s, keep, key, Some(key(y)), limit);
      x in page || FullAbove(page, limit, key, x)
  {
    NewestFilterComplete(s, keep, x);
    NewestFilterSound(s, keep, key);
    TakeComplete(Newest(Filter(s, keep)), key, limit, x);
    forall y | y in s && keep(y) && key(x) < key(y)
      ensures x in Listing(s, keep, key, Some(key(y)), limit) || FullAbove(Listing(s, keep, key, Some(key(y)), limit), limit, key, x)
    {
      CandidatesComplete(s, keep, key, y, x);
      CandidatesSound(s, keep, key, Some(key(y)));
      TakeComplete(Candidates(s, keep, key, Some(key(y))), key, limit, x);
    }
  }

  /**
   * A cursor whose own row does not match (a comment of another post, a post
   * of another author) still starts the page at its place in the table, and
   * `skip: 1` then drops the newest matching row created before it.
   */
  lemma ForeignCursorSkipsNewest<T>(s: seq<T>, keep: T -> bool, key: T -> Id, y: T, x: T, limit: nat)
    requires Ascending(s, key)
    requires y in s && !keep(y)
    requires x in s && keep(x) && key(x) < key(y)
    requires forall z :: z in s && keep(z) && key(z) < key(y) ==> key(z) <= key(x)
    ensures var page := Listing(s, keep, key, Some(key(y)), limit);
      forall i :: 0 <= i < |page| ==> key(page[i]) < key(x)
  {
    var k := IndexOf(s, key, key(y)).value;
    var m :| 0 <= m < |s| && s[m] == y;
    AscendingKeysDistinct(s, key, k, m);
    CursorCandidates(s, keep, key, key(y), k);
    AscendingPrefix(s, key, k);
    NewestFilterSound(s[..k], keep, key);
    var n := Newest(Filter(s[..k], keep));
    var page := Listing(s, keep, key, Some(key(y)), limit);
    if n != [] {
      var top := n[0];
      assert top in s[..k] && keep(top);
      var t :| 0 <= t < k && s[..k][t] == top;
      assert top in s && key(top) < key(y);
      assert key(top) <= key(x);
      forall i | 0 <= i < |page| ensures key(page[i]) < key(x) {
        assert page[i] == n[1 + i];
      }
    }
  }
}
