/**
 * Table-level helpers shared by the store model: a table is a sequence of rows in
 * rowid (insertion) order, keyed by an integer primary key.
 */
module Rows {

  datatype Option<+T> = None | Some(value: T)

  /** The primary keys present in a table. */
  function KeySet<T(==)>(s: seq<T>, key: T -> int): set<int>
  {
    set x | x in s :: key(x)
  }

  /** Primary keys grow with rowid, as an AUTOINCREMENT column does; in particular they are unique. */
  ghost predicate StrictlyIncreasing<T>(s: seq<T>, key: T -> int)
  {
    forall i, j :: 0 <= i < j < |s| ==> key(s[i]) < key(s[j])
  }

  /** Every key lies below the next value of the table's sequence. */
  ghost predicate KeysBelow<T(!new)>(s: seq<T>, key: T -> int, next: int)
  {
    forall x :: x in s ==> key(x) < next
  }

  /** The rows of `s` that satisfy `p`, in table order (a `Where` over the table). */
  function Filter<T(==,!new)>(s: seq<T>, p: T -> bool): (r: seq<T>)
    ensures |r| <= |s|
    ensures forall x :: x in r <==> x in s && p(x)
  {
    if s == [] then []
    else if p(s[0]) then [s[0]] + Filter(s[1..], p)
    else Filter(s[1..], p)
  }

  /** The position of the first row whose key is `k`, or `|s|` when there is none. */
  function IndexOfKey<T>(s: seq<T>, key: T -> int, k: int): (i: nat)
    ensures i <= |s|
    ensures i < |s| ==> key(s[i]) == k
    ensures forall j :: 0 <= j < i ==> key(s[j]) != k
  {
    if s == [] then 0
    else if key(s[0]) == k then 0
    else 1 + IndexOfKey(s[1..], key, k)
  }

  /** A lookup by primary key (`Find` / `FirstOrDefault(x => x.Id == k)`). */
  function FindByKey<T(==)>(s: seq<T>, key: T -> int, k: int): (r: Option<T>)
    ensures r.Some? <==> k in KeySet(s, key)
    ensures r.Some? ==> r.value in s && key(r.value) == k
  {
    var i := IndexOfKey(s, key, k);
    if i < |s| then Some(s[i]) else None
  }

  /** The first row, in table order, that satisfies `p` (`FirstOrDefault(p)` with no ORDER BY). */
  function First<T(==,!new)>(s: seq<T>, p: T -> bool): (r: Option<T>)
    ensures r.None? <==> forall x :: x in s ==> !p(x)
    ensures r.Some? ==> r.value in s && p(r.value)
    ensures r.Some? ==> exists i :: 0 <= i < |s| && s[i] == r.value && forall j :: 0 <= j < i ==> !p(s[j])
  {
    if s == [] then None
    else if p(s[0]) then Some(s[0])
    else
      var r := First(s[1..], p);
      if r.Some? then
        ghost var i :| 0 <= i < |s[1..]| && s[1..][i] == r.value && forall j :: 0 <= j < i ==> !p(s[1..][j]);
        assert s[i + 1] == r.value;
        assert forall j :: 0 <= j < i + 1 ==> !p(s[j]) by {
          forall j | 0 <= j < i + 1 ensures !p(s[j]) {
            if j > 0 { assert s[j] == s[1..][j - 1]; }
          }
        }
        r
      else r
  }

  /** Under unique keys, looking up a row's own key finds that row. */
  lemma {:induction false} FindMember<T>(s: seq<T>, key: T -> int, x: T)
    requires StrictlyIncreasing(s, key)
    requires x in s
    ensures FindByKey(s, key, key(x)) == Some(x)
  {
    var i := IndexOfKey(s, key, key(x));
    var j :| 0 <= j < |s| && s[j] == x;
    assert i <= j;
  }

  /** Under unique keys, a key determines its row. */
  lemma KeyDetermines<T>(s: seq<T>, key: T -> int, x: T, y: T)
    requires StrictlyIncreasing(s, key)
    requires x in s && y in s && key(x) == key(y)
    ensures x == y
  {
    var i :| 0 <= i < |s| && s[i] == x;
    var j :| 0 <= j < |s| && s[j] == y;
    assert !(i < j) && !(j < i);
  }

  /** A filtered table keeps its keys increasing. */
  lemma {:induction false} FilterIncreasing<T(!new)>(s: seq<T>, key: T -> int, p: T -> bool)
    requires StrictlyIncreasing(s, key)
    ensures StrictlyIncreasing(Filter(s, p), key)
  {
    if s != [] {
      var tail := Filter(s[1..], p);
      FilterIncreasing(s[1..], key, p);
      if p(s[0]) {
        var r := [s[0]] + tail;
        forall i, j | 0 <= i < j < |r| ensures key(r[i]) < key(r[j]) {
          assert r[j] == tail[j - 1];
          assert r[j] in s[1..];
          if i > 0 { assert r[i] == tail[i - 1]; }
          else {
            var k :| 0 <= k < |s[1..]| && s[1..][k] == r[j];
            assert s[k + 1] == r[j];
          }
        }
      }
    }
  }

  /** Appending a row whose key is the next sequence value keeps keys increasing and below the new next value. */
  lemma AppendFresh<T(!new)>(s: seq<T>, key: T -> int, x: T, next: int)
    requires StrictlyIncreasing(s, key) && KeysBelow(s, key, next)
    requires key(x) == next
    ensures StrictlyIncreasing(s + [x], key)
    ensures KeysBelow(s + [x], key, next + 1)
    ensures KeySet(s + [x], key) == KeySet(s, key) + {next}
  {
    var r := s + [x];
    forall i, j | 0 <= i < j < |r| ensures key(r[i]) < key(r[j]) {
      if j == |s| { assert r[i] in s; }
    }
  }

  /** Replacing a row by one with the same key changes neither the key set nor the key order. */
  lemma UpdateSameKey<T(!new)>(s: seq<T>, key: T -> int, i: nat, x: T, next: int)
    requires i < |s| && key(x) == key(s[i])
    requires StrictlyIncreasing(s, key) && KeysBelow(s, key, next)
    ensures StrictlyIncreasing(s[i := x], key)
    ensures KeysBelow(s[i := x], key, next)
    ensures KeySet(s[i := x], key) == KeySet(s, key)
  {
    var r := s[i := x];
    forall k | k in KeySet(s, key) ensures k in KeySet(r, key) {
      var y :| y in s && key(y) == k;
      var j :| 0 <= j < |s| && s[j] == y;
      assert key(r[j]) == k;
    }
    forall y | y in r ensures key(y) < next && key(y) in KeySet(s, key) {
      var j :| 0 <= j < |r| && r[j] == y;
      assert key(y) == key(s[j]);
    }
  }

  /** Filtering distributes over concatenation. */
  lemma {:induction false} FilterAppend<T(!new)>(a: seq<T>, b: seq<T>, p: T -> bool)
    ensures Filter(a + b, p) == Filter(a, p) + Filter(b, p)
  {
    if a != [] {
      assert (a + b)[1..] == a[1..] + b;
      FilterAppend(a[1..], b, p);
    } else {
      assert a + b == b;
    }
  }

  /** A filter that no row passes yields nothing; one that every row passes yields the table. */
  lemma {:induction false} FilterAllOrNone<T(!new)>(s: seq<T>, p: T -> bool)
    ensures (forall x :: x in s ==> !p(x)) ==> Filter(s, p) == []
    ensures (forall x :: x in s ==> p(x)) ==> Filter(s, p) == s
  {
    if s != [] {
      FilterAllOrNone(s[1..], p);
      assert s == [s[0]] + s[1..];
    }
  }
}
