/** Stable sorting by a comparator. It stands for both the `ORDER BY`
    clauses of the store's queries and the stable `Array.prototype.sort`
    the leaderboard uses. `le(a, b)` means "a may come before b". */
module Ordering {
  import opened Seqs

  /** `le` is total and transitive, so sorting by it is meaningful. */
  ghost predicate TotalPreorder<T(!new)>(le: (T, T) -> bool) {
    && (forall a, b :: le(a, b) || le(b, a))
    && (forall a, b, c :: le(a, b) && le(b, c) ==> le(a, c))
  }

  predicate SortedBy<T>(s: seq<T>, le: (T, T) -> bool) {
    forall i, j :: 0 <= i < j < |s| ==> le(s[i], s[j])
  }

  /** Places `x` in front of the first element it may precede. */
  function Insert<T>(x: T, s: seq<T>, le: (T, T) -> bool): (r: seq<T>)
    ensures multiset(r) == multiset(s) + multiset{x}
    ensures |r| == |s| + 1
  {
    if s == [] || le(x, s[0]) then [x] + s
    else
      assert s == [s[0]] + s[1..];
      [s[0]] + Insert(x, s[1..], le)
  }

  /** Insertion sort; an element goes in front of the elements it ties
      with, which keeps the sort stable. */
  function SortBy<T>(s: seq<T>, le: (T, T) -> bool): (r: seq<T>)
    ensures multiset(r) == multiset(s)
    ensures |r| == |s|
  {
    if s == [] then []
    else
      assert s == [s[0]] + s[1..];
      Insert(s[0], SortBy(s[1..], le), le)
  }

  lemma {:induction false} InsertSorted<T(!new)>(x: T, s: seq<T>, le: (T, T) -> bool)
    requires TotalPreorder(le)
    requires SortedBy(s, le)
    ensures SortedBy(Insert(x, s, le), le)
  {
    if s != [] && !le(x, s[0]) {
      InsertSorted(x, s[1..], le);
      var r := Insert(x, s[1..], le);
      forall y | y in r ensures le(s[0], y) {
        assert y in multiset(r);
        if y != x {
          assert y in multiset(s[1..]);
          var j :| 0 <= j < |s[1..]| && s[1..][j] == y;
          assert s[j + 1] == y;
        }
      }
      var whole := [s[0]] + r;
      forall i, j | 0 <= i < j < |whole| ensures le(whole[i], whole[j]) {
        if i == 0 {
          assert whole[j] == r[j - 1];
        } else {
          assert whole[i] == r[i - 1] && whole[j] == r[j - 1];
        }
      }
    }
  }

  /** The output of `SortBy` is ordered by `le`. */
  lemma {:induction false} SortBySorted<T(!new)>(s: seq<T>, le: (T, T) -> bool)
    requires TotalPreorder(le)
    ensures SortedBy(SortBy(s, le), le)
  {
    if s != [] {
      SortBySorted(s[1..], le);
      InsertSorted(s[0], SortBy(s[1..], le), le);
    }
  }

  /** `a` and `b` tie under `le`. */
  predicate Tied<T>(le: (T, T) -> bool, a: T, b: T) {
    le(a, b) && le(b, a)
  }

  /** The elements of `s` tied with `e`, in their order in `s`. */
  function TiesOf<T>(s: seq<T>, le: (T, T) -> bool, e: T): seq<T> {
    if s == [] then []
    else (if Tied(le, s[0], e) then [s[0]] else []) + TiesOf(s[1..], le, e)
  }

  lemma {:induction false} TiesOfAppend<T>(a: seq<T>, b: seq<T>, le: (T, T) -> bool, e: T)
    ensures TiesOf(a + b, le, e) == TiesOf(a, le, e) + TiesOf(b, le, e)
  {
    if a != [] {
      assert (a + b)[1..] == a[1..] + b;
      TiesOfAppend(a[1..], b, le, e);
    } else {
      assert a + b == b;
    }
  }

  lemma TiesOfSingle<T>(y: T, le: (T, T) -> bool, e: T)
    ensures TiesOf([y], le, e) == if Tied(le, y, e) then [y] else []
  {
    assert [y][1..] == [];
  }

  lemma {:induction false} InsertStable<T(!new)>(x: T, s: seq<T>, le: (T, T) -> bool, e: T)
    requires TotalPreorder(le)
    ensures TiesOf(Insert(x, s, le), le, e) == TiesOf([x] + s, le, e)
  {
    if s != [] && !le(x, s[0]) {
      InsertStable(x, s[1..], le, e);
      var head, tail := [s[0]], s[1..];
      assert s == head + tail;
      assert Insert(x, s, le) == head + Insert(x, tail, le);
      TiesOfSingle(s[0], le, e);
      TiesOfSingle(x, le, e);
      assert !Tied(le, s[0], e) || !Tied(le, x, e);
      var th, tx, tt := TiesOf(head, le, e), TiesOf([x], le, e), TiesOf(tail, le, e);
      assert th == [] || tx == [];
      TiesOfAppend(head, Insert(x, tail, le), le, e);
      TiesOfAppend([x], tail, le, e);
      TiesOfAppend(head, tail, le, e);
      TiesOfAppend([x], s, le, e);
      assert th + (tx + tt) == tx + (th + tt);
    }
  }

  /** Stability: the elements tied with any `e` keep their input order. */
  lemma {:induction false} SortByStable<T(!new)>(s: seq<T>, le: (T, T) -> bool, e: T)
    requires TotalPreorder(le)
    ensures TiesOf(SortBy(s, le), le, e) == TiesOf(s, le, e)
  {
    if s != [] {
      SortByStable(s[1..], le, e);
      InsertStable(s[0], SortBy(s[1..], le), le, e);
      TiesOfAppend([s[0]], SortBy(s[1..], le), le, e);
      TiesOfAppend([s[0]], s[1..], le, e);
      assert s == [s[0]] + s[1..];
    }
  }

  // ---------------------------------------------------------------------
  // Text ordering used by `ORDER BY team` and `ORDER BY player_name`.

  /** Lexicographic order on code points. */
  predicate StrLe(a: string, b: string) {
    if a == [] then true
    else if b == [] then false
    else if a[0] != b[0] then a[0] < b[0]
    else StrLe(a[1..], b[1..])
  }

  lemma {:induction false} StrLeTotal(a: string, b: string)
    ensures StrLe(a, b) || StrLe(b, a)
  {
    if a != [] && b != [] && a[0] == b[0] {
      StrLeTotal(a[1..], b[1..]);
    }
  }

  lemma {:induction false} StrLeAntisymmetric(a: string, b: string)
    requires StrLe(a, b) && StrLe(b, a)
    ensures a == b
  {
    if a != [] && b != [] {
      StrLeAntisymmetric(a[1..], b[1..]);
      assert a == [a[0]] + a[1..] && b == [b[0]] + b[1..];
    }
  }

  lemma {:induction false} StrLeTransitive(a: string, b: string, c: string)
    requires StrLe(a, b) && StrLe(b, c)
    ensures StrLe(a, c)
  {
    if a != [] && b != [] && c != [] && a[0] == b[0] && b[0] == c[0] {
      StrLeTransitive(a[1..], b[1..], c[1..]);
    }
  }
}
