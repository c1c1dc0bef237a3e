/**
 * Ordering used by the list endpoints' `ORDER BY` clauses: a sort by any total
 * preorder, and the character-by-character order on strings.
 */
module Sorting {

  ghost predicate TotalPreorder<T(!new)>(le: (T, T) -> bool) {
    (forall a, b :: le(a, b) || le(b, a))
    && (forall a, b, c :: le(a, b) && le(b, c) ==> le(a, c))
  }

  predicate SortedBy<T>(s: seq<T>, le: (T, T) -> bool) {
    forall i, j :: 0 <= i < j < |s| ==> le(s[i], s[j])
  }

  function Insert<T>(x: T, s: seq<T>, le: (T, T) -> bool): (r: seq<T>)
    ensures multiset(r) == multiset(s) + multiset{x}
  {
    if s == [] then [x]
    else if le(x, s[0]) then [x] + s
    else
      assert s == [s[0]] + s[1..];
      [s[0]] + Insert(x, s[1..], le)
  }

  lemma {:induction false} InsertSorted<T(!new)>(x: T, s: seq<T>, le: (T, T) -> bool)
    requires TotalPreorder(le)
    requires SortedBy(s, le)
    ensures SortedBy(Insert(x, s, le), le)
  {
    if s != [] && !le(x, s[0]) {
      InsertSorted(x, s[1..], le);
      var r := Insert(x, s[1..], le);
      forall k | 0 <= k < |r| ensures le(s[0], r[k]) {
        assert r[k] in multiset(r);
        assert r[k] in multiset(s[1..]) + multiset{x};
        if r[k] != x {
          assert r[k] in multiset(s[1..]);
          var j :| 0 <= j < |s[1..]| && s[1..][j] == r[k];
          assert s[1 + j] == r[k];
        }
      }
    }
  }

  /** Insertion sort: the `ORDER BY` of a query, for a comparator that is a total preorder. */
  function SortBy<T>(s: seq<T>, le: (T, T) -> bool): (r: seq<T>)
    ensures multiset(r) == multiset(s)
    ensures |r| == |s|
  {
    if s == [] then []
    else
      assert s == [s[0]] + s[1..];
      var r := Insert(s[0], SortBy(s[1..], le), le);
      assert |r| == |multiset(r)|;
      r
  }

  /** The sort's output is ordered; with its contract it is a permutation of the input. */
  lemma {:induction false} SortBySorted<T(!new)>(s: seq<T>, le: (T, T) -> bool)
    requires TotalPreorder(le)
    ensures SortedBy(SortBy(s, le), le)
  {
    if s != [] {
      SortBySorted(s[1..], le);
      InsertSorted(s[0], SortBy(s[1..], le), le);
    }
  }

  /** The `WHERE` of a query: the rows that satisfy `keep`, in their original order. */
  function Where<T>(s: seq<T>, keep: T -> bool): (r: seq<T>)
    ensures |r| <= |s|
  {
    if s == [] then []
    else if keep(s[0]) then [s[0]] + Where(s[1..], keep)
    else Where(s[1..], keep)
  }

  /** Two sequences with the same multiset hold the same elements. */
  lemma SameMembers<T>(a: seq<T>, b: seq<T>)
    requires multiset(a) == multiset(b)
    ensures forall x :: x in a <==> x in b
  {
    forall x ensures x in a <==> x in b {
      assert x in a <==> x in multiset(a);
      assert x in b <==> x in multiset(b);
    }
  }

  /** A row is selected iff it is in the input and satisfies the condition. */
  lemma {:induction false} WhereSpec<T>(s: seq<T>, keep: T -> bool)
    ensures forall x :: x in Where(s, keep) <==> x in s && keep(x)
  {
    if s != [] {
      WhereSpec(s[1..], keep);
      assert s == [s[0]] + s[1..];
    }
  }

  /** Filtering rows with one more row at the end keeps that row at the end, when it is kept. */
  lemma {:induction false} WhereAppend<T>(s: seq<T>, x: T, keep: T -> bool)
    ensures Where(s + [x], keep) == Where(s, keep) + (if keep(x) then [x] else [])
    decreases |s|
  {
    if s == [] {
      assert [x][1..] == [];
    } else {
      assert (s + [x])[0] == s[0];
      assert (s + [x])[1..] == s[1..] + [x];
      WhereAppend(s[1..], x, keep);
    }
  }

  /** A condition no row satisfies selects nothing. */
  lemma {:induction false} WhereNone<T>(s: seq<T>, keep: T -> bool)
    requires forall i :: 0 <= i < |s| ==> !keep(s[i])
    ensures Where(s, keep) == []
    decreases |s|
  {
    if s != [] {
      WhereNone(s[1..], keep);
    }
  }

  /** A filter followed by a sort: the rows chosen, each exactly as often as in the input, in order. */
  lemma SelectSpec<T(!new)>(s: seq<T>, keep: T -> bool, le: (T, T) -> bool)
    requires TotalPreorder(le)
    ensures forall x :: x in SortBy(Where(s, keep), le) <==> x in s && keep(x)
    ensures multiset(SortBy(Where(s, keep), le)) == multiset(Where(s, keep))
    ensures SortedBy(SortBy(Where(s, keep), le), le)
  {
    WhereSpec(s, keep);
    SortBySorted(Where(s, keep), le);
    forall x ensures x in SortBy(Where(s, keep), le) <==> x in Where(s, keep) {
      assert x in SortBy(Where(s, keep), le) <==> x in multiset(SortBy(Where(s, keep), le));
      assert x in Where(s, keep) <==> x in multiset(Where(s, keep));
    }
  }

  // ---- strings ----

  /** Character-code order on strings (a prefix sorts first). */
  predicate StrLe(a: string, b: string) {
    a == [] || (b != [] && (a[0] < b[0] || (a[0] == b[0] && StrLe(a[1..], b[1..]))))
  }

  lemma {:induction false} StrLeTotal(a: string, b: string)
    ensures StrLe(a, b) || StrLe(b, a)
  {
    if a != [] && b != [] && a[0] == b[0] {
      StrLeTotal(a[1..], b[1..]);
    }
  }

  lemma {:induction false} StrLeTrans(a: string, b: string, c: string)
    requires StrLe(a, b) && StrLe(b, c)
    ensures StrLe(a, c)
  {
    if a != [] && b != [] && c != [] && a[0] == b[0] && b[0] == c[0] {
      StrLeTrans(a[1..], b[1..], c[1..]);
    }
  }

  lemma {:induction false} StrLeAntisym(a: string, b: string)
    requires StrLe(a, b) && StrLe(b, a)
    ensures a == b
  {
    if a != [] && b != [] {
      StrLeAntisym(a[1..], b[1..]);
      assert a == [a[0]] + a[1..] && b == [b[0]] + b[1..];
    }
  }

  /** Order by an integer key, then by a string key. */
  predicate KeyThenStrLe(ka: int, sa: string, kb: int, sb: string) {
    ka < kb || (ka == kb && StrLe(sa, sb))
  }

  lemma KeyThenStrLeTotal(ka: int, sa: string, kb: int, sb: string)
    ensures KeyThenStrLe(ka, sa, kb, sb) || KeyThenStrLe(kb, sb, ka, sa)
  {
    StrLeTotal(sa, sb);
  }

  lemma KeyThenStrLeTrans(ka: int, sa: string, kb: int, sb: string, kc: int, sc: string)
    requires KeyThenStrLe(ka, sa, kb, sb) && KeyThenStrLe(kb, sb, kc, sc)
    ensures KeyThenStrLe(ka, sa, kc, sc)
  {
    if ka == kb && kb == kc {
      StrLeTrans(sa, sb, sc);
    }
  }
}
