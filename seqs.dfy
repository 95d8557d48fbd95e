/**
 * The operations an SQL statement performs on an in-memory table, stated
 * once over sequences of rows: a WHERE filter (SELECT, DELETE), a
 * conditional update (UPDATE ... SET ... WHERE), an insert-or-update on a
 * unique key (INSERT ... ON CONFLICT ... DO UPDATE) and an ORDER BY on an
 * integer column. Each comes with the lemmas the tables rely on.
 */
module Seqs {

  // ---------------------------------------------------------------------
  // WHERE: keep the rows a predicate accepts, in table order
  // ---------------------------------------------------------------------

  function Filter<T>(s: seq<T>, p: T -> bool): (r: seq<T>)
    ensures |r| <= |s|
    ensures forall i :: 0 <= i < |r| ==> r[i] in s && p(r[i])
    ensures forall i :: 0 <= i < |s| && p(s[i]) ==> s[i] in r
  {
    if s == [] then []
    else if p(s[0]) then [s[0]] + Filter(s[1..], p)
    else Filter(s[1..], p)
  }

  /** The rows a predicate rejects: what a DELETE ... WHERE leaves behind. */
  function Not<T>(p: T -> bool): T -> bool
  {
    x => !p(x)
  }

  lemma FilterIn<T>(s: seq<T>, p: T -> bool, x: T)
    ensures x in Filter(s, p) <==> x in s && p(x)
  {
    if x in Filter(s, p) {
      var i :| 0 <= i < |Filter(s, p)| && Filter(s, p)[i] == x;
    }
    if x in s && p(x) {
      var i :| 0 <= i < |s| && s[i] == x;
    }
  }

  /** The first accepted row is the head of the filtered rows. */
  lemma {:induction false} FilterFirst<T>(s: seq<T>, p: T -> bool, k: nat)
    requires k < |s| && p(s[k])
    requires forall j :: 0 <= j < k ==> !p(s[j])
    ensures |Filter(s, p)| > 0 && Filter(s, p)[0] == s[k]
  {
    if k > 0 {
      assert !p(s[0]);
      assert s[1..][k - 1] == s[k];
      FilterFirst(s[1..], p, k - 1);
    }
  }

  /** A DELETE splits the table into the rows it removes and the rows it keeps. */
  lemma FilterSplit<T>(s: seq<T>, p: T -> bool)
    ensures multiset(s) == multiset(Filter(s, Not(p))) + multiset(Filter(s, p))
    ensures |s| == |Filter(s, Not(p))| + |Filter(s, p)|
  {
    FilterComplement(s, p, Not(p));
  }

  /** The number of rows a predicate accepts: SQL's `count(*) ... WHERE`. */
  function Count<T>(s: seq<T>, p: T -> bool): nat
  {
    |Filter(s, p)|
  }

  /** A count is zero exactly when no row is accepted. */
  lemma CountZero<T>(s: seq<T>, p: T -> bool)
    ensures Count(s, p) == 0 <==> forall x :: x in s ==> !p(x)
  {
    if Count(s, p) != 0 {
      assert Filter(s, p)[0] in s && p(Filter(s, p)[0]);
    } else {
      forall x | x in s ensures !p(x) {
        FilterIn(s, p, x);
      }
    }
  }

  /** Filtering keeps exactly the accepted occurrences, with their multiplicity. */
  lemma {:induction false} FilterMultiset<T>(s: seq<T>, p: T -> bool, x: T)
    ensures multiset(Filter(s, p))[x] == if p(x) then multiset(s)[x] else 0
  {
    if s != [] {
      FilterMultiset(s[1..], p, x);
      assert s == [s[0]] + s[1..];
    }
  }

  /** A filter and its complement split the table: every row goes to exactly one side. */
  lemma {:induction false} FilterComplement<T>(s: seq<T>, p: T -> bool, q: T -> bool)
    requires forall x :: q(x) == !p(x)
    ensures multiset(Filter(s, p)) + multiset(Filter(s, q)) == multiset(s)
    ensures |Filter(s, p)| + |Filter(s, q)| == |s|
  {
    if s != [] {
      FilterComplement(s[1..], p, q);
      assert s == [s[0]] + s[1..];
    }
  }

  lemma {:induction false} FilterConcat<T>(a: seq<T>, b: seq<T>, p: T -> bool)
    ensures Filter(a + b, p) == Filter(a, p) + Filter(b, p)
  {
    if a != [] {
      FilterConcat(a[1..], b, p);
      assert (a + b)[0] == a[0];
      assert (a + b)[1..] == a[1..] + b;
    } else {
      assert a + b == b;
    }
  }

  /** Running the same filter twice changes nothing the first run did not. */
  lemma {:induction false} FilterIdempotent<T>(s: seq<T>, p: T -> bool)
    ensures Filter(Filter(s, p), p) == Filter(s, p)
  {
    if s != [] {
      FilterIdempotent(s[1..], p);
    }
  }

  lemma {:induction false} FilterKeepsAll<T>(s: seq<T>, p: T -> bool)
    requires forall x :: x in s ==> p(x)
    ensures Filter(s, p) == s
  {
    if s != [] {
      FilterKeepsAll(s[1..], p);
      assert s == [s[0]] + s[1..];
    }
  }

  lemma {:induction false} FilterKeepsNone<T>(s: seq<T>, p: T -> bool)
    requires forall x :: x in s ==> !p(x)
    ensures Filter(s, p) == []
  {
    if s != [] {
      FilterKeepsNone(s[1..], p);
    }
  }

  // ---------------------------------------------------------------------
  // Unique keys
  // ---------------------------------------------------------------------

  /** No two rows share a key: the table's UNIQUE constraint. */
  ghost predicate Unique<T, K>(s: seq<T>, key: T -> K)
  {
    forall i, j :: 0 <= i < j < |s| ==> key(s[i]) != key(s[j])
  }

  function SameKey<T, K(==)>(key: T -> K, k: K): T -> bool
  {
    y => key(y) == k
  }

  function OtherKey<T, K(==)>(key: T -> K, k: K): T -> bool
  {
    y => key(y) != k
  }

  lemma {:induction false} FilterKeepsUnique<T, K>(s: seq<T>, p: T -> bool, key: T -> K)
    requires Unique(s, key)
    ensures Unique(Filter(s, p), key)
  {
    if s != [] {
      FilterKeepsUnique(s[1..], p, key);
      if p(s[0]) {
        var r := Filter(s, p);
        var t := Filter(s[1..], p);
        assert r == [s[0]] + t;
        forall i, j | 0 <= i < j < |r| ensures key(r[i]) != key(r[j]) {
          if i == 0 {
            assert r[j] == t[j - 1] && t[j - 1] in s[1..];
            var m :| 0 <= m < |s[1..]| && s[1..][m] == r[j];
            assert s[m + 1] == r[j];
          } else {
            assert r[i] == t[i - 1] && r[j] == t[j - 1];
          }
        }
      }
    }
  }

  /** Under a unique key, at most one row carries a given key. */
  lemma {:induction false} UniqueAtMostOne<T, K>(s: seq<T>, key: T -> K, k: K)
    requires Unique(s, key)
    ensures Count(s, SameKey(key, k)) <= 1
  {
    if s != [] {
      UniqueAtMostOne(s[1..], key, k);
      if key(s[0]) == k {
        forall y | y in s[1..] ensures !SameKey(key, k)(y) {
          var m :| 0 <= m < |s[1..]| && s[1..][m] == y;
          assert s[m + 1] == y;
        }
        FilterKeepsNone(s[1..], SameKey(key, k));
      }
    }
  }

  // ---------------------------------------------------------------------
  // INSERT ... ON CONFLICT (key) DO UPDATE
  // ---------------------------------------------------------------------

  /** Every row whose key equals `x`'s is overwritten with `x`. */
  function Replace<T, K(==)>(s: seq<T>, x: T, key: T -> K): (r: seq<T>)
    ensures |r| == |s|
    ensures forall i :: 0 <= i < |s| ==> r[i] == if key(s[i]) == key(x) then x else s[i]
  {
    if s == [] then []
    else [if key(s[0]) == key(x) then x else s[0]] + Replace(s[1..], x, key)
  }

  ghost predicate HasKey<T, K>(s: seq<T>, key: T -> K, k: K)
  {
    exists i :: 0 <= i < |s| && key(s[i]) == k
  }

  /** Insert `x`, or, when a row with its key exists, overwrite that row in place. */
  function Upsert<T, K(==)>(s: seq<T>, x: T, key: T -> K): seq<T>
  {
    if exists i :: 0 <= i < |s| && key(s[i]) == key(x) then Replace(s, x, key) else s + [x]
  }

  lemma {:induction false} ReplaceOthers<T, K>(s: seq<T>, x: T, key: T -> K)
    ensures Filter(Replace(s, x, key), OtherKey(key, key(x))) == Filter(s, OtherKey(key, key(x)))
  {
    if s != [] {
      ReplaceOthers(s[1..], x, key);
    }
  }

  lemma {:induction false} ReplaceSame<T, K>(s: seq<T>, x: T, key: T -> K)
    requires Unique(s, key) && HasKey(s, key, key(x))
    ensures Filter(Replace(s, x, key), SameKey(key, key(x))) == [x]
  {
    var r := Replace(s, x, key);
    if key(s[0]) == key(x) {
      forall y | y in r[1..] ensures !SameKey(key, key(x))(y) {
        var m :| 0 <= m < |r[1..]| && r[1..][m] == y;
        assert r[m + 1] == y && key(s[m + 1]) != key(s[0]);
      }
      FilterKeepsNone(r[1..], SameKey(key, key(x)));
      assert r == [x] + r[1..];
    } else {
      var i :| 0 <= i < |s| && key(s[i]) == key(x);
      assert key(s[1..][i - 1]) == key(x);
      assert Unique(s[1..], key);
      ReplaceSame(s[1..], x, key);
      assert r == [s[0]] + Replace(s[1..], x, key);
    }
  }

  lemma ReplaceKeepsUnique<T, K>(s: seq<T>, x: T, key: T -> K)
    requires Unique(s, key)
    ensures Unique(Replace(s, x, key), key)
  {
    var r := Replace(s, x, key);
    forall i, j | 0 <= i < j < |r| ensures key(r[i]) != key(r[j]) {
      assert key(r[i]) == key(s[i]) && key(r[j]) == key(s[j]);
    }
  }

  /**
   * The upsert keeps the key unique, leaves exactly one row with the new
   * row's key, and that row is the new row; the rows with any other key
   * are those of before, in the same order.
   */
  lemma UpsertSpec<T, K>(s: seq<T>, x: T, key: T -> K)
    requires Unique(s, key)
    ensures Unique(Upsert(s, x, key), key)
    ensures Filter(Upsert(s, x, key), SameKey(key, key(x))) == [x]
    ensures Filter(Upsert(s, x, key), OtherKey(key, key(x))) == Filter(s, OtherKey(key, key(x)))
  {
    if HasKey(s, key, key(x)) {
      ReplaceKeepsUnique(s, x, key);
      ReplaceSame(s, x, key);
      ReplaceOthers(s, x, key);
    } else {
      var r := s + [x];
      forall i, j | 0 <= i < j < |r| ensures key(r[i]) != key(r[j]) {
        if j == |s| {
          assert key(s[i]) != key(x);
        }
      }
      FilterConcat(s, [x], SameKey(key, key(x)));
      FilterConcat(s, [x], OtherKey(key, key(x)));
      forall y | y in s ensures !SameKey(key, key(x))(y) {}
      FilterKeepsNone(s, SameKey(key, key(x)));
    }
  }

  /** Filtering depends only on which rows the predicate accepts. */
  lemma {:induction false} FilterSamePredicate<T>(s: seq<T>, p: T -> bool, q: T -> bool)
    requires forall x :: p(x) == q(x)
    ensures Filter(s, p) == Filter(s, q)
  {
    if s != [] {
      FilterSamePredicate(s[1..], p, q);
    }
  }

  /** A count splits over the rows another predicate accepts and those it rejects. */
  lemma {:induction false} CountPartition<T>(s: seq<T>, p: T -> bool, q: T -> bool)
    ensures Count(s, p) == Count(Filter(s, q), p) + Count(Filter(s, Not(q)), p)
  {
    if s != [] {
      CountPartition(s[1..], p, q);
      var t := s[1..];
      if q(s[0]) {
        assert Filter(s, q) == [s[0]] + Filter(t, q);
        assert ([s[0]] + Filter(t, q))[1..] == Filter(t, q);
        assert Filter(s, Not(q)) == Filter(t, Not(q));
      } else {
        assert Filter(s, Not(q)) == [s[0]] + Filter(t, Not(q));
        assert ([s[0]] + Filter(t, Not(q)))[1..] == Filter(t, Not(q));
        assert Filter(s, q) == Filter(t, q);
      }
    }
  }

  /** Filtering twice keeps as many rows as filtering once on the conjunction. */
  lemma {:induction false} FilterFilter<T>(s: seq<T>, p: T -> bool, q: T -> bool, pq: T -> bool)
    requires forall x :: pq(x) == (p(x) && q(x))
    ensures |Filter(Filter(s, p), q)| == |Filter(s, pq)|
  {
    if s != [] {
      FilterFilter(s[1..], p, q, pq);
      if p(s[0]) {
        assert Filter(s, p) == [s[0]] + Filter(s[1..], p);
        assert (Filter(s, p))[1..] == Filter(s[1..], p);
      }
    }
  }

  /** Two disjoint conditions that both imply a third count no more rows than it. */
  lemma {:induction false} CountDisjoint<T>(s: seq<T>, p: T -> bool, q: T -> bool, r: T -> bool)
    requires forall x :: (p(x) ==> r(x)) && (q(x) ==> r(x)) && !(p(x) && q(x))
    ensures Count(s, p) + Count(s, q) <= Count(s, r)
  {
    if s != [] {
      CountDisjoint(s[1..], p, q, r);
    }
  }

  /**
   * After an upsert, a count sees the rows with other keys as before plus
   * the new row: a row replaced on the same key is counted no longer.
   */
  lemma UpsertCount<T, K>(s: seq<T>, x: T, key: T -> K, p: T -> bool)
    requires Unique(s, key)
    ensures Count(Upsert(s, x, key), p) == Count(Filter(s, OtherKey(key, key(x))), p) + (if p(x) then 1 else 0)
  {
    var u := Upsert(s, x, key);
    UpsertSpec(s, x, key);
    CountPartition(u, p, OtherKey(key, key(x)));
    FilterSamePredicate(u, Not(OtherKey(key, key(x))), SameKey(key, key(x)));
    assert Filter([x], p) == if p(x) then [x] else [];
  }

  // ---------------------------------------------------------------------
  // UPDATE ... SET ... WHERE
  // ---------------------------------------------------------------------

  /** Apply `f` to the rows `p` accepts; the other rows stay as they are. */
  function SetWhere<T>(s: seq<T>, p: T -> bool, f: T -> T): (r: seq<T>)
    ensures |r| == |s|
    ensures forall i :: 0 <= i < |s| ==> r[i] == if p(s[i]) then f(s[i]) else s[i]
  {
    if s == [] then []
    else [if p(s[0]) then f(s[0]) else s[0]] + SetWhere(s[1..], p, f)
  }

  /** An update whose SET neither affects its WHERE nor changes on repetition is idempotent. */
  lemma SetWhereIdempotent<T>(s: seq<T>, p: T -> bool, f: T -> T)
    requires forall x :: p(f(x)) == p(x) && f(f(x)) == f(x)
    ensures SetWhere(SetWhere(s, p, f), p, f) == SetWhere(s, p, f)
  {
  }

  /** An update that never changes a row's key keeps the key unique. */
  lemma SetWhereKeepsUnique<T, K>(s: seq<T>, p: T -> bool, f: T -> T, key: T -> K)
    requires Unique(s, key)
    requires forall x :: key(f(x)) == key(x)
    ensures Unique(SetWhere(s, p, f), key)
  {
    var r := SetWhere(s, p, f);
    forall i, j | 0 <= i < j < |r| ensures key(r[i]) != key(r[j]) {
      assert key(r[i]) == key(s[i]) && key(r[j]) == key(s[j]);
    }
  }

  // ---------------------------------------------------------------------
  // ORDER BY <integer column> DESC
  // ---------------------------------------------------------------------

  ghost predicate SortedDesc<T>(s: seq<T>, key: T -> int)
  {
    forall i, j :: 0 <= i < j < |s| ==> key(s[i]) >= key(s[j])
  }

  function InsertDesc<T>(x: T, s: seq<T>, key: T -> int): (r: seq<T>)
    ensures multiset(r) == multiset(s) + multiset{x}
    ensures |r| == |s| + 1
  {
    if s == [] then [x]
    else if key(x) >= key(s[0]) then [x] + s
    else
      assert s == [s[0]] + s[1..];
      [s[0]] + InsertDesc(x, s[1..], key)
  }

  /** Inserting a row no larger than `b` into rows no larger than `b` keeps every key at most `b`. */
  lemma {:induction false} InsertDescBounded<T>(x: T, s: seq<T>, key: T -> int, b: int)
    requires key(x) <= b
    requires forall j :: 0 <= j < |s| ==> key(s[j]) <= b
    ensures forall j :: 0 <= j < |InsertDesc(x, s, key)| ==> key(InsertDesc(x, s, key)[j]) <= b
  {
    if s != [] && key(x) < key(s[0]) {
      InsertDescBounded(x, s[1..], key, b);
    }
  }

  lemma {:induction false} InsertDescSorted<T>(x: T, s: seq<T>, key: T -> int)
    requires SortedDesc(s, key)
    ensures SortedDesc(InsertDesc(x, s, key), key)
  {
    if s != [] && key(x) < key(s[0]) {
      var t := s[1..];
      InsertDescSorted(x, t, key);
      InsertDescBounded(x, t, key, key(s[0]));
    }
  }

  /** Inserting a row whose `k` differs from every row's keeps the `k` values distinct. */
  lemma {:induction false} InsertDescKeepsUnique<T, K>(x: T, s: seq<T>, key: T -> int, k: T -> K)
    requires Unique(s, k)
    requires forall j :: 0 <= j < |s| ==> k(x) != k(s[j])
    ensures Unique(InsertDesc(x, s, key), k)
  {
    if s != [] && key(x) < key(s[0]) {
      var t := s[1..];
      assert Unique(t, k);
      InsertDescKeepsUnique(x, t, key, k);
      var u := InsertDesc(x, t, key);
      forall j | 0 <= j < |u| ensures k(s[0]) != k(u[j]) {
        assert u[j] in multiset(u);
        if u[j] != x {
          assert u[j] in multiset(t);
          var m :| 0 <= m < |t| && t[m] == u[j];
          assert s[m + 1] == u[j];
        }
      }
      assert InsertDesc(x, s, key) == [s[0]] + u;
    }
  }

  /** Sorting reorders rows and so keeps distinct `k` values distinct. */
  lemma {:induction false} SortDescKeepsUnique<T, K>(s: seq<T>, key: T -> int, k: T -> K)
    requires Unique(s, k)
    ensures Unique(SortDesc(s, key), k)
  {
    if s != [] {
      var t := SortDesc(s[1..], key);
      assert Unique(s[1..], k);
      SortDescKeepsUnique(s[1..], key, k);
      forall j | 0 <= j < |t| ensures k(s[0]) != k(t[j]) {
        assert t[j] in multiset(s[1..]);
        var m :| 0 <= m < |s[1..]| && s[1..][m] == t[j];
        assert s[m + 1] == t[j];
      }
      InsertDescKeepsUnique(s[0], t, key, k);
    }
  }

  /** Order rows by `key`, largest first (ties keep no promised order). */
  function SortDesc<T>(s: seq<T>, key: T -> int): (r: seq<T>)
    ensures multiset(r) == multiset(s)
    ensures |r| == |s|
    ensures SortedDesc(r, key)
  {
    if s == [] then []
    else
      assert s == [s[0]] + s[1..];
      var t := SortDesc(s[1..], key);
      InsertDescSorted(s[0], t, key);
      InsertDesc(s[0], t, key)
  }
}
