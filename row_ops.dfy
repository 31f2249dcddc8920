/**
  The two pandas table operations the preprocessor applies to whole tables,
  on a table modelled as a sequence of rows: a boolean mask `df[mask]`
  (`Filter`), which keeps the rows that satisfy a test in their order, and
  `drop_duplicates(subset=key, keep='first')` (`DropDuplicates`), which keeps
  the first row of every key.
*/
module RowOps {
  import opened Outcomes

  /** `xs` is `ys` with some elements left out, in the same order. */
  predicate IsSubsequence<T(==)>(xs: seq<T>, ys: seq<T>)
    decreases |ys|
  {
    if xs == [] then true
    else if ys == [] then false
    else if xs[0] == ys[0] then IsSubsequence(xs[1..], ys[1..])
    else IsSubsequence(xs, ys[1..])
  }

  lemma {:induction false} SubsequenceConsRight<T>(xs: seq<T>, y: T, ys: seq<T>)
    requires IsSubsequence(xs, ys)
    ensures IsSubsequence(xs, [y] + ys)
    decreases |ys|, 1
  {
    if xs != [] {
      assert ([y] + ys)[1..] == ys;
      if xs[0] == y {
        assert ys != [];
        if xs[0] == ys[0] {
          SubsequenceConsRight(xs[1..], ys[0], ys[1..]);
          assert [ys[0]] + ys[1..] == ys;
        } else {
          SubsequenceDropHead(xs, ys);
        }
      }
    }
  }

  lemma {:induction false} SubsequenceDropHead<T>(xs: seq<T>, ys: seq<T>)
    requires xs != [] && IsSubsequence(xs, ys)
    ensures IsSubsequence(xs[1..], ys)
    decreases |ys|, 0
  {
    assert ys != [];
    if xs[0] == ys[0] {
      if xs[1..] != [] {
        SubsequenceConsRight(xs[1..], ys[0], ys[1..]);
        assert [ys[0]] + ys[1..] == ys;
      }
    } else {
      SubsequenceDropHead(xs, ys[1..]);
      if xs[1..] != [] {
        SubsequenceConsRight(xs[1..], ys[0], ys[1..]);
        assert [ys[0]] + ys[1..] == ys;
      }
    }
  }

  lemma {:induction false} SubsequenceTransitive<T>(a: seq<T>, b: seq<T>, c: seq<T>)
    requires IsSubsequence(a, b) && IsSubsequence(b, c)
    ensures IsSubsequence(a, c)
    decreases |c|
  {
    if a != [] {
      assert b != [] && c != [];
      if b[0] == c[0] && a[0] == b[0] {
        SubsequenceTransitive(a[1..], b[1..], c[1..]);
      } else {
        if b[0] == c[0] {
          SubsequenceTransitive(a, b[1..], c[1..]);
        } else {
          SubsequenceTransitive(a, b, c[1..]);
        }
        SubsequenceConsRight(a, c[0], c[1..]);
        assert [c[0]] + c[1..] == c;
      }
    }
  }

  // ------------------------------------------------------------- df[mask]

  /** The rows that pass `p`, in their order. */
  function Filter<T>(xs: seq<T>, p: T -> bool): (r: seq<T>)
    ensures |r| <= |xs|
    ensures forall k :: 0 <= k < |r| ==> p(r[k])
  {
    if xs == [] then [] else (if p(xs[0]) then [xs[0]] else []) + Filter(xs[1..], p)
  }

  /** A row is kept exactly when it is in the table and passes the test,
      and the kept rows keep their order. */
  lemma {:induction false} FilterFacts<T>(xs: seq<T>, p: T -> bool)
    ensures forall x :: x in Filter(xs, p) <==> x in xs && p(x)
    ensures forall k :: 0 <= k < |Filter(xs, p)| ==> Filter(xs, p)[k] in xs
    ensures IsSubsequence(Filter(xs, p), xs)
  {
    if xs != [] {
      FilterFacts(xs[1..], p);
      var rest := Filter(xs[1..], p);
      assert xs == [xs[0]] + xs[1..];
      if p(xs[0]) {
        assert Filter(xs, p) == [xs[0]] + rest;
        assert ([xs[0]] + rest)[1..] == rest;
      } else {
        assert Filter(xs, p) == rest;
        SubsequenceConsRight(rest, xs[0], xs[1..]);
      }
    }
  }

  /** Filtering a table with one more row at the end. */
  lemma {:induction false} FilterSnoc<T>(xs: seq<T>, x: T, p: T -> bool)
    ensures Filter(xs + [x], p) == Filter(xs, p) + (if p(x) then [x] else [])
  {
    if xs == [] {
      assert [] + [x] == [x];
    } else {
      assert (xs + [x])[0] == xs[0];
      assert (xs + [x])[1..] == xs[1..] + [x];
      FilterSnoc(xs[1..], x, p);
    }
  }

  /** A table whose rows all pass the test is left as it is. */
  lemma {:induction false} FilterAll<T>(xs: seq<T>, p: T -> bool)
    requires forall k :: 0 <= k < |xs| ==> p(xs[k])
    ensures Filter(xs, p) == xs
  {
    if xs != [] {
      FilterAll(xs[1..], p);
      assert p(xs[0]);
      assert xs == [xs[0]] + xs[1..];
    }
  }

  /** No two rows share a key. */
  ghost predicate DistinctKeys<T, K>(xs: seq<T>, key: T -> K)
  {
    forall i, j :: 0 <= i < j < |xs| ==> key(xs[i]) != key(xs[j])
  }

  /** Filtering keeps keys that were pairwise distinct pairwise distinct. */
  lemma {:induction false} FilterKeepsDistinct<T, K>(xs: seq<T>, p: T -> bool, key: T -> K)
    requires DistinctKeys(xs, key)
    ensures DistinctKeys(Filter(xs, p), key)
  {
    if xs != [] {
      var rest := Filter(xs[1..], p);
      FilterKeepsDistinct(xs[1..], p, key);
      FilterFacts(xs[1..], p);
      if p(xs[0]) {
        var r := Filter(xs, p);
        assert r == [xs[0]] + rest;
        forall i, j | 0 <= i < j < |r| ensures key(r[i]) != key(r[j]) {
          assert r[j] == rest[j - 1] && rest[j - 1] in xs[1..];
          if i > 0 {
            assert r[i] == rest[i - 1];
          } else {
            var m :| 0 <= m < |xs[1..]| && xs[1..][m] == rest[j - 1];
            assert key(xs[0]) != key(xs[m + 1]);
          }
        }
      } else {
        assert Filter(xs, p) == rest;
      }
    }
  }

  // ------------------------------------------------- drop_duplicates(keep='first')

  /** The keys of a table's rows. */
  function KeysOf<T, K>(xs: seq<T>, key: T -> K): set<K>
  {
    set k | 0 <= k < |xs| :: key(xs[k])
  }

  /** The first row with key `k`, if any. */
  function FirstWithKey<T, K(==)>(xs: seq<T>, key: T -> K, k: K): Option<T>
  {
    if xs == [] then None else if key(xs[0]) == k then Some(xs[0]) else FirstWithKey(xs[1..], key, k)
  }

  /** The scan of `drop_duplicates`, with the keys already met in `seen`. */
  function DropDuplicatesFrom<T, K(==)>(xs: seq<T>, key: T -> K, seen: set<K>): (r: seq<T>)
    ensures |r| <= |xs|
    ensures forall j :: 0 <= j < |r| ==> key(r[j]) !in seen
  {
    if xs == [] then []
    else if key(xs[0]) in seen then DropDuplicatesFrom(xs[1..], key, seen)
    else [xs[0]] + DropDuplicatesFrom(xs[1..], key, seen + {key(xs[0])})
  }

  /** `drop_duplicates(keep='first')`: the first row of every key, in order. */
  function DropDuplicates<T, K(==)>(xs: seq<T>, key: T -> K): (r: seq<T>)
    ensures IsSubsequence(r, xs) && DistinctKeys(r, key)
    ensures KeysOf(r, key) == KeysOf(xs, key)
  {
    DropDuplicatesFromFacts(xs, key, {});
    DropDuplicatesFrom(xs, key, {})
  }

  /** What `drop_duplicates(keep='first')` promises: the kept rows keep their
      order, no two share a key, each is the first row of the table with its
      key, and every key not yet met is kept. */
  lemma {:induction false} DropDuplicatesFromFacts<T, K>(xs: seq<T>, key: T -> K, seen: set<K>)
    ensures IsSubsequence(DropDuplicatesFrom(xs, key, seen), xs)
    ensures DistinctKeys(DropDuplicatesFrom(xs, key, seen), key)
    ensures var r := DropDuplicatesFrom(xs, key, seen);
      forall j :: 0 <= j < |r| ==> FirstWithKey(xs, key, key(r[j])) == Some(r[j])
    ensures KeysOf(DropDuplicatesFrom(xs, key, seen), key) == KeysOf(xs, key) - seen
  {
    if xs != [] {
      var x := xs[0];
      var r := DropDuplicatesFrom(xs, key, seen);
      assert xs == [x] + xs[1..];
      if key(x) in seen {
        DropDuplicatesFromFacts(xs[1..], key, seen);
        SubsequenceConsRight(r, x, xs[1..]);
        forall j | 0 <= j < |r| ensures FirstWithKey(xs, key, key(r[j])) == Some(r[j]) {
          assert key(r[j]) != key(x);
        }
        assert KeysOf(xs, key) == KeysOf(xs[1..], key) + {key(x)};
      } else {
        var seen' := seen + {key(x)};
        var rest := DropDuplicatesFrom(xs[1..], key, seen');
        DropDuplicatesFromFacts(xs[1..], key, seen');
        assert r == [x] + rest;
        assert r[1..] == rest;
        forall j | 0 <= j < |r| ensures FirstWithKey(xs, key, key(r[j])) == Some(r[j]) {
          if j > 0 {
            assert r[j] == rest[j - 1];
            assert key(r[j]) != key(x);
          }
        }
        forall i, j | 0 <= i < j < |r| ensures key(r[i]) != key(r[j]) {
          assert r[j] == rest[j - 1];
          if i > 0 { assert r[i] == rest[i - 1]; }
        }
        assert KeysOf(xs, key) == KeysOf(xs[1..], key) + {key(x)};
        assert KeysOf(r, key) == KeysOf(rest, key) + {key(x)};
      }
    }
  }

  /** The first row of a key not yet met is kept. */
  lemma {:induction false} DropDuplicatesKeepsFirst<T, K>(xs: seq<T>, key: T -> K, seen: set<K>, k: nat)
    requires k < |xs| && key(xs[k]) !in seen
    requires FirstWithKey(xs, key, key(xs[k])) == Some(xs[k])
    ensures xs[k] in DropDuplicatesFrom(xs, key, seen)
  {
    if key(xs[0]) == key(xs[k]) {
      assert DropDuplicatesFrom(xs, key, seen)[0] == xs[0] == xs[k];
    } else {
      var seen' := if key(xs[0]) in seen then seen else seen + {key(xs[0])};
      DropDuplicatesKeepsFirst(xs[1..], key, seen', k - 1);
    }
  }

  /** A table whose keys are pairwise distinct and all new loses nothing. */
  lemma {:induction false} DropDuplicatesOfDistinct<T, K>(xs: seq<T>, key: T -> K, seen: set<K>)
    requires DistinctKeys(xs, key)
    requires forall j :: 0 <= j < |xs| ==> key(xs[j]) !in seen
    ensures DropDuplicatesFrom(xs, key, seen) == xs
  {
    if xs != [] {
      var seen' := seen + {key(xs[0])};
      forall j | 0 <= j < |xs[1..]| ensures key(xs[1..][j]) !in seen' {
        assert key(xs[0]) != key(xs[j + 1]);
      }
      DropDuplicatesOfDistinct(xs[1..], key, seen');
      assert xs == [xs[0]] + xs[1..];
    }
  }
}
