/** Sequence vocabulary shared by the cart and the catalog: the JavaScript array
    operations the storefront relies on (`filter`, `findIndex`, and the
    "first occurrence wins" de-duplication), each with a contract that says
    what the result contains and in which order. */
module Seqs {

  /** `a` is obtained from `b` by deleting elements, keeping the rest in order. */
  ghost predicate IsSubseq<T>(a: seq<T>, b: seq<T>)
    decreases |b|
  {
    if a == [] then true
    else if b == [] then false
    else (a[0] == b[0] && IsSubseq(a[1..], b[1..])) || IsSubseq(a, b[1..])
  }

  /** `r` is exactly the elements of `s` satisfying `keep`: same order, and
      every kept value occurs as often as it does in `s`, every other value not at all. */
  ghost predicate KeepsExactly<T(!new)>(r: seq<T>, s: seq<T>, keep: T -> bool)
  {
    && IsSubseq(r, s)
    && forall x {:trigger multiset(r)[x]} :: multiset(r)[x] == (if keep(x) then multiset(s)[x] else 0)
  }

  /** `Array.prototype.filter`. */
  function Filter<T(!new)>(s: seq<T>, keep: T -> bool): (r: seq<T>)
    ensures KeepsExactly(r, s, keep)
    ensures forall x | x in r :: x in s && keep(x)
    ensures |r| <= |s|
    ensures |r| == |s| <==> forall i | 0 <= i < |s| :: keep(s[i])
    ensures (forall i | 0 <= i < |s| :: keep(s[i])) ==> r == s
  {
    if s == [] then []
    else
      var rest := Filter(s[1..], keep);
      assert s == [s[0]] + s[1..];
      if keep(s[0]) then
        assert ([s[0]] + rest)[1..] == rest;
        [s[0]] + rest
      else
        rest
  }

  lemma {:induction false} FilterAppend<T(!new)>(a: seq<T>, b: seq<T>, keep: T -> bool)
    ensures Filter(a + b, keep) == Filter(a, keep) + Filter(b, keep)
    decreases |a|
  {
    if a == [] {
      assert a + b == b;
    } else {
      assert (a + b)[1..] == a[1..] + b;
      assert (a + b)[0] == a[0];
      FilterAppend(a[1..], b, keep);
    }
  }

  /** Filtering twice by the same condition is filtering once. */
  lemma FilterIdempotent<T(!new)>(s: seq<T>, keep: T -> bool)
    ensures Filter(Filter(s, keep), keep) == Filter(s, keep)
  {
    var r := Filter(s, keep);
    assert forall i | 0 <= i < |r| :: r[i] in r;
  }

  /** A subsequence can only lose elements. */
  lemma {:induction false} SubseqElements<T>(a: seq<T>, b: seq<T>)
    requires IsSubseq(a, b)
    ensures forall x | x in a :: x in b
    ensures |a| <= |b|
    decreases |b|
  {
    if a != [] {
      if a[0] == b[0] && IsSubseq(a[1..], b[1..]) {
        SubseqElements(a[1..], b[1..]);
        assert a == [a[0]] + a[1..];
        assert b == [b[0]] + b[1..];
      } else {
        SubseqElements(a, b[1..]);
        assert b == [b[0]] + b[1..];
      }
    }
  }

  /** Dropping elements cannot make two keys collide. */
  lemma {:induction false} SubseqDistinctKeys<T, K>(a: seq<T>, b: seq<T>, key: T -> K)
    requires IsSubseq(a, b) && DistinctKeys(b, key)
    ensures DistinctKeys(a, key)
    decreases |b|
  {
    if a != [] {
      var b' := b[1..];
      assert DistinctKeys(b', key) by {
        assert forall i | 0 <= i < |b'| :: b'[i] == b[i + 1];
      }
      if a[0] == b[0] && IsSubseq(a[1..], b') {
        SubseqDistinctKeys(a[1..], b', key);
        SubseqElements(a[1..], b');
        forall x | x in b' ensures key(x) != key(b[0]) {
          var j :| 0 <= j < |b'| && b'[j] == x;
          assert b[j + 1] == x;
        }
        forall i, j | 0 <= i < j < |a| ensures key(a[i]) != key(a[j]) {
          assert a[j] == a[1..][j - 1];
          assert a[j] in a[1..];
          if 0 < i {
            assert a[i] == a[1..][i - 1];
          }
        }
      } else {
        SubseqDistinctKeys(a, b', key);
      }
    }
  }

  /** `Array.prototype.findIndex`: the first index whose element satisfies `p`, or -1. */
  function FindIndex<T>(s: seq<T>, p: T -> bool): (r: int)
    ensures -1 <= r < |s|
    ensures r == -1 <==> forall i | 0 <= i < |s| :: !p(s[i])
    ensures 0 <= r ==> p(s[r]) && forall i | 0 <= i < r :: !p(s[i])
  {
    if s == [] then -1
    else if p(s[0]) then 0
    else
      var k := FindIndex(s[1..], p);
      if k == -1 then -1 else k + 1
  }

  /** First index of an element whose key is `k`, or -1 (`findIndex(t => key(t) === k)`). */
  function IndexOfKey<T, K(==)>(s: seq<T>, key: T -> K, k: K): (r: int)
    ensures -1 <= r < |s|
    ensures r == -1 <==> forall i | 0 <= i < |s| :: key(s[i]) != k
    ensures 0 <= r ==> key(s[r]) == k && forall i | 0 <= i < r :: key(s[i]) != k
  {
    if s == [] then -1
    else if key(s[0]) == k then 0
    else
      var i := IndexOfKey(s[1..], key, k);
      if i == -1 then -1 else i + 1
  }

  /** The set of keys occurring in `s`. */
  function KeySet<T(==), K>(s: seq<T>, key: T -> K): set<K>
  {
    set x | x in s :: key(x)
  }

  /** No two elements of `s` share a key. */
  predicate DistinctKeys<T, K(==)>(s: seq<T>, key: T -> K)
  {
    forall i, j | 0 <= i < j < |s| :: key(s[i]) != key(s[j])
  }

  /** Keeps the first element of each key, dropping later ones, skipping keys in `seen`.
      With `seen` empty this is `s.filter((x, i, self) => i === self.findIndex(t => key(t) === key(x)))`. */
  function DedupFrom<T(==), K(==)>(s: seq<T>, key: T -> K, seen: set<K>): (r: seq<T>)
    ensures IsSubseq(r, s)
    ensures DistinctKeys(r, key)
    ensures forall x | x in r :: x in s && key(x) !in seen
    decreases |s|
  {
    if s == [] then []
    else
      var k := key(s[0]);
      assert forall x | x in s[1..] :: x in s;
      if k in seen then
        DedupFrom(s[1..], key, seen)
      else
        var rest := DedupFrom(s[1..], key, seen + {k});
        var r := [s[0]] + rest;
        assert r[1..] == rest;
        assert forall i | 0 < i < |r| :: r[i] == rest[i - 1] && rest[i - 1] in rest;
        r
  }

  /** Every element of `r` is the first element of `s` carrying its key. */
  ghost predicate FirstOccurrences<T, K>(r: seq<T>, s: seq<T>, key: T -> K)
  {
    forall i | 0 <= i < |r| :: 0 <= IndexOfKey(s, key, key(r[i])) && s[IndexOfKey(s, key, key(r[i]))] == r[i]
  }

  /** The keys of `r` appear in `r` in the order of their first appearance in `s`. */
  ghost predicate FirstAppearanceOrder<T, K>(r: seq<T>, s: seq<T>, key: T -> K)
  {
    forall i, j | 0 <= i < j < |r| :: IndexOfKey(s, key, key(r[i])) < IndexOfKey(s, key, key(r[j]))
  }

  lemma {:induction false} DedupFromKeySet<T, K>(s: seq<T>, key: T -> K, seen: set<K>)
    ensures KeySet(DedupFrom(s, key, seen), key) == KeySet(s, key) - seen
    decreases |s|
  {
    if s != [] {
      var k := key(s[0]);
      assert s == [s[0]] + s[1..];
      assert KeySet(s, key) == {k} + KeySet(s[1..], key);
      if k in seen {
        DedupFromKeySet(s[1..], key, seen);
      } else {
        DedupFromKeySet(s[1..], key, seen + {k});
        var rest := DedupFrom(s[1..], key, seen + {k});
        assert KeySet([s[0]] + rest, key) == {k} + KeySet(rest, key);
      }
    }
  }

  /** Past a first element whose key differs, the first index of a key moves by one. */
  lemma IndexOfKeyTail<T, K>(s: seq<T>, key: T -> K, k: K)
    requires s != [] && key(s[0]) != k
    ensures IndexOfKey(s, key, k) == if IndexOfKey(s[1..], key, k) == -1 then -1 else IndexOfKey(s[1..], key, k) + 1
  {
  }

  lemma {:induction false} DedupFromFirst<T, K>(s: seq<T>, key: T -> K, seen: set<K>)
    ensures FirstOccurrences(DedupFrom(s, key, seen), s, key)
    decreases |s|
  {
    if s != [] {
      var k := key(s[0]);
      var seen' := if k in seen then seen else seen + {k};
      DedupFromFirst(s[1..], key, seen');
      var rest := DedupFrom(s[1..], key, seen');
      assert FirstOccurrences(rest, s[1..], key);
      forall i | 0 <= i < |rest|
        ensures 0 <= IndexOfKey(s, key, key(rest[i])) && s[IndexOfKey(s, key, key(rest[i]))] == rest[i]
      {
        var x := rest[i];
        assert x in rest;
        assert key(x) !in seen';
        IndexOfKeyTail(s, key, key(x));
        var j := IndexOfKey(s[1..], key, key(x));
        assert 0 <= j && s[1..][j] == x;
        assert s[j + 1] == x;
      }
      if k !in seen {
        var r := [s[0]] + rest;
        assert forall i | 0 < i < |r| :: r[i] == rest[i - 1];
      }
    }
  }

  lemma {:induction false} DedupFromOrder<T, K>(s: seq<T>, key: T -> K, seen: set<K>)
    ensures FirstAppearanceOrder(DedupFrom(s, key, seen), s, key)
    decreases |s|
  {
    if s != [] {
      var k := key(s[0]);
      var seen' := if k in seen then seen else seen + {k};
      DedupFromOrder(s[1..], key, seen');
      DedupFromFirst(s[1..], key, seen');
      var rest := DedupFrom(s[1..], key, seen');
      assert FirstOccurrences(rest, s[1..], key);
      assert FirstAppearanceOrder(rest, s[1..], key);
      var shifted := seq(|rest|, i requires 0 <= i < |rest| => IndexOfKey(s[1..], key, key(rest[i])) + 1);
      forall i | 0 <= i < |rest|
        ensures 1 <= shifted[i] && IndexOfKey(s, key, key(rest[i])) == shifted[i]
      {
        var x := rest[i];
        assert x in rest;
        assert key(x) !in seen';
        IndexOfKeyTail(s, key, key(x));
      }
      if k !in seen {
        var r := [s[0]] + rest;
        assert IndexOfKey(s, key, k) == 0;
        forall i, j | 0 <= i < j < |r|
          ensures IndexOfKey(s, key, key(r[i])) < IndexOfKey(s, key, key(r[j]))
        {
          assert r[j] == rest[j - 1];
          if 0 < i {
            assert r[i] == rest[i - 1];
          }
        }
      }
    }
  }

  /** First-occurrence de-duplication by key: a subsequence with one element per key
      of the input, each the first element carrying its key, in first-appearance order. */
  function DedupBy<T(==), K(==)>(s: seq<T>, key: T -> K): (r: seq<T>)
    ensures IsSubseq(r, s)
    ensures DistinctKeys(r, key)
    ensures KeySet(r, key) == KeySet(s, key)
    ensures FirstOccurrences(r, s, key)
    ensures FirstAppearanceOrder(r, s, key)
  {
    DedupFromKeySet(s, key, {});
    DedupFromFirst(s, key, {});
    DedupFromOrder(s, key, {});
    DedupFrom(s, key, {})
  }

  /** De-duplicating a sequence whose keys are already distinct changes nothing. */
  lemma {:induction false} DedupFromDistinct<T, K>(s: seq<T>, key: T -> K, seen: set<K>)
    requires DistinctKeys(s, key)
    requires forall x | x in s :: key(x) !in seen
    ensures DedupFrom(s, key, seen) == s
    decreases |s|
  {
    if s != [] {
      var tail, k := s[1..], key(s[0]);
      forall i, j | 0 <= i < j < |tail| ensures key(tail[i]) != key(tail[j]) {
        assert tail[i] == s[i + 1] && tail[j] == s[j + 1];
      }
      forall x | x in tail ensures key(x) !in seen + {k} {
        var j :| 0 <= j < |tail| && tail[j] == x;
        assert s[j + 1] == x && x in s;
      }
      DedupFromDistinct(tail, key, seen + {k});
      assert k !in seen;
      assert DedupFrom(s, key, seen) == [s[0]] + DedupFrom(tail, key, seen + {k});
      assert s == [s[0]] + tail;
    }
  }

  /** De-duplication is idempotent. */
  lemma DedupByIdempotent<T, K>(s: seq<T>, key: T -> K)
    ensures DedupBy(DedupBy(s, key), key) == DedupBy(s, key)
  {
    DedupFromDistinct(DedupBy(s, key), key, {});
  }

  /** `s.map(f)`. */
  function Map<T, U>(s: seq<T>, f: T -> U): (r: seq<U>)
    ensures |r| == |s|
    ensures forall i | 0 <= i < |s| :: r[i] == f(s[i])
  {
    seq(|s|, i requires 0 <= i < |s| => f(s[i]))
  }

  /** Concatenation of a sequence of sequences. */
  function Flatten<T>(ss: seq<seq<T>>): seq<T>
  {
    if ss == [] then [] else ss[0] + Flatten(ss[1..])
  }
}
