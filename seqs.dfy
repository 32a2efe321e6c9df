/**
 * Sequence facts shared by several services: how often a value occurs,
 * the first-occurrence order in which a Python dict remembers its keys, and
 * Python's stable `sorted(xs, key=k, reverse=True)`.
 */
module Seqs {

  lemma AppendAssoc<T>(a: seq<T>, b: seq<T>, c: seq<T>)
    ensures a + (b + c) == (a + b) + c
  {
  }

  /** Extending a prefix by one element. */
  lemma PrefixSnoc<T>(s: seq<T>, i: nat)
    requires i < |s|
    ensures s[..i + 1] == s[..i] + [s[i]]
  {
  }

  /** A prefix reaching into the second part of a concatenation. */
  lemma PrefixAppend<T>(a: seq<T>, b: seq<T>, m: nat)
    requires m <= |b|
    ensures (a + b)[..|a| + m] == a + b[..m]
  {
  }

  /** Replacing the element between two parts. */
  lemma UpdateMiddle<T>(a: seq<T>, x: T, b: seq<T>, y: T)
    ensures (a + ([x] + b))[|a| := y] == (a + [y]) + b
  {
  }

  /** A suffix is its first element followed by the next suffix. */
  lemma SuffixCons<T>(s: seq<T>, k: nat)
    requires k < |s|
    ensures s[k..] == [s[k]] + s[k + 1..]
    ensures s[k + 1..] == s[k..][1..]
  {
  }

  lemma AppendNil<T>(a: seq<T>)
    ensures a + [] == a
  {
  }

  /** Number of occurrences of `x` in `s`. */
  function Count<T(==)>(s: seq<T>, x: T): nat
  {
    if s == [] then 0
    else Count(s[..|s| - 1], x) + (if s[|s| - 1] == x then 1 else 0)
  }

  lemma CountSnoc<T>(s: seq<T>, y: T, x: T)
    ensures Count(s + [y], x) == Count(s, x) + (if y == x then 1 else 0)
  {
    assert (s + [y])[..|s|] == s;
  }

  lemma {:induction false} CountPositive<T>(s: seq<T>, x: T)
    ensures Count(s, x) > 0 <==> x in s
  {
    if s != [] {
      CountPositive(s[..|s| - 1], x);
      assert s == s[..|s| - 1] + [s[|s| - 1]];
    }
  }

  predicate NoDuplicates<T(==)>(s: seq<T>)
  {
    forall i, j :: 0 <= i < j < |s| ==> s[i] != s[j]
  }

  /** Dropping one position keeps a sequence duplicate-free. */
  lemma NoDuplicatesRemoveAt<T>(s: seq<T>, p: nat)
    requires p < |s| && NoDuplicates(s)
    ensures NoDuplicates(s[..p] + s[p + 1..])
  {
    var r := s[..p] + s[p + 1..];
    forall a, b | 0 <= a < b < |r| ensures r[a] != r[b] {
      var a' := if a < p then a else a + 1;
      var b' := if b < p then b else b + 1;
      assert r[a] == s[a'] && r[b] == s[b'];
    }
  }

  /** The distinct elements of `s` in order of first occurrence: the key order of
      a Python dict filled by walking `s`. */
  function Distinct<T(==)>(s: seq<T>): (d: seq<T>)
    ensures NoDuplicates(d)
    ensures forall i :: 0 <= i < |d| ==> d[i] in s
  {
    if s == [] then []
    else
      var init := s[..|s| - 1];
      var d := Distinct(init);
      var x := s[|s| - 1];
      assert s == init + [x];
      if x in d then d else d + [x]
  }

  /** Every element of `s` is kept. */
  lemma {:induction false} InDistinct<T>(s: seq<T>, x: T)
    ensures x in Distinct(s) <==> x in s
  {
    if s != [] {
      var init := s[..|s| - 1];
      InDistinct(init, x);
      assert s == init + [s[|s| - 1]];
    }
  }

  lemma DistinctSnoc<T>(s: seq<T>, x: T)
    ensures Distinct(s + [x]) == if x in s then Distinct(s) else Distinct(s) + [x]
  {
    assert (s + [x])[..|s|] == s;
    InDistinct(s, x);
  }

  /** The items of the dict `{x: s.count(x)}` filled by walking `s`, in insertion order. */
  function Tally<T(==)>(s: seq<T>): (items: seq<(T, nat)>)
  {
    var order := Distinct(s);
    seq(|order|, k requires 0 <= k < |order| => (order[k], Count(s, order[k])))
  }

  /** One step of the counting loop: the word's count goes up by one
      (from zero when new) in an insertion-ordered dict. */
  lemma TallyStep<T>(toks: seq<T>, w: T, order: seq<T>, freq: map<T, nat>)
    requires order == Distinct(toks)
    requires forall x :: x in freq <==> x in order
    requires forall x :: x in freq ==> freq[x] == Count(toks, x)
    ensures var order' := if w in freq then order else order + [w];
            var freq' := freq[w := (if w in freq then freq[w] else 0) + 1];
            && order' == Distinct(toks + [w])
            && (forall x :: x in freq' <==> x in order')
            && (forall x :: x in freq' ==> freq'[x] == Count(toks + [w], x))
  {
    DistinctSnoc(toks, w);
    InDistinct(toks, w);
    var freq' := freq[w := (if w in freq then freq[w] else 0) + 1];
    forall x | x in freq' ensures freq'[x] == Count(toks + [w], x) {
      CountSnoc(toks, w, x);
      if x == w && w !in freq {
        CountPositive(toks, w);
      }
    }
  }

  /** Keep the elements whose key is `v`, in order. */
  function WithKey<T>(s: seq<T>, key: T -> real, v: real): seq<T>
  {
    if s == [] then []
    else (if key(s[0]) == v then [s[0]] else []) + WithKey(s[1..], key, v)
  }

  predicate SortedDesc<T>(s: seq<T>, key: T -> real)
  {
    forall i, j :: 0 <= i < j < |s| ==> key(s[i]) >= key(s[j])
  }

  /** Insert `x` after every element with a strictly larger key. */
  function InsertDesc<T>(x: T, s: seq<T>, key: T -> real): seq<T>
  {
    if s == [] || key(s[0]) <= key(x) then [x] + s
    else [s[0]] + InsertDesc(x, s[1..], key)
  }

  /** Python `sorted(s, key=key, reverse=True)`: a stable sort, largest key first. */
  function SortDescBy<T>(s: seq<T>, key: T -> real): seq<T>
  {
    if s == [] then [] else InsertDesc(s[0], SortDescBy(s[1..], key), key)
  }

  lemma {:induction false} InsertDescMultiset<T>(x: T, s: seq<T>, key: T -> real)
    ensures multiset(InsertDesc(x, s, key)) == multiset(s) + multiset{x}
  {
    if s != [] && key(s[0]) > key(x) {
      InsertDescMultiset(x, s[1..], key);
      assert s == [s[0]] + s[1..];
    }
  }

  lemma {:induction false} InsertDescSorted<T>(x: T, s: seq<T>, key: T -> real)
    requires SortedDesc(s, key)
    ensures SortedDesc(InsertDesc(x, s, key), key)
  {
    if s != [] && key(s[0]) > key(x) {
      var t := InsertDesc(x, s[1..], key);
      InsertDescSorted(x, s[1..], key);
      InsertDescMultiset(x, s[1..], key);
      var r := [s[0]] + t;
      forall j | 0 < j < |r| ensures key(r[0]) >= key(r[j]) {
        assert r[j] == t[j - 1];
        assert r[j] in multiset(t);
        if r[j] != x {
          assert r[j] in multiset(s[1..]);
          var m :| 0 <= m < |s[1..]| && s[1..][m] == r[j];
          assert s[m + 1] == r[j];
        }
      }
    }
  }

  lemma WithKeyCons<T>(y: T, s: seq<T>, key: T -> real, v: real)
    ensures WithKey([y] + s, key, v) == (if key(y) == v then [y] else []) + WithKey(s, key, v)
  {
    assert ([y] + s)[0] == y && ([y] + s)[1..] == s;
  }

  lemma {:induction false} InsertDescWithKey<T>(x: T, s: seq<T>, key: T -> real, v: real)
    ensures WithKey(InsertDesc(x, s, key), key, v) == (if key(x) == v then [x] else []) + WithKey(s, key, v)
  {
    WithKeyCons(x, s, key, v);
    if s != [] && key(s[0]) > key(x) {
      var t := InsertDesc(x, s[1..], key);
      InsertDescWithKey(x, s[1..], key, v);
      WithKeyCons(s[0], t, key, v);
      WithKeyCons(s[0], s[1..], key, v);
      assert s == [s[0]] + s[1..];
      var hx := if key(x) == v then [x] else [];
      var h0 := if key(s[0]) == v then [s[0]] else [];
      assert hx == [] || h0 == [];
      AppendAssoc(h0, hx, WithKey(s[1..], key, v));
      AppendAssoc(hx, h0, WithKey(s[1..], key, v));
    }
  }

  /** The stable descending sort: it is ordered by key, a permutation of its input,
      and keeps the input order among elements of equal key (filtering by any key
      value commutes with sorting). */
  lemma {:induction false} SortDescByFacts<T>(s: seq<T>, key: T -> real)
    ensures SortedDesc(SortDescBy(s, key), key)
    ensures multiset(SortDescBy(s, key)) == multiset(s)
    ensures forall v :: WithKey(SortDescBy(s, key), key, v) == WithKey(s, key, v)
  {
    SortDescBySorted(s, key);
    SortDescByMultiset(s, key);
    forall v ensures WithKey(SortDescBy(s, key), key, v) == WithKey(s, key, v) {
      SortDescByWithKey(s, key, v);
    }
  }

  lemma {:induction false} SortDescBySorted<T>(s: seq<T>, key: T -> real)
    ensures SortedDesc(SortDescBy(s, key), key)
  {
    if s != [] {
      SortDescBySorted(s[1..], key);
      InsertDescSorted(s[0], SortDescBy(s[1..], key), key);
    }
  }

  lemma {:induction false} SortDescByMultiset<T>(s: seq<T>, key: T -> real)
    ensures multiset(SortDescBy(s, key)) == multiset(s)
  {
    if s != [] {
      SortDescByMultiset(s[1..], key);
      InsertDescMultiset(s[0], SortDescBy(s[1..], key), key);
      assert s == [s[0]] + s[1..];
    }
  }

  lemma {:induction false} SortDescByWithKey<T>(s: seq<T>, key: T -> real, v: real)
    ensures WithKey(SortDescBy(s, key), key, v) == WithKey(s, key, v)
  {
    if s != [] {
      SortDescByWithKey(s[1..], key, v);
      InsertDescWithKey(s[0], SortDescBy(s[1..], key), key, v);
      WithKeyCons(s[0], s[1..], key, v);
      assert s == [s[0]] + s[1..];
    }
  }

  lemma SortDescByLength<T>(s: seq<T>, key: T -> real)
    ensures |SortDescBy(s, key)| == |s|
  {
    SortDescByFacts(s, key);
    assert |multiset(SortDescBy(s, key))| == |multiset(s)|;
  }

  lemma PermutationKeepsElements<T>(a: seq<T>, b: seq<T>)
    requires multiset(a) == multiset(b)
    ensures forall x :: x in a <==> x in b
  {
    forall x ensures x in a <==> x in b {
      assert x in a <==> x in multiset(a);
      assert x in b <==> x in multiset(b);
    }
  }

  /** A permutation of a duplicate-free sequence is duplicate-free. */
  lemma {:induction false} PermutationNoDuplicates<T>(a: seq<T>, b: seq<T>)
    requires multiset(a) == multiset(b) && NoDuplicates(a)
    ensures NoDuplicates(b)
  {
    forall i, j | 0 <= i < j < |b| ensures b[i] != b[j] {
      if b[i] == b[j] {
        var x := b[i];
        assert multiset(b)[x] >= 2 by {
          assert b == b[..i] + [x] + b[i + 1..j] + [x] + b[j + 1..];
          assert multiset(b) == multiset(b[..i]) + multiset{x} + multiset(b[i + 1..j]) + multiset{x} + multiset(b[j + 1..]);
        }
        MultiplicityOne(a, x);
      }
    }
  }

  lemma {:induction false} MultiplicityOne<T>(a: seq<T>, x: T)
    requires NoDuplicates(a)
    ensures multiset(a)[x] <= 1
  {
    if a != [] {
      assert a == [a[0]] + a[1..];
      assert NoDuplicates(a[1..]);
      MultiplicityOne(a[1..], x);
      if a[0] == x {
        assert x !in a[1..];
        assert multiset(a[1..])[x] == 0;
      }
    }
  }

  /** The keys of a list of (key, value) pairs, in order. */
  function Firsts<A, B>(s: seq<(A, B)>): (r: seq<A>)
    ensures |r| == |s| && forall i :: 0 <= i < |s| ==> r[i] == s[i].0
  {
    seq(|s|, i requires 0 <= i < |s| => s[i].0)
  }
}
