/**
 The order of Rust strings and the sorting built on it. Rust compares strings by
 their UTF-8 bytes, which is the order of their code points, so `Less` compares
 characters. `SortBy` is a stable sort by a string key; `SortedKeys` is the
 iteration order of an ordered map.
*/
module Ordering {

  predicate Less(a: string, b: string) {
    if b == "" then false
    else if a == "" then true
    else a[0] < b[0] || (a[0] == b[0] && Less(a[1..], b[1..]))
  }

  lemma LessIrreflexive(a: string)
    ensures !Less(a, a)
  {}

  lemma {:induction false} LessTransitive(a: string, b: string, c: string)
    requires Less(a, b) && Less(b, c)
    ensures Less(a, c)
  {
    if a != "" && a[0] == b[0] && b[0] == c[0] {
      LessTransitive(a[1..], b[1..], c[1..]);
    }
  }

  lemma LessAsymmetric(a: string, b: string)
    requires Less(a, b)
    ensures !Less(b, a)
  {
    if Less(b, a) {
      LessTransitive(a, b, a);
      LessIrreflexive(a);
    }
  }

  lemma {:induction false} LessTotal(a: string, b: string)
    ensures a == b || Less(a, b) || Less(b, a)
  {
    if a != "" && b != "" && a[0] == b[0] {
      LessTotal(a[1..], b[1..]);
      assert a == [a[0]] + a[1..] && b == [b[0]] + b[1..];
    }
  }

  ghost predicate SortedBy<T(!new)>(xs: seq<T>, key: T -> string) {
    forall i, j | 0 <= i < j < |xs| :: !Less(key(xs[j]), key(xs[i]))
  }

  ghost predicate AscendingBy<T(!new)>(xs: seq<T>, key: T -> string) {
    forall i, j | 0 <= i < j < |xs| :: Less(key(xs[i]), key(xs[j]))
  }

  ghost predicate DistinctBy<T(!new), K>(xs: seq<T>, key: T -> K) {
    forall i, j | 0 <= i < j < |xs| :: key(xs[i]) != key(xs[j])
  }

  /** Puts `x` before the first element whose key is not below its own. */
  function Insert<T(!new)>(x: T, xs: seq<T>, key: T -> string): (r: seq<T>)
    ensures multiset(r) == multiset{x} + multiset(xs)
    ensures SortedBy(xs, key) ==> SortedBy(r, key)
  {
    if xs == [] || !Less(key(xs[0]), key(x)) then
      assert SortedBy(xs, key) ==> SortedBy([x] + xs, key) by {
        if SortedBy(xs, key) {
          HeadIsLeast(x, xs, key);
        }
      }
      [x] + xs
    else
      var rest := Insert(x, xs[1..], key);
      assert xs == [xs[0]] + xs[1..];
      assert SortedBy(xs, key) ==> SortedBy([xs[0]] + rest, key) by {
        if SortedBy(xs, key) {
          HeadStaysLeast(x, xs, rest, key);
        }
      }
      [xs[0]] + rest
  }

  lemma HeadIsLeast<T(!new)>(x: T, xs: seq<T>, key: T -> string)
    requires SortedBy(xs, key)
    requires xs == [] || !Less(key(xs[0]), key(x))
    ensures SortedBy([x] + xs, key)
  {
    forall j | 0 <= j < |xs|
      ensures !Less(key(xs[j]), key(x))
    {
      if Less(key(xs[j]), key(x)) {
        LessTotal(key(xs[0]), key(xs[j]));
        if Less(key(xs[0]), key(xs[j])) {
          LessTransitive(key(xs[0]), key(xs[j]), key(x));
        }
      }
    }
  }

  lemma HeadStaysLeast<T(!new)>(x: T, xs: seq<T>, rest: seq<T>, key: T -> string)
    requires xs != [] && SortedBy(xs, key) && Less(key(xs[0]), key(x))
    requires SortedBy(rest, key) && multiset(rest) == multiset{x} + multiset(xs[1..])
    ensures SortedBy([xs[0]] + rest, key)
  {
    forall j | 0 <= j < |rest|
      ensures !Less(key(rest[j]), key(xs[0]))
    {
      assert rest[j] in multiset(rest);
      if rest[j] == x {
        LessAsymmetric(key(xs[0]), key(x));
      } else {
        assert rest[j] in multiset(xs[1..]);
        var i :| 0 <= i < |xs[1..]| && xs[1..][i] == rest[j];
        assert xs[i + 1] == rest[j];
      }
    }
  }

  function SortBy<T(!new)>(xs: seq<T>, key: T -> string): (r: seq<T>)
    ensures multiset(r) == multiset(xs)
    ensures SortedBy(r, key)
  {
    if xs == [] then [] else
      assert xs == [xs[0]] + xs[1..];
      Insert(xs[0], SortBy(xs[1..], key), key)
  }

  /** Two positions hold equal elements exactly when the multiset counts two. */
  lemma TwoPositions<T>(xs: seq<T>, x: T) returns (p: nat, q: nat)
    requires multiset(xs)[x] >= 2
    ensures p < q < |xs| && xs[p] == x && xs[q] == x
  {
    assert x in multiset(xs);
    p :| 0 <= p < |xs| && xs[p] == x;
    assert xs == xs[..p] + [x] + xs[p + 1..];
    if x in xs[..p] {
      var o :| 0 <= o < p && xs[o] == x;
      p, q := o, p;
    } else {
      assert x in multiset(xs[p + 1..]);
      var o :| 0 <= o < |xs[p + 1..]| && xs[p + 1..][o] == x;
      q := p + 1 + o;
    }
  }

  /** Taking one occurrence of the same element away from two permutations. */
  lemma PermutationsShrink<T>(a: seq<T>, b: seq<T>, k: nat)
    requires a != [] && k < |b| && b[k] == a[0] && multiset(a) == multiset(b)
    ensures multiset(a[1..]) == multiset(b[..k] + b[k + 1..])
  {
    assert a == [a[0]] + a[1..];
    assert b == b[..k] + [b[k]] + b[k + 1..];
    assert multiset(b) == multiset(b[..k]) + multiset{b[k]} + multiset(b[k + 1..]);
    assert multiset(a[1..]) == multiset(a) - multiset{a[0]};
  }

  /** Distinctness of keys does not depend on the order of the elements. */
  lemma DistinctIsOrderFree<T(!new), K>(xs: seq<T>, ys: seq<T>, key: T -> K)
    requires multiset(xs) == multiset(ys) && DistinctBy(xs, key)
    ensures DistinctBy(ys, key)
  {
    forall i, j | 0 <= i < j < |ys|
      ensures key(ys[i]) != key(ys[j])
    {
      if ys[i] == ys[j] {
        assert ys == ys[..i] + [ys[i]] + ys[i + 1..j] + [ys[j]] + ys[j + 1..];
        assert multiset(ys)[ys[i]] >= 2;
        var p, q := TwoPositions(xs, ys[i]);
        assert false;
      } else {
        assert ys[i] in multiset(ys) && ys[j] in multiset(ys);
        var p :| 0 <= p < |xs| && xs[p] == ys[i];
        var q :| 0 <= q < |xs| && xs[q] == ys[j];
      }
    }
  }

  lemma SortedDistinctIsAscending<T(!new)>(xs: seq<T>, key: T -> string)
    requires SortedBy(xs, key) && DistinctBy(xs, key)
    ensures AscendingBy(xs, key)
  {
    forall i, j | 0 <= i < j < |xs|
      ensures Less(key(xs[i]), key(xs[j]))
    {
      LessTotal(key(xs[i]), key(xs[j]));
    }
  }

  /** An ascending sequence is determined by its elements. */
  lemma {:induction false} AscendingIsUnique<T(!new)>(xs: seq<T>, ys: seq<T>, key: T -> string)
    requires AscendingBy(xs, key) && AscendingBy(ys, key)
    requires |xs| == |ys| && forall x :: x in xs <==> x in ys
    ensures xs == ys
  {
    if xs != [] {
      assert xs[0] in ys;
      assert ys[0] in xs;
      HeadsAgree(xs, ys, key);
      forall x
        ensures x in xs[1..] <==> x in ys[1..]
      {
        TailMember(xs, x, key);
        TailMember(ys, x, key);
      }
      AscendingIsUnique(xs[1..], ys[1..], key);
      assert xs == [xs[0]] + xs[1..] && ys == [ys[0]] + ys[1..];
    }
  }

  lemma HeadsAgree<T(!new)>(xs: seq<T>, ys: seq<T>, key: T -> string)
    requires AscendingBy(xs, key) && AscendingBy(ys, key)
    requires xs != [] && ys != [] && xs[0] in ys && ys[0] in xs
    ensures xs[0] == ys[0]
  {
    var i :| 0 <= i < |ys| && ys[i] == xs[0];
    var j :| 0 <= j < |xs| && xs[j] == ys[0];
    if i > 0 && j > 0 {
      LessAsymmetric(key(ys[0]), key(ys[i]));
    }
  }

  lemma TailMember<T(!new)>(xs: seq<T>, x: T, key: T -> string)
    requires AscendingBy(xs, key) && xs != []
    ensures x in xs[1..] <==> x in xs && x != xs[0]
  {
    if x in xs[1..] {
      var i :| 0 <= i < |xs[1..]| && xs[1..][i] == x;
      assert xs[i + 1] == x;
      LessIrreflexive(key(x));
      assert Less(key(xs[0]), key(xs[i + 1]));
    }
    if x in xs && x != xs[0] {
      var i :| 0 <= i < |xs| && xs[i] == x;
      assert xs[1..][i - 1] == x;
    }
  }

  /** Sorting depends only on the multiset of elements when keys are distinct. */
  lemma SortIsOrderFree<T(!new)>(xs: seq<T>, ys: seq<T>, key: T -> string)
    requires multiset(xs) == multiset(ys) && DistinctBy(xs, key)
    ensures SortBy(xs, key) == SortBy(ys, key)
  {
    var sx, sy := SortBy(xs, key), SortBy(ys, key);
    DistinctIsOrderFree(xs, sx, key);
    DistinctIsOrderFree(xs, sy, key);
    SortedDistinctIsAscending(sx, key);
    SortedDistinctIsAscending(sy, key);
    assert |multiset(sx)| == |multiset(sy)|;
    forall x
      ensures x in sx <==> x in sy
    {
      assert x in sx <==> x in multiset(sx);
      assert x in sy <==> x in multiset(sy);
    }
    AscendingIsUnique(sx, sy, key);
  }

  ghost predicate Ascending(keys: seq<string>) {
    forall i, j | 0 <= i < j < |keys| :: Less(keys[i], keys[j])
  }

  predicate IsLeast(m: string, s: set<string>) {
    m in s && forall x | x in s :: x == m || Less(m, x)
  }

  lemma {:induction false} LeastExists(s: set<string>)
    requires s != {}
    ensures exists m :: IsLeast(m, s)
    decreases |s|
  {
    var e :| e in s;
    if s == {e} {
      assert IsLeast(e, s);
    } else {
      assert s - {e} != {};
      LeastExists(s - {e});
      var n :| IsLeast(n, s - {e});
      LessTotal(n, e);
      var m := if Less(e, n) then e else n;
      forall x | x in s
        ensures x == m || Less(m, x)
      {
        if x != e && x != n && m == e {
          LessTransitive(e, n, x);
        }
      }
      assert IsLeast(m, s);
    }
  }

  lemma LeastIsUnique(s: set<string>)
    ensures forall m, n | IsLeast(m, s) && IsLeast(n, s) :: m == n
  {
    forall m, n | IsLeast(m, s) && IsLeast(n, s)
      ensures m == n
    {
      if m != n {
        LessAsymmetric(m, n);
      }
    }
  }

  lemma LeastGoesFirst(m: string, s: set<string>, rest: seq<string>)
    requires IsLeast(m, s)
    requires Ascending(rest) && |rest| == |s - {m}| && forall x :: x in rest <==> x in s - {m}
    ensures Ascending([m] + rest) && |[m] + rest| == |s| && forall x :: x in [m] + rest <==> x in s
  {
    forall i | 0 <= i < |rest|
      ensures Less(m, rest[i])
    {
      assert rest[i] in rest;
    }
  }

  /** The keys of an ordered map, in iteration order. */
  function SortedKeys(s: set<string>): (r: seq<string>)
    ensures forall x :: x in r <==> x in s
    ensures Ascending(r)
    ensures |r| == |s|
    decreases |s|
  {
    if s == {} then [] else
      LeastExists(s);
      LeastIsUnique(s);
      var m :| IsLeast(m, s);
      var rest := SortedKeys(s - {m});
      LeastGoesFirst(m, s, rest);
      [m] + rest
  }

  lemma SortedKeysUnique(s: set<string>, keys: seq<string>)
    requires Ascending(keys) && |keys| == |s| && forall x :: x in keys <==> x in s
    ensures keys == SortedKeys(s)
  {
    AscendingIsUnique(keys, SortedKeys(s), (k: string) => k);
  }
}
