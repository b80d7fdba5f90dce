/** Small shared vocabulary: an optional value, and the handful of JavaScript
    `Math` operations the HUD code relies on, stated over exact reals and
    unbounded integers. */
module Base {

  /** The JavaScript `null`/`undefined` versus a present value. */
  datatype Option<+T> = None | Some(value: T)

  function MinR(a: real, b: real): (r: real)
    ensures r <= a && r <= b
    ensures r == a || r == b
  {
    if a <= b then a else b
  }

  function MaxR(a: real, b: real): (r: real)
    ensures r >= a && r >= b
    ensures r == a || r == b
  {
    if a >= b then a else b
  }

  /** `Math.max(lo, Math.min(hi, x))`: the value kept inside [lo, hi]. */
  function Clamp(lo: real, hi: real, x: real): (r: real)
    requires lo <= hi
    ensures lo <= r <= hi
    ensures lo <= x <= hi ==> r == x
    ensures x < lo ==> r == lo
    ensures x > hi ==> r == hi
  {
    MaxR(lo, MinR(hi, x))
  }

  /** `Math.round(x)`: the nearest integer, halves rounded up. */
  function JsRound(x: real): (r: int)
    ensures x - 1.0 / 2.0 < r as real <= x + 1.0 / 2.0
  {
    (x + 1.0 / 2.0).Floor
  }

  /** JavaScript's `%` on integers: the remainder carries the sign of the
      dividend (truncating division), unlike Dafny's Euclidean `%`. */
  function JsRem(a: int, b: int): (r: int)
    requires b > 0
    ensures a >= 0 ==> 0 <= r < b
    ensures a < 0 ==> -b < r <= 0
    ensures a >= 0 ==> r == a % b
  {
    if a >= 0 then a % b else -((-a) % b)
  }

  /** `Math.floor(a / b)` for a positive integer divisor. */
  function FloorDiv(a: int, b: int): (r: int)
    requires b > 0
    ensures r * b <= a < r * b + b
  {
    a / b
  }

  function Sum(xs: seq<real>): real
  {
    if |xs| == 0 then 0.0 else xs[0] + Sum(xs[1..])
  }

  /** The arithmetic mean, or 0 for no values. */
  function Average(ds: seq<real>): (r: real)
    ensures |ds| == 0 ==> r == 0.0
    ensures r * |ds| as real == Sum(ds)
  {
    if |ds| > 0 then Sum(ds) / |ds| as real else 0.0
  }

  /** Every value of `ds` lies in [lo, hi]. */
  ghost predicate AllWithin(ds: seq<real>, lo: real, hi: real) {
    forall i :: 0 <= i < |ds| ==> lo <= ds[i] <= hi
  }

  lemma {:induction false} SumBounds(ds: seq<real>, lo: real, hi: real)
    requires AllWithin(ds, lo, hi)
    ensures lo * |ds| as real <= Sum(ds) <= hi * |ds| as real
  {
    if |ds| > 0 {
      assert AllWithin(ds[1..], lo, hi) by {
        forall i | 0 <= i < |ds[1..]| ensures lo <= ds[1..][i] <= hi {
          assert ds[1..][i] == ds[i + 1];
        }
      }
      SumBounds(ds[1..], lo, hi);
    }
  }

  /** Dividing both bounds of `lo * n <= s <= hi * n` by a positive `n`. */
  lemma {:induction false} DivideBounds(s: real, n: real, lo: real, hi: real)
    requires n > 0.0
    requires lo * n <= s <= hi * n
    ensures lo <= s / n <= hi
  {
    assert s / n - lo == (s - lo * n) / n;
    assert hi - s / n == (hi * n - s) / n;
  }

  /** The mean of values that all lie in [lo, hi] lies in [lo, hi] too. */
  lemma {:induction false} AverageWithin(ds: seq<real>, lo: real, hi: real)
    requires AllWithin(ds, lo, hi)
    requires |ds| > 0
    ensures lo <= Average(ds) <= hi
  {
    SumBounds(ds, lo, hi);
    DivideBounds(Sum(ds), |ds| as real, lo, hi);
  }

  /** `Array.prototype.filter`: the elements satisfying `f`, in order. */
  function Filter<T>(s: seq<T>, f: T -> bool): (r: seq<T>)
    ensures |r| <= |s|
    ensures forall i :: 0 <= i < |r| ==> r[i] in s && f(r[i])
    ensures forall i :: 0 <= i < |s| && f(s[i]) ==> s[i] in r
    ensures (forall i :: 0 <= i < |s| ==> f(s[i])) ==> r == s
  {
    if |s| == 0 then [] else (if f(s[0]) then [s[0]] else []) + Filter(s[1..], f)
  }

  /** `a` is `b` with some elements left out, order kept. */
  ghost predicate Subseq<T>(a: seq<T>, b: seq<T>)
    decreases |b|
  {
    |a| == 0 || (|b| > 0 && ((a[0] == b[0] && Subseq(a[1..], b[1..])) || Subseq(a, b[1..])))
  }

  /** Filtering keeps the order of what it keeps. */
  lemma {:induction false} FilterSubseq<T>(s: seq<T>, f: T -> bool)
    ensures Subseq(Filter(s, f), s)
    decreases |s|
  {
    if |s| > 0 {
      FilterSubseq(s[1..], f);
      if f(s[0]) {
        assert Filter(s, f) == [s[0]] + Filter(s[1..], f);
        assert Filter(s, f)[1..] == Filter(s[1..], f);
      } else {
        assert Filter(s, f) == Filter(s[1..], f);
      }
    }
  }

  /** Filtering keeps every copy of a passing value and no copy of a
      failing one. */
  lemma {:induction false} FilterCounts<T>(s: seq<T>, f: T -> bool)
    ensures forall v :: multiset(Filter(s, f))[v] == if f(v) then multiset(s)[v] else 0
  {
    if |s| > 0 {
      FilterCounts(s[1..], f);
      assert s == [s[0]] + s[1..];
      assert Filter(s, f) == (if f(s[0]) then [s[0]] else []) + Filter(s[1..], f);
    }
  }

  lemma {:induction false} SubseqTrans<T>(a: seq<T>, b: seq<T>, c: seq<T>)
    requires Subseq(a, b) && Subseq(b, c)
    ensures Subseq(a, c)
    decreases |c|
  {
    if |a| > 0 {
      if b[0] == c[0] && Subseq(b[1..], c[1..]) {
        if a[0] == b[0] && Subseq(a[1..], b[1..]) {
          SubseqTrans(a[1..], b[1..], c[1..]);
        } else {
          SubseqTrans(a, b[1..], c[1..]);
        }
      } else {
        SubseqTrans(a, b, c[1..]);
      }
    }
  }

  lemma {:induction false} PrefixSubseq<T>(a: seq<T>, n: nat)
    requires n <= |a|
    ensures Subseq(a[..n], a)
    decreases |a|
  {
    if n > 0 {
      assert a[..n][1..] == a[1..][..n - 1];
      PrefixSubseq(a[1..], n - 1);
    }
  }

  lemma {:induction false} SubseqMembers<T>(a: seq<T>, b: seq<T>)
    requires Subseq(a, b)
    ensures forall k :: 0 <= k < |a| ==> a[k] in b
    decreases |b|
  {
    if |a| > 0 {
      if a[0] == b[0] && Subseq(a[1..], b[1..]) {
        SubseqMembers(a[1..], b[1..]);
        forall k | 0 <= k < |a| ensures a[k] in b {
          if k > 0 {
            assert a[k] == a[1..][k - 1];
          }
        }
      } else {
        SubseqMembers(a, b[1..]);
      }
    }
  }

  /** Filtering distributes over concatenation, so it keeps relative order. */
  lemma {:induction false} FilterAppend<T>(a: seq<T>, b: seq<T>, f: T -> bool)
    ensures Filter(a + b, f) == Filter(a, f) + Filter(b, f)
  {
    if |a| == 0 {
      assert a + b == b;
    } else {
      assert (a + b)[1..] == a[1..] + b;
      FilterAppend(a[1..], b, f);
    }
  }

  /** The index of the first element satisfying `f`, as a `for … of` loop
      with `break` finds it. */
  function FirstIndex<T>(s: seq<T>, f: T -> bool): (r: Option<nat>)
    ensures r.Some? ==> r.value < |s| && f(s[r.value])
    ensures r.Some? ==> forall j :: 0 <= j < r.value ==> !f(s[j])
    ensures r.None? <==> forall j :: 0 <= j < |s| ==> !f(s[j])
  {
    if |s| == 0 then None
    else if f(s[0]) then Some(0)
    else match FirstIndex(s[1..], f)
      case None => None
      case Some(k) => Some(k + 1)
  }

  /** Filtering out the single element that fails the test removes exactly
      that element. */
  lemma {:induction false} FilterDropsOne<T>(s: seq<T>, i: nat, f: T -> bool)
    requires i < |s| && !f(s[i])
    requires forall k :: 0 <= k < |s| && k != i ==> f(s[k])
    ensures Filter(s, f) == s[..i] + s[i + 1..]
  {
    var pre := s[..i];
    var tail := s[i + 1..];
    assert s == pre + ([s[i]] + tail);
    assert Filter(pre, f) == pre by {
      forall k | 0 <= k < |pre| ensures f(pre[k]) {
        assert pre[k] == s[k];
      }
    }
    assert Filter(tail, f) == tail by {
      forall k | 0 <= k < |tail| ensures f(tail[k]) {
        assert tail[k] == s[i + 1 + k];
      }
    }
    assert Filter([s[i]], f) == [] by {
      assert [s[i]][1..] == [];
    }
    assert Filter([s[i]] + tail, f) == tail by {
      FilterAppend([s[i]], tail, f);
    }
    FilterAppend(pre, [s[i]] + tail, f);
  }

  /** No two elements of `s` share a key: the model's stand-in for distinct
      object identities. */
  ghost predicate DistinctBy<T, K>(s: seq<T>, key: T -> K) {
    forall i, j :: 0 <= i < j < |s| ==> key(s[i]) != key(s[j])
  }

  /** Dropping the first `n` elements and appending one with a new key keeps
      the keys distinct. */
  lemma AppendFreshDistinct<T, K>(s: seq<T>, n: nat, x: T, key: T -> K)
    requires n <= |s|
    requires forall i :: 0 <= i < |s| ==> key(s[i]) != key(x)
    ensures DistinctBy(s, key) ==> DistinctBy(s[n..] + [x], key)
  {
    if DistinctBy(s, key) {
      var r := s[n..] + [x];
      forall i, j | 0 <= i < j < |r| ensures key(r[i]) != key(r[j]) {
        assert r[i] == s[n + i];
        if j < |r| - 1 {
          assert r[j] == s[n + j];
        }
      }
    }
  }

  /** Leaving out one element keeps the keys distinct. */
  lemma DropDistinct<T, K>(s: seq<T>, n: nat, key: T -> K)
    requires n < |s|
    requires DistinctBy(s, key)
    ensures DistinctBy(s[..n] + s[n + 1..], key)
  {
    var r := s[..n] + s[n + 1..];
    forall i, j | 0 <= i < j < |r| ensures key(r[i]) != key(r[j]) {
      assert r[i] == if i < n then s[i] else s[i + 1];
      assert r[j] == if j < n then s[j] else s[j + 1];
    }
  }

  /** A subsequence of a sequence with distinct keys has distinct keys. */
  lemma {:induction false} SubseqDistinct<T, K>(a: seq<T>, b: seq<T>, key: T -> K)
    requires Subseq(a, b)
    ensures DistinctBy(b, key) ==> DistinctBy(a, key)
    decreases |b|
  {
    if |a| > 0 && DistinctBy(b, key) {
      DropDistinct(b, 0, key);
      assert b[..0] + b[1..] == b[1..];
      if a[0] == b[0] && Subseq(a[1..], b[1..]) {
        SubseqDistinct(a[1..], b[1..], key);
        SubseqMembers(a[1..], b[1..]);
        forall i, j | 0 <= i < j < |a| ensures key(a[i]) != key(a[j]) {
          assert a[j] == a[1..][j - 1];
          if i == 0 {
            var m :| 0 <= m < |b[1..]| && b[1..][m] == a[j];
            assert b[m + 1] == a[j];
          } else {
            assert a[i] == a[1..][i - 1];
          }
        }
      } else {
        SubseqDistinct(a, b[1..], key);
      }
    }
  }
}
