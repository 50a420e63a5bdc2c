/** The NumPy primitives the QC code relies on, restated over unbounded reals and
    integers: sums and means, minimum and maximum, np.arange, truncating casts,
    np.clip, Python slicing, np.sort and the first-occurrence form of np.unique.
    Not-a-number is modelled as Option.None. */
module ArrayOps {
  import opened Wrappers

  // ---------------------------------------------------------------------------
  // Sums, means, extrema

  function Sum(s: seq<real>): real
  {
    if |s| == 0 then 0.0 else Sum(s[..|s| - 1]) + s[|s| - 1]
  }

  lemma {:induction false} SumConcat(a: seq<real>, b: seq<real>)
    ensures Sum(a + b) == Sum(a) + Sum(b)
  {
    if |b| == 0 {
      assert a + b == a;
    } else {
      assert (a + b)[..|a + b| - 1] == a + b[..|b| - 1];
      SumConcat(a, b[..|b| - 1]);
    }
  }

  /** Sum of a sequence whose every element lies in [lo, hi]. */
  lemma {:induction false} SumBounds(s: seq<real>, lo: real, hi: real)
    requires forall k :: 0 <= k < |s| ==> lo <= s[k] <= hi
    ensures (|s| as real) * lo <= Sum(s) <= (|s| as real) * hi
  {
    if |s| > 0 {
      SumBounds(s[..|s| - 1], lo, hi);
    }
  }

  /** np.mean of a non-empty sequence. */
  function Mean(s: seq<real>): real
    requires |s| > 0
  {
    Sum(s) / (|s| as real)
  }

  function Min(s: seq<real>): (m: real)
    requires |s| > 0
    ensures m in s
    ensures forall k :: 0 <= k < |s| ==> m <= s[k]
  {
    if |s| == 1 then s[0]
    else
      var p := Min(s[..|s| - 1]);
      if s[|s| - 1] < p then s[|s| - 1] else p
  }

  function Max(s: seq<real>): (m: real)
    requires |s| > 0
    ensures m in s
    ensures forall k :: 0 <= k < |s| ==> s[k] <= m
  {
    if |s| == 1 then s[0]
    else
      var p := Max(s[..|s| - 1]);
      if s[|s| - 1] > p then s[|s| - 1] else p
  }

  /** A sequence of n elements with mean c sums to n * c. */
  lemma MeanTimesCount(s: seq<real>, c: real)
    requires |s| > 0 && Mean(s) == c
    ensures Sum(s) == (|s| as real) * c
  {
  }

  /** A sequence of n elements summing to n * c has mean c. */
  lemma MeanOfSum(s: seq<real>, c: real)
    requires |s| > 0 && Sum(s) == (|s| as real) * c
    ensures Mean(s) == c
  {
  }

  /** A sequence summing as n copies of c has mean c. */
  lemma MeanOfEqualSum(s: seq<real>, cs: seq<real>, c: real)
    requires |s| == |cs| > 0 && Sum(s) == Sum(cs)
    requires forall k :: 0 <= k < |cs| ==> cs[k] == c
    ensures Mean(s) == c
  {
    SumConstant(cs, c);
    MeanOfSum(s, c);
  }

  /** A sequence of n copies of c sums to n * c. */
  lemma SumConstant(s: seq<real>, c: real)
    requires forall k :: 0 <= k < |s| ==> s[k] == c
    ensures Sum(s) == (|s| as real) * c
  {
    SumBounds(s, c, c);
  }

  /** A mean lies between the smallest and the largest element. */
  lemma MeanBounds(s: seq<real>)
    requires |s| > 0
    ensures Min(s) <= Mean(s) <= Max(s)
  {
    MeanWithin(s, Min(s), Max(s));
  }

  /** The mean of values that all lie in [lo, hi] lies in [lo, hi]. */
  lemma MeanWithin(s: seq<real>, lo: real, hi: real)
    requires |s| > 0
    requires forall k :: 0 <= k < |s| ==> lo <= s[k] <= hi
    ensures lo <= Mean(s) <= hi
  {
    SumBounds(s, lo, hi);
    DivBounds(Sum(s), |s| as real, lo, hi);
  }

  lemma DivBounds(a: real, n: real, lo: real, hi: real)
    requires n > 0.0 && n * lo <= a <= n * hi
    ensures lo <= a / n <= hi
  {
    var q := a / n;
    assert q * n == a;
    assert (q - lo) * n == a - lo * n;
    assert (hi - q) * n == hi * n - a;
  }

  /** Dividing a multiple o = k * b by b gives the factor k back. */
  lemma DivOfMultiple(o: real, k: real, b: real)
    requires b != 0.0 && o == k * b
    ensures o / b == k
  {
    var y := o / b;
    assert y * b == k * b;
    assert (y - k) * b == 0.0;
  }

  /** Adding c to every element of a sequence. */
  function Shifted(s: seq<real>, c: real): (r: seq<real>)
    ensures |r| == |s|
    ensures forall k :: 0 <= k < |s| ==> r[k] == s[k] + c
  {
    seq(|s|, k requires 0 <= k < |s| => s[k] + c)
  }

  lemma {:induction false} SumShifted(s: seq<real>, c: real)
    ensures Sum(Shifted(s, c)) == Sum(s) + (|s| as real) * c
  {
    if |s| > 0 {
      assert Shifted(s, c)[..|s| - 1] == Shifted(s[..|s| - 1], c);
      SumShifted(s[..|s| - 1], c);
    }
  }

  /** Shifting every element by c shifts the mean by c. */
  lemma MeanShifted(s: seq<real>, c: real)
    requires |s| > 0
    ensures Mean(Shifted(s, c)) == Mean(s) + c
  {
    SumShifted(s, c);
    DivShift(Sum(s), |s| as real, c);
  }

  lemma DivShift(a: real, n: real, c: real)
    requires n > 0.0
    ensures (a + n * c) / n == a / n + c
  {
    var q := a / n;
    assert q * n == a;
    assert a + n * c == (q + c) * n;
    DivOfMultiple(a + n * c, q + c, n);
  }

  // ---------------------------------------------------------------------------
  // Rounding, np.arange, np.clip, truncating casts

  /** The least integer not below q. */
  function Ceil(q: real): (c: int)
    ensures (c as real) - 1.0 < q <= c as real
  {
    -((-q).Floor)
  }

  /** Conversion of a real to an integer as `astype(np.int32)` does it, towards zero
      (the 32-bit range is not modelled). */
  function Trunc(r: real): (t: int)
    ensures 0.0 <= r ==> 0 <= t && t as real <= r < (t as real) + 1.0
    ensures r < 0.0 ==> t <= 0 && (t as real) - 1.0 < r <= t as real
  {
    if r >= 0.0 then r.Floor else -((-r).Floor)
  }

  /** np.clip of one value into [lo, hi]. */
  function Clip(v: int, lo: int, hi: int): (r: int)
    requires lo <= hi
    ensures lo <= r <= hi
    ensures lo <= v <= hi ==> r == v
    ensures v < lo ==> r == lo
    ensures hi < v ==> r == hi
  {
    if v < lo then lo else if v > hi then hi else v
  }

  /** Number of values np.arange(start, stop, step) yields. */
  function ArangeLength(start: real, stop: real, step: real): nat
    requires step != 0.0
  {
    var q := (stop - start) / step;
    if q <= 0.0 then 0 else Ceil(q)
  }

  /** np.arange(start, stop, step): the values start + k * step for k below the length. */
  function Arange(start: real, stop: real, step: real): (r: seq<real>)
    requires step != 0.0
    ensures |r| == ArangeLength(start, stop, step)
  {
    seq(ArangeLength(start, stop, step), k => start + (k as real) * step)
  }

  /** For a positive step, np.arange yields exactly the points start + k * step that lie
      below stop. */
  lemma ArangeMember(start: real, stop: real, step: real, k: nat)
    requires step > 0.0
    ensures k < |Arange(start, stop, step)| <==> start + (k as real) * step < stop
    ensures k < |Arange(start, stop, step)| ==> Arange(start, stop, step)[k] == start + (k as real) * step
  {
    var q := (stop - start) / step;
    var kr := k as real;
    ScaleLess(kr, q, step);
    assert q * step == stop - start;
    if q > 0.0 {
      var c := Ceil(q);
      assert k < c <==> kr < q;
    }
  }

  /** Multiplying by a positive factor keeps strict order. */
  lemma ScaleLess(a: real, c: real, step: real)
    requires step > 0.0
    ensures a < c <==> a * step < c * step
  {
    assert c * step - a * step == (c - a) * step;
  }

  // ---------------------------------------------------------------------------
  // Python slicing

  /** Where a Python slice bound i lands in a sequence of length n. */
  function SliceBound(i: int, n: nat): (b: nat)
    ensures b <= n
    ensures 0 <= i <= n ==> b == i
    ensures n < i ==> b == n
    ensures i < 0 ==> b == if i + n < 0 then 0 else i + n
  {
    if i < 0 then (if i + n < 0 then 0 else i + n) else if i > n then n else i
  }

  /** s[lo:hi] with Python's rules: negative bounds count from the end, bounds beyond the
      ends are clamped, and an inverted range is empty. */
  function PySlice<T>(s: seq<T>, lo: int, hi: int): (r: seq<T>)
    ensures |r| <= |s|
    ensures 0 <= lo ==> forall k :: 0 <= k < |r| ==> lo + k < |s| && r[k] == s[lo + k]
    ensures 0 <= lo <= hi ==> |r| == SliceBound(hi, |s|) - SliceBound(lo, |s|)
  {
    var a := SliceBound(lo, |s|);
    var b := SliceBound(hi, |s|);
    if a < b then s[a..b] else []
  }

  // ---------------------------------------------------------------------------
  // np.sort

  ghost predicate Sorted(s: seq<real>)
  {
    forall i, j :: 0 <= i < j < |s| ==> s[i] <= s[j]
  }

  function Insert(x: real, s: seq<real>): (r: seq<real>)
    requires Sorted(s)
    ensures Sorted(r)
    ensures multiset(r) == multiset(s) + multiset{x}
  {
    if |s| == 0 then [x]
    else if x <= s[0] then
      assert Sorted([x] + s) by {
        ConsSorted(x, s);
      }
      [x] + s
    else
      var rest := Insert(x, s[1..]);
      InsertBehindHead(x, s, rest);
      [s[0]] + rest
  }

  /** Inserting x behind a smaller head keeps the order and adds x once. */
  lemma InsertBehindHead(x: real, s: seq<real>, rest: seq<real>)
    requires Sorted(s) && |s| > 0 && s[0] < x
    requires Sorted(rest) && multiset(rest) == multiset(s[1..]) + multiset{x}
    ensures Sorted([s[0]] + rest)
    ensures multiset([s[0]] + rest) == multiset(s) + multiset{x}
  {
    assert multiset(rest) == multiset(s[1..] + [x]);
    BoundedByMultiset(s[0], rest, s[1..] + [x]);
    ConsSorted(s[0], rest);
    assert s == [s[0]] + s[1..];
  }

  /** A sorted sequence stays sorted below a head no larger than its elements. */
  lemma ConsSorted(h: real, t: seq<real>)
    requires Sorted(t)
    requires forall k :: 0 <= k < |t| ==> h <= t[k]
    ensures Sorted([h] + t)
  {
    forall i, j | 0 <= i < j < |[h] + t| ensures ([h] + t)[i] <= ([h] + t)[j] {
      if i > 0 {
        assert ([h] + t)[i] == t[i - 1];
      }
      assert ([h] + t)[j] == t[j - 1];
    }
  }

  /** A lower bound of the elements of b bounds those of any permutation a of b. */
  lemma BoundedByMultiset(h: real, a: seq<real>, b: seq<real>)
    requires multiset(a) == multiset(b)
    requires forall k :: 0 <= k < |b| ==> h <= b[k]
    ensures forall k :: 0 <= k < |a| ==> h <= a[k]
  {
    forall k | 0 <= k < |a| ensures h <= a[k] {
      assert a[k] in multiset(a);
      assert a[k] in b;
    }
  }

  /** np.sort: an ascending permutation of the input. */
  function Sort(s: seq<real>): (r: seq<real>)
    ensures Sorted(r)
    ensures multiset(r) == multiset(s)
    ensures |r| == |s|
  {
    if |s| == 0 then []
    else
      assert s == [s[0]] + s[1..];
      Insert(s[0], Sort(s[1..]))
  }

  /** Sorting an already sorted sequence leaves it as it is. */
  lemma {:induction false} SortSorted(s: seq<real>)
    requires Sorted(s)
    ensures Sort(s) == s
  {
    if |s| > 0 {
      SortSorted(s[1..]);
      assert Sort(s[1..]) == s[1..];
      if |s| > 1 {
        assert s[0] <= s[1];
      }
      assert Insert(s[0], s[1..]) == [s[0]] + s[1..];
      assert [s[0]] + s[1..] == s;
    }
  }

  // ---------------------------------------------------------------------------
  // np.unique(..., return_index=True) followed by argsort of the first indices

  ghost predicate NoDuplicates<T>(s: seq<T>)
  {
    forall i, j :: 0 <= i < j < |s| ==> s[i] != s[j]
  }

  /** The distinct elements of s, each once, in the order of their first occurrence. */
  function Dedup<T(==)>(s: seq<T>): (d: seq<T>)
    ensures forall k :: 0 <= k < |s| ==> s[k] in d
    ensures forall k :: 0 <= k < |d| ==> d[k] in s
    ensures NoDuplicates(d)
    ensures |d| <= |s|
  {
    if |s| == 0 then []
    else
      var p := Dedup(s[..|s| - 1]);
      assert s == s[..|s| - 1] + [s[|s| - 1]];
      if s[|s| - 1] in p then p else p + [s[|s| - 1]]
  }

  /** An element of a sequence without duplicates is new to the prefix before it. */
  lemma NewInPrefix<T>(s: seq<T>, g: nat)
    requires NoDuplicates(s) && g < |s|
    ensures s[g] !in s[..g]
  {
  }

  /** The prefix of length g + 1 extends the prefix of length g by s[g]. */
  lemma PrefixSnoc<T>(s: seq<T>, g: nat)
    requires g < |s|
    ensures s[..g + 1] == s[..g] + [s[g]]
  {
  }

  /** Index of the first occurrence of c in s. */
  function FirstIndex<T(==)>(s: seq<T>, c: T): (k: nat)
    requires c in s
    ensures k < |s| && s[k] == c && c !in s[..k]
  {
    if s[0] == c then 0
    else
      var k := FirstIndex(s[1..], c);
      assert s[..k + 1] == [s[0]] + s[1..][..k];
      k + 1
  }

  lemma FirstIndexUnique<T>(s: seq<T>, c: T, k: nat)
    requires k < |s| && s[k] == c && c !in s[..k]
    ensures FirstIndex(s, c) == k
  {
  }

  /** Number of positions of s that repeat an earlier element. */
  function Repeats<T(==)>(s: seq<T>): nat
  {
    if |s| == 0 then 0
    else Repeats(s[..|s| - 1]) + (if s[|s| - 1] in s[..|s| - 1] then 1 else 0)
  }

  /** Deduplication keeps one element per first occurrence: it drops exactly the
      repeated positions, and keeps elements ordered by where they first occur. */
  lemma DedupFirstOccurrence<T>(s: seq<T>)
    ensures |Dedup(s)| + Repeats(s) == |s|
    ensures forall i, j :: 0 <= i < j < |Dedup(s)| ==>
              FirstIndex(s, Dedup(s)[i]) < FirstIndex(s, Dedup(s)[j])
  {
    DedupCount(s);
    DedupOrder(s);
  }

  lemma {:induction false} DedupCount<T>(s: seq<T>)
    ensures |Dedup(s)| + Repeats(s) == |s|
  {
    if |s| > 0 {
      var n := |s| - 1;
      DedupCount(s[..n]);
      assert s[n] in Dedup(s[..n]) <==> s[n] in s[..n];
    }
  }

  /** Appending an element does not move the first occurrence of an earlier one. */
  lemma FirstIndexOfPrefix<T>(pre: seq<T>, last: T, c: T)
    requires c in pre
    ensures FirstIndex(pre + [last], c) == FirstIndex(pre, c)
  {
    var f := FirstIndex(pre, c);
    assert (pre + [last])[..f] == pre[..f];
    FirstIndexUnique(pre + [last], c, f);
  }

  lemma {:induction false} DedupOrder<T>(s: seq<T>)
    ensures forall i, j :: 0 <= i < j < |Dedup(s)| ==>
              FirstIndex(s, Dedup(s)[i]) < FirstIndex(s, Dedup(s)[j])
  {
    if |s| > 0 {
      var n := |s| - 1;
      var pre, last := s[..n], s[n];
      DedupOrder(pre);
      var p := Dedup(pre);
      assert s == pre + [last];
      DedupOrderStep(pre, last, p, Dedup(s));
    }
  }

  lemma DedupOrderStep<T>(pre: seq<T>, last: T, p: seq<T>, d: seq<T>)
    requires p == Dedup(pre) && d == Dedup(pre + [last])
    requires forall i, j :: 0 <= i < j < |p| ==> FirstIndex(pre, p[i]) < FirstIndex(pre, p[j])
    ensures forall i, j :: 0 <= i < j < |d| ==> FirstIndex(pre + [last], d[i]) < FirstIndex(pre + [last], d[j])
  {
    var s := pre + [last];
    assert s[..|pre|] == pre;
    if last in p {
      assert d == p;
    } else {
      assert d == p + [last];
    }
    forall i, j | 0 <= i < j < |d|
      ensures FirstIndex(s, d[i]) < FirstIndex(s, d[j])
    {
      assert d[i] == p[i] && d[i] in pre;
      FirstIndexOfPrefix(pre, last, d[i]);
      if j < |p| {
        assert d[j] == p[j] && d[j] in pre;
        FirstIndexOfPrefix(pre, last, d[j]);
      } else {
        LastFirstIndex(pre, last);
      }
    }
  }

  /** Dropping the last element of a + b drops the last element of b. */
  lemma DropLastConcat<T>(a: seq<T>, b: seq<T>)
    requires |b| > 0
    ensures (a + b)[..|a + b| - 1] == a + b[..|b| - 1]
    ensures (a + b)[|a + b| - 1] == b[|b| - 1]
  {
  }

  /** Appending nothing changes nothing. */
  lemma ConcatEmpty<T>(a: seq<T>, b: seq<T>)
    requires |b| == 0
    ensures a + b == a
  {
  }

  /** An element new to pre first occurs at the end of pre + [last]. */
  lemma LastFirstIndex<T>(pre: seq<T>, last: T)
    requires last !in pre
    ensures FirstIndex(pre + [last], last) == |pre|
  {
    assert (pre + [last])[..|pre|] == pre;
    FirstIndexUnique(pre + [last], last, |pre|);
  }

  // ---------------------------------------------------------------------------
  // Not-a-number handling

  /** The values that are present (not NaN), in order. */
  function Present(s: seq<Option<real>>): (r: seq<real>)
    ensures |r| <= |s|
    ensures forall v :: v in r <==> Some(v) in s
  {
    if |s| == 0 then []
    else
      var p := Present(s[..|s| - 1]);
      assert s == s[..|s| - 1] + [s[|s| - 1]];
      if s[|s| - 1].Some? then p + [s[|s| - 1].value] else p
  }

  /** Skipping NaN distributes over concatenation: the present values keep their order. */
  lemma {:induction false} PresentConcat(a: seq<Option<real>>, b: seq<Option<real>>)
    ensures Present(a + b) == Present(a) + Present(b)
  {
    if |b| > 0 {
      var n := |b| - 1;
      PresentConcat(a, b[..n]);
      assert (a + b)[..|a + b| - 1] == a + b[..n];
    } else {
      assert a + b == a;
    }
  }

  /** One value is kept exactly when it is present. */
  lemma PresentSingle(o: Option<real>)
    ensures Present([o]) == if o.Some? then [o.value] else []
  {
    assert [o][..0] == [];
  }

  /** np.nanmean: the mean of the present values, NaN when there are none. */
  function NanMean(s: seq<Option<real>>): (r: Option<real>)
    ensures r.None? <==> forall k :: 0 <= k < |s| ==> s[k].None?
    ensures r.Some? ==> Min(Present(s)) <= r.value <= Max(Present(s))
  {
    var v := Present(s);
    if |v| == 0 then
      None
    else
      MeanBounds(v);
      assert v[0] in v;
      Some(Mean(v))
  }

  /** x[x == 0] = np.nan on one row: exact zeros become NaN. */
  function MaskZeros(s: seq<real>): (r: seq<Option<real>>)
    ensures |r| == |s|
    ensures forall k :: 0 <= k < |s| ==> (r[k].None? <==> s[k] == 0.0) && (r[k].Some? ==> r[k].value == s[k])
  {
    seq(|s|, k requires 0 <= k < |s| => if s[k] == 0.0 then None else Some(s[k]))
  }

  /** The nonzero elements of s, in order. */
  function NonZero(s: seq<real>): (r: seq<real>)
    ensures |r| <= |s|
    ensures forall x :: x in r <==> x in s && x != 0.0
  {
    if |s| == 0 then []
    else
      var p := NonZero(s[..|s| - 1]);
      assert s == s[..|s| - 1] + [s[|s| - 1]];
      if s[|s| - 1] != 0.0 then p + [s[|s| - 1]] else p
  }

  /** Dropping zeros distributes over concatenation: the nonzero values keep their order. */
  lemma {:induction false} NonZeroConcat(a: seq<real>, b: seq<real>)
    ensures NonZero(a + b) == NonZero(a) + NonZero(b)
  {
    if |b| > 0 {
      var n := |b| - 1;
      NonZeroConcat(a, b[..n]);
      assert (a + b)[..|a + b| - 1] == a + b[..n];
    } else {
      assert a + b == a;
    }
  }

  /** One value is kept exactly when it is not zero. */
  lemma NonZeroSingle(x: real)
    ensures NonZero([x]) == if x != 0.0 then [x] else []
  {
    assert [x][..0] == [];
  }

  /** Masking zeros as NaN and then skipping NaN keeps exactly the nonzero values. */
  lemma {:induction false} PresentMaskZeros(s: seq<real>)
    ensures Present(MaskZeros(s)) == NonZero(s)
  {
    if |s| > 0 {
      var n := |s| - 1;
      PresentMaskZeros(s[..n]);
      assert MaskZeros(s)[..n] == MaskZeros(s[..n]);
    }
  }

  /** np.nan_to_num on one value: NaN becomes 0. */
  function NanToNum(o: Option<real>): (r: real)
    ensures o.None? ==> r == 0.0
    ensures o.Some? ==> r == o.value
  {
    o.GetOr(0.0)
  }
}
