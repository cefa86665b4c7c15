/**
 Finite sums over a sequence of keys, accumulated front to back as a Python
 `for` loop over a dict or list does, and the counting facts the PageRank
 proofs use.
 */
module Sums {

  /** No element occurs twice. */
  predicate Distinct<K(==)>(ks: seq<K>) {
    forall i, j :: 0 <= i < j < |ks| ==> ks[i] != ks[j]
  }

  /** The set of elements of a sequence. */
  function Elements<K>(ks: seq<K>): set<K> {
    set k | k in ks
  }

  /** A sequence has at most as many different elements as positions. */
  lemma {:induction false} ElementsBound<K>(ks: seq<K>)
    ensures |Elements(ks)| <= |ks|
    decreases |ks|
  {
    if |ks| > 0 {
      var init := ks[..|ks| - 1];
      ElementsBound(init);
      assert Elements(ks) == Elements(init) + {ks[|ks| - 1]};
    }
  }

  /** A sequence with as many different elements as positions has no repetitions. */
  lemma {:induction false} CardDistinct<K>(ks: seq<K>)
    requires |Elements(ks)| == |ks|
    ensures Distinct(ks)
    decreases |ks|
  {
    if |ks| > 0 {
      var init := ks[..|ks| - 1];
      var last := ks[|ks| - 1];
      assert Elements(ks) == Elements(init) + {last};
      ElementsBound(init);
      assert last !in Elements(init);
      CardDistinct(init);
      forall i, j | 0 <= i < j < |ks| ensures ks[i] != ks[j] {
        assert ks[i] == init[i];
        if j < |init| {
          assert ks[j] == init[j];
        } else {
          assert ks[i] in Elements(init);
        }
      }
    }
  }

  /**
   Dropping the last element of a sequence without repetitions leaves one
   without repetitions whose elements are all but that last one.
   */
  lemma DropLast<K>(ks: seq<K>)
    requires Distinct(ks) && |ks| > 0
    ensures Distinct(ks[..|ks| - 1])
    ensures Elements(ks) == Elements(ks[..|ks| - 1]) + {ks[|ks| - 1]}
    ensures ks[|ks| - 1] !in Elements(ks[..|ks| - 1])
  {
    var init := ks[..|ks| - 1];
    var last := ks[|ks| - 1];
    forall i, j | 0 <= i < j < |init| ensures init[i] != init[j] {
      assert init[i] == ks[i] && init[j] == ks[j];
    }
    assert ks == init + [last];
  }

  /** The total of `m` over the keys `ks`, added up in the order of `ks`. */
  function Sum<K>(ks: seq<K>, m: map<K, real>): real
    requires forall k <- ks :: k in m
    decreases |ks|
  {
    if |ks| == 0 then 0.0 else Sum(ks[..|ks| - 1], m) + m[ks[|ks| - 1]]
  }

  /** The integer total of `m` over the keys `ks`. */
  function Tally<K>(ks: seq<K>, m: map<K, int>): int
    requires forall k <- ks :: k in m
    decreases |ks|
  {
    if |ks| == 0 then 0 else Tally(ks[..|ks| - 1], m) + m[ks[|ks| - 1]]
  }

  /** How many positions of `ks` hold an element of `s`. */
  function Count<K>(ks: seq<K>, s: set<K>): nat
    decreases |ks|
  {
    if |ks| == 0 then 0 else Count(ks[..|ks| - 1], s) + (if ks[|ks| - 1] in s then 1 else 0)
  }

  /** No more positions are counted than there are. */
  lemma {:induction false} CountBound<K>(ks: seq<K>, s: set<K>)
    ensures Count(ks, s) <= |ks|
    decreases |ks|
  {
    if |ks| > 0 {
      CountBound(ks[..|ks| - 1], s);
    }
  }

  /** Counting the members of `s + {x}` counts those of `s` and then the copies of `x`. */
  lemma {:induction false} CountSplit<K>(ks: seq<K>, s: set<K>, x: K)
    requires x !in s
    ensures Count(ks, s + {x}) == Count(ks, s) + Count(ks, {x})
    decreases |ks|
  {
    if |ks| > 0 {
      CountSplit(ks[..|ks| - 1], s, x);
    }
  }

  /** In a sequence without repetitions, the members of `s` are counted once each. */
  lemma {:induction false} CountDistinct<K>(ks: seq<K>, s: set<K>)
    requires Distinct(ks)
    ensures Count(ks, s) == |s * Elements(ks)|
    decreases |ks|
  {
    if |ks| > 0 {
      var init := ks[..|ks| - 1];
      var last := ks[|ks| - 1];
      DropLast(ks);
      CountDistinct(init, s);
      if last in s {
        assert s * Elements(ks) == s * Elements(init) + {last};
      } else {
        assert s * Elements(ks) == s * Elements(init);
      }
    } else {
      assert Elements(ks) == {};
    }
  }

  /** A sequence without repetitions counts each member of a subset of its elements once. */
  lemma CountMembers<K>(ks: seq<K>, s: set<K>)
    requires Distinct(ks) && s <= Elements(ks)
    ensures Count(ks, s) == |s|
  {
    CountDistinct(ks, s);
    assert s * Elements(ks) == s;
  }

  /** When every element of `ks` is in `s`, every position is counted. */
  lemma {:induction false} CountAll<K>(ks: seq<K>, s: set<K>)
    requires forall k <- ks :: k in s
    ensures Count(ks, s) == |ks|
    decreases |ks|
  {
    if |ks| > 0 {
      CountAll(ks[..|ks| - 1], s);
    }
  }

  /** A constant table sums to its value times the number of keys. */
  lemma {:induction false} SumConst<K>(ks: seq<K>, m: map<K, real>, c: real)
    requires forall k <- ks :: k in m && m[k] == c
    ensures Sum(ks, m) == |ks| as real * c
    decreases |ks|
  {
    if |ks| > 0 {
      SumConst(ks[..|ks| - 1], m, c);
    }
  }

  /**
   A table that holds `base` on every key and `extra` more on the members of
   `s` sums to `base` per key plus `extra` per counted member.
   */
  lemma SumTwoLevels<K>(ks: seq<K>, m: map<K, real>, s: set<K>, base: real, extra: real)
    requires forall k <- ks :: k in m && m[k] == base + (if k in s then extra else 0.0)
    ensures Sum(ks, m) == |ks| as real * base + Count(ks, s) as real * extra
  {
    TwoLevels(ks, m, s, base, extra, |ks| as real, Count(ks, s) as real);
  }

  /** `SumTwoLevels` with the number of keys `n` and of members `c` given as reals. */
  lemma {:induction false} TwoLevels<K>(ks: seq<K>, m: map<K, real>, s: set<K>, base: real, extra: real, n: real, c: real)
    requires forall k <- ks :: k in m && m[k] == base + (if k in s then extra else 0.0)
    requires n == |ks| as real && c == Count(ks, s) as real
    ensures Sum(ks, m) == n * base + c * extra
    decreases |ks|
  {
    if |ks| > 0 {
      var init := ks[..|ks| - 1];
      var last := ks[|ks| - 1];
      var n0 := |init| as real;
      var c0 := Count(init, s) as real;
      TwoLevels(init, m, s, base, extra, n0, c0);
      TwoLevelsStep(Sum(ks, m), Sum(init, m), m[last], n, n0, c, c0, base, extra, last in s);
    }
  }

  /** One more key adds `base`, and `extra` when it is a member. */
  lemma TwoLevelsStep(total: real, before: real, entry: real, n: real, n0: real, c: real, c0: real,
                      base: real, extra: real, member: bool)
    requires total == before + entry
    requires entry == base + (if member then extra else 0.0)
    requires before == n0 * base + c0 * extra
    requires n == n0 + 1.0 && c == c0 + (if member then 1.0 else 0.0)
    ensures total == n * base + c * extra
  {
    Distribute(n, n0, base);
    if member {
      Distribute(c, c0, extra);
    }
  }

  /** One more copy of `x`. */
  lemma Distribute(a: real, b: real, x: real)
    requires a == b + 1.0
    ensures a * x == b * x + x
  {
  }

  /** Tables that add up key by key have sums that add up. */
  lemma {:induction false} SumPointwise<K>(ks: seq<K>, m: map<K, real>, a: map<K, real>, b: map<K, real>)
    requires forall k <- ks :: k in m && k in a && k in b && m[k] == a[k] + b[k]
    ensures Sum(ks, m) == Sum(ks, a) + Sum(ks, b)
    decreases |ks|
  {
    if |ks| > 0 {
      SumPointwise(ks[..|ks| - 1], m, a, b);
    }
  }

  /**
   A table that holds `base + scale * other[k]` on each of `n` keys sums to
   `n` times `base` plus `scale` times the sum of `other`.
   */
  lemma {:induction false} SumAffine<K>(ks: seq<K>, m: map<K, real>, base: real, scale: real, other: map<K, real>, n: real)
    requires forall k <- ks :: k in m && k in other && m[k] == base + scale * other[k]
    requires n == |ks| as real
    ensures Sum(ks, m) == n * base + scale * Sum(ks, other)
    decreases |ks|
  {
    if |ks| > 0 {
      var init := ks[..|ks| - 1];
      var last := ks[|ks| - 1];
      var n0 := |init| as real;
      SumAffine(init, m, base, scale, other, n0);
      AffineStep(Sum(ks, m), Sum(init, m), m[last], n, n0, base, scale, Sum(ks, other), Sum(init, other), other[last]);
    }
  }

  /** One more key adds `base` and `scale` times its entry in `other`. */
  lemma AffineStep(total: real, before: real, entry: real, n: real, n0: real, base: real, scale: real,
                   o: real, o0: real, oe: real)
    requires total == before + entry && entry == base + scale * oe
    requires before == n0 * base + scale * o0
    requires o == o0 + oe && n == n0 + 1.0
    ensures total == n * base + scale * o
  {
    Distribute(n, n0, base);
    assert scale * o == scale * o0 + scale * oe;
  }

  /** `k` shares of `x / k` make `x`. */
  lemma Rescale(a: nat, k: nat, x: real)
    requires a == k > 0
    ensures a as real * (x / k as real) == x
  {
  }

  /** Dividing a non-negative number by at least 1 keeps it non-negative and does not enlarge it. */
  lemma Shrink(x: real, y: real)
    requires x >= 0.0 && y >= 1.0
    ensures 0.0 <= x / y <= x
  {
    var q := x / y;
    assert q * y == x;
    assert q * (y - 1.0) >= 0.0;
  }

  /** Dividing every count by `t` divides their tally by `t`. */
  lemma {:induction false} SumOfRatios<K>(ks: seq<K>, m: map<K, real>, counts: map<K, int>, t: real)
    requires t != 0.0
    requires forall k <- ks :: k in m && k in counts && m[k] == counts[k] as real / t
    ensures Sum(ks, m) == Tally(ks, counts) as real / t
    decreases |ks|
  {
    if |ks| > 0 {
      SumOfRatios(ks[..|ks| - 1], m, counts, t);
    }
  }

  /**
   Per-key occurrence counts of `walk`, tallied over distinct keys `ps`,
   count the positions of `walk` that hold one of the keys.
   */
  lemma {:induction false} TallyOfCounts<K>(ps: seq<K>, counts: map<K, int>, walk: seq<K>)
    requires Distinct(ps)
    requires forall p <- ps :: p in counts && counts[p] == Count(walk, {p})
    ensures Tally(ps, counts) == Count(walk, Elements(ps))
    decreases |ps|
  {
    if |ps| == 0 {
      assert Elements(ps) == {};
      CountNone(walk);
    } else {
      var init := ps[..|ps| - 1];
      var last := ps[|ps| - 1];
      DropLast(ps);
      TallyOfCounts(init, counts, walk);
      CountSplit(walk, Elements(init), last);
    }
  }

  /** Nothing is counted for the empty set. */
  lemma {:induction false} CountNone<K>(ks: seq<K>)
    ensures Count(ks, {}) == 0
    decreases |ks|
  {
    if |ks| > 0 {
      CountNone(ks[..|ks| - 1]);
    }
  }
}
