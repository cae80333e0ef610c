/**
  The combination generator `combosFromFour` of index.js: from the context
  window around a white event it derives every 1-, 2- and 3-element subset of
  the non-zero values (and the whole set when exactly four remain), each
  labelled with the anchor minute and the subset's values and aimed at the
  minute `(anchor + sum) % 60`, with duplicates removed.

  A subset is described by its index tuple: a strictly increasing sequence of
  positions into the filtered values. The enumeration order of the source's
  nested loops is the lexicographic order of those tuples.
*/
module Combinations {

  /** The label `"<anchor>+<v1>+<v2>+..."`, kept as its parts; decimal
      rendering joined with `+` is injective, so equality is the same. */
  datatype Label = Label(anchor: int, values: seq<int>)

  /** One prediction: its label (`tag`, since `label` is a keyword) and the
      minute it targets. */
  datatype Combo = Combo(tag: Label, minute: int)

  /** The quotient of `a / b` truncated toward zero, as `Math.trunc(a / b)`. */
  function JsQuot(a: int, b: int): int
    requires b > 0
  {
    if a >= 0 then a / b else -((-a) / b)
  }

  /** JavaScript's `%` on integers: the remainder of the division truncated
      toward zero, so it has the sign of the dividend. */
  function JsRem(a: int, b: int): (r: int)
    requires b > 0
    ensures a == JsQuot(a, b) * b + r
    ensures -b < r < b
    ensures a >= 0 ==> 0 <= r
    ensures a < 0 ==> r <= 0
    ensures a >= 0 ==> r == a % b
  {
    if a >= 0 then a % b else -((-a) % b)
  }

  /** `arr.reduce((a, b) => a + b, 0)`. */
  function Sum(s: seq<int>): int
  {
    if s == [] then 0 else s[0] + Sum(s[1..])
  }

  /** The sum of a concatenation is the sum of its parts, so the fold order
      of `reduce` does not matter. */
  lemma {:induction false} SumAppend(a: seq<int>, b: seq<int>)
    ensures Sum(a + b) == Sum(a) + Sum(b)
  {
    if a != [] {
      assert (a + b)[1..] == a[1..] + b;
      SumAppend(a[1..], b);
    } else {
      assert a + b == b;
    }
  }

  /** `nums.filter(n => n !== 0 && Number.isFinite(n))`; every integer is finite. */
  function NonZero(nums: seq<int>): (vals: seq<int>)
    ensures |vals| <= |nums|
    ensures forall x :: x in vals <==> x in nums && x != 0
  {
    if nums == [] then []
    else (if nums[0] != 0 then [nums[0]] else []) + NonZero(nums[1..])
  }

  /** The filter distributes over concatenation, so the surviving values
      keep their order and multiplicity. */
  lemma {:induction false} NonZeroAppend(a: seq<int>, b: seq<int>)
    ensures NonZero(a + b) == NonZero(a) + NonZero(b)
  {
    if a != [] {
      assert (a + b)[1..] == a[1..] + b;
      NonZeroAppend(a[1..], b);
    } else {
      assert a + b == b;
    }
  }

  predicate Distinct<T(==)>(s: seq<T>)
  {
    forall p, q :: 0 <= p < q < |s| ==> s[p] != s[q]
  }

  /** Every position of `t` is a valid index into a sequence of length `n`. */
  predicate InRange(t: seq<int>, n: int)
  {
    forall k :: 0 <= k < |t| ==> 0 <= t[k] < n
  }

  /** Every tuple of `ts` is in range. */
  predicate AllInRange(ts: seq<seq<int>>, n: int)
  {
    forall k :: 0 <= k < |ts| ==> InRange(ts[k], n)
  }

  lemma AllInRangeConcat(a: seq<seq<int>>, b: seq<seq<int>>, n: int)
    requires AllInRange(a, n) && AllInRange(b, n)
    ensures AllInRange(a + b, n)
  {
    forall k | 0 <= k < |a + b| ensures InRange((a + b)[k], n) {
      if k < |a| {
        assert (a + b)[k] == a[k];
      } else {
        assert (a + b)[k] == b[k - |a|];
      }
    }
  }

  /** A subset of positions, listed in increasing order. */
  predicate Ascending(t: seq<int>, n: int)
  {
    InRange(t, n) && forall j, k :: 0 <= j < k < |t| ==> t[j] < t[k]
  }

  /** Lexicographic order on index tuples of one length, up to three. */
  predicate Before(a: seq<int>, b: seq<int>)
  {
    && |a| == |b| && 1 <= |a| <= 3
    && (a[0] < b[0] || (a[0] == b[0] && |a| >= 2 &&
         (a[1] < b[1] || (a[1] == b[1] && |a| == 3 && a[2] < b[2]))))
  }

  // ---------------------------------------------------------------------------
  // The index tuples visited by the loops at index.js:72-75.

  /** The singletons of the first loop, `[0], [1], ..., [n-1]`. */
  function Singles(n: nat): (r: seq<seq<int>>)
    ensures |r| == n
    ensures forall k :: 0 <= k < n ==> r[k] == [k]
    ensures AllInRange(r, n)
  {
    seq(n, k => [k])
  }

  /** The pairs visited for a fixed outer index `i`. */
  function PairRow(n: nat, i: nat): (r: seq<seq<int>>)
    requires i < n
    ensures |r| == n - i - 1
    ensures forall d :: 0 <= d < |r| ==> r[d] == [i, i + 1 + d]
    ensures AllInRange(r, n)
  {
    seq(n - i - 1, d => [i, i + 1 + d])
  }

  /** The pairs visited while the outer index runs below `i`. */
  function PairsUpTo(n: nat, i: nat): (r: seq<seq<int>>)
    requires i <= n
    ensures forall k :: 0 <= k < |r| ==> |r[k]| == 2 && 0 <= r[k][0] < r[k][1] < n && r[k][0] < i
    ensures AllInRange(r, n)
  {
    if i == 0 then [] else PairsUpTo(n, i - 1) + PairRow(n, i - 1)
  }

  /** The triples visited for fixed first and second indices `i` and `j`. */
  function TripleCol(n: nat, i: nat, j: nat): (r: seq<seq<int>>)
    requires i < j < n
    ensures |r| == n - j - 1
    ensures forall d :: 0 <= d < |r| ==> r[d] == [i, j, j + 1 + d]
    ensures AllInRange(r, n)
  {
    seq(n - j - 1, d => [i, j, j + 1 + d])
  }

  /** The triples visited for first index `i` while the second runs below `j`. */
  function TripleRow(n: nat, i: nat, j: nat): (r: seq<seq<int>>)
    requires i < j <= n
    ensures forall k :: 0 <= k < |r| ==> |r[k]| == 3 && r[k][0] == i && i < r[k][1] < r[k][2] < n && r[k][1] < j
    ensures AllInRange(r, n)
    decreases j
  {
    if j == i + 1 then [] else TripleRow(n, i, j - 1) + TripleCol(n, i, j - 1)
  }

  /** The triples visited while the outer index runs below `i`. */
  function TriplesUpTo(n: nat, i: nat): (r: seq<seq<int>>)
    requires i <= n
    ensures forall k :: 0 <= k < |r| ==> |r[k]| == 3 && 0 <= r[k][0] < r[k][1] < r[k][2] < n && r[k][0] < i
    ensures AllInRange(r, n)
  {
    if i == 0 then [] else TriplesUpTo(n, i - 1) + TripleRow(n, i - 1, n)
  }

  /** The whole set, pushed only when exactly four values remain (index.js:75). */
  function Fours(n: nat): (r: seq<seq<int>>)
  {
    if n == 4 then [[0, 1, 2, 3]] else []
  }

  /** Every index tuple pushed, in push order. */
  function Tuples(n: nat): (r: seq<seq<int>>)
    ensures forall k :: 0 <= k < |r| ==>
      Ascending(r[k], n) && 1 <= |r[k]| <= 4 && (|r[k]| == 4 ==> n == 4)
  {
    GroupsAscending(n);
    Singles(n) + PairsUpTo(n, n) + TriplesUpTo(n, n) + Fours(n)
  }

  lemma GroupsAscending(n: nat)
    ensures forall k :: 0 <= k < n ==> Ascending(Singles(n)[k], n) && |Singles(n)[k]| == 1
    ensures forall k :: 0 <= k < |PairsUpTo(n, n)| ==>
      Ascending(PairsUpTo(n, n)[k], n) && |PairsUpTo(n, n)[k]| == 2
    ensures forall k :: 0 <= k < |TriplesUpTo(n, n)| ==>
      Ascending(TriplesUpTo(n, n)[k], n) && |TriplesUpTo(n, n)[k]| == 3
    ensures forall k :: 0 <= k < |Fours(n)| ==> Ascending(Fours(n)[k], n) && |Fours(n)[k]| == 4 && n == 4
  {
    PairsAscending(n);
    TriplesAscending(n);
    FoursAscending(n);
  }

  lemma GroupsInRange(n: nat)
    ensures AllInRange(Singles(n), n) && AllInRange(PairsUpTo(n, n), n)
    ensures AllInRange(TriplesUpTo(n, n), n) && AllInRange(Fours(n), n)
  {
    GroupsAscending(n);
  }

  lemma PairsAscending(n: nat)
    ensures forall k :: 0 <= k < |PairsUpTo(n, n)| ==>
      Ascending(PairsUpTo(n, n)[k], n) && |PairsUpTo(n, n)[k]| == 2
  {
    var r := PairsUpTo(n, n);
    forall k | 0 <= k < |r| ensures Ascending(r[k], n) {
      assert |r[k]| == 2 && r[k][0] < r[k][1];
    }
  }

  lemma TriplesAscending(n: nat)
    ensures forall k :: 0 <= k < |TriplesUpTo(n, n)| ==>
      Ascending(TriplesUpTo(n, n)[k], n) && |TriplesUpTo(n, n)[k]| == 3
  {
    var r := TriplesUpTo(n, n);
    forall k | 0 <= k < |r| ensures Ascending(r[k], n) {
      assert |r[k]| == 3 && r[k][0] < r[k][1] < r[k][2];
    }
  }

  lemma FoursAscending(n: nat)
    ensures forall k :: 0 <= k < |Fours(n)| ==> Ascending(Fours(n)[k], n) && |Fours(n)[k]| == 4 && n == 4
  {
    if n == 4 {
      var t := [0, 1, 2, 3];
      assert forall k :: 0 <= k < 4 ==> t[k] == k;
      assert InRange(t, n);
      assert forall j, k :: 0 <= j < k < |t| ==> t[j] < t[k];
      assert Ascending(t, n);
      assert Fours(n) == [t];
      forall k | 0 <= k < |Fours(n)| ensures Ascending(Fours(n)[k], n) && |Fours(n)[k]| == 4 {
        assert Fours(n)[k] == t;
      }
    }
  }

  // ---------------------------------------------------------------------------
  // The loops visit the tuples in lexicographic order, each once, and miss none.

  predicate Sorted(ts: seq<seq<int>>)
  {
    forall p, q :: 0 <= p < q < |ts| ==> Before(ts[p], ts[q])
  }

  lemma SortedDistinct(ts: seq<seq<int>>)
    requires Sorted(ts)
    ensures Distinct(ts)
  {
    forall p, q | 0 <= p < q < |ts| ensures ts[p] != ts[q] {
      assert Before(ts[p], ts[q]);
    }
  }

  lemma SortedConcat(a: seq<seq<int>>, b: seq<seq<int>>)
    requires Sorted(a) && Sorted(b)
    requires forall p, q :: 0 <= p < |a| && 0 <= q < |b| ==> Before(a[p], b[q])
    ensures Sorted(a + b)
  {
    var r := a + b;
    forall p, q | 0 <= p < q < |r| ensures Before(r[p], r[q]) {
      if q < |a| {
        assert r[p] == a[p] && r[q] == a[q];
      } else if p < |a| {
        assert r[p] == a[p] && r[q] == b[q - |a|];
      } else {
        assert r[p] == b[p - |a|] && r[q] == b[q - |a|];
      }
    }
  }

  lemma {:induction false} PairsSorted(n: nat, i: nat)
    requires i <= n
    ensures Sorted(PairsUpTo(n, i))
  {
    if i > 0 {
      PairsSorted(n, i - 1);
      SortedConcat(PairsUpTo(n, i - 1), PairRow(n, i - 1));
    }
  }

  lemma {:induction false} TripleRowSorted(n: nat, i: nat, j: nat)
    requires i < j <= n
    ensures Sorted(TripleRow(n, i, j))
    decreases j
  {
    if j > i + 1 {
      TripleRowSorted(n, i, j - 1);
      SortedConcat(TripleRow(n, i, j - 1), TripleCol(n, i, j - 1));
    }
  }

  lemma {:induction false} TriplesSorted(n: nat, i: nat)
    requires i <= n
    ensures Sorted(TriplesUpTo(n, i))
  {
    if i > 0 {
      TriplesSorted(n, i - 1);
      TripleRowSorted(n, i - 1, n);
      SortedConcat(TriplesUpTo(n, i - 1), TripleRow(n, i - 1, n));
    }
  }

  lemma DistinctConcat<T>(a: seq<T>, b: seq<T>)
    requires Distinct(a) && Distinct(b)
    requires forall p, q :: 0 <= p < |a| && 0 <= q < |b| ==> a[p] != b[q]
    ensures Distinct(a + b)
  {
    var r := a + b;
    forall p, q | 0 <= p < q < |r| ensures r[p] != r[q] {
      if q < |a| {
        assert r[p] == a[p] && r[q] == a[q];
      } else if p < |a| {
        assert r[p] == a[p] && r[q] == b[q - |a|];
      } else {
        assert r[p] == b[p - |a|] && r[q] == b[q - |a|];
      }
    }
  }

  /** No index tuple is visited twice (index.js:72-75). */
  lemma TuplesDistinct(n: nat)
    ensures Distinct(Tuples(n))
  {
    GroupsAscending(n);
    PairsSorted(n, n);
    TriplesSorted(n, n);
    var s, p, t, f := Singles(n), PairsUpTo(n, n), TriplesUpTo(n, n), Fours(n);
    SortedDistinct(p);
    SortedDistinct(t);
    DistinctConcat(s, p);
    DistinctConcat(s + p, t);
    DistinctConcat(s + p + t, f);
  }

  lemma {:induction false} PairsComplete(n: nat, i: nat)
    requires i <= n
    ensures forall x, y :: 0 <= x < y < n && x < i ==> [x, y] in PairsUpTo(n, i)
  {
    if i > 0 {
      PairsComplete(n, i - 1);
      var a, b := PairsUpTo(n, i - 1), PairRow(n, i - 1);
      assert PairsUpTo(n, i) == a + b;
      forall x, y | 0 <= x < y < n && x < i ensures [x, y] in a + b {
        if x == i - 1 {
          assert b[y - i] == [x, y];
        } else {
          assert [x, y] in a;
        }
      }
    }
  }

  lemma {:induction false} TripleRowComplete(n: nat, i: nat, j: nat)
    requires i < j <= n
    ensures forall y, z :: i < y < z < n && y < j ==> [i, y, z] in TripleRow(n, i, j)
    decreases j
  {
    if j > i + 1 {
      TripleRowComplete(n, i, j - 1);
      var a, b := TripleRow(n, i, j - 1), TripleCol(n, i, j - 1);
      assert TripleRow(n, i, j) == a + b;
      forall y, z | i < y < z < n && y < j ensures [i, y, z] in a + b {
        if y == j - 1 {
          assert b[z - j] == [i, y, z];
        } else {
          assert [i, y, z] in a;
        }
      }
    }
  }

  lemma {:induction false} TriplesComplete(n: nat, i: nat)
    requires i <= n
    ensures forall x, y, z :: 0 <= x < y < z < n && x < i ==> [x, y, z] in TriplesUpTo(n, i)
  {
    if i > 0 {
      TriplesComplete(n, i - 1);
      TripleRowComplete(n, i - 1, n);
      assert TriplesUpTo(n, i) == TriplesUpTo(n, i - 1) + TripleRow(n, i - 1, n);
    }
  }

  /** Every 1-, 2- and 3-element subset is visited, and the whole set exactly
      when there are four values. */
  lemma TuplesComplete(n: nat)
    ensures forall t :: Ascending(t, n) && 1 <= |t| <= 3 ==> t in Tuples(n)
    ensures n == 4 ==> [0, 1, 2, 3] in Tuples(n)
  {
    PairsComplete(n, n);
    TriplesComplete(n, n);
    var s, p, t3, f := Singles(n), PairsUpTo(n, n), TriplesUpTo(n, n), Fours(n);
    assert Tuples(n) == s + p + t3 + f;
    forall t | Ascending(t, n) && 1 <= |t| <= 3 ensures t in s + p + t3 + f {
      if |t| == 1 {
        assert t == s[t[0]];
      } else if |t| == 2 {
        assert t == [t[0], t[1]] && t[0] < t[1];
        assert t in p;
      } else {
        assert t == [t[0], t[1], t[2]] && t[0] < t[1] < t[2];
        assert t in t3;
      }
    }
    if n == 4 {
      assert [0, 1, 2, 3] in f;
    }
  }

  lemma PairsCount4()
    ensures |PairsUpTo(4, 4)| == 6
  {
    assert |PairsUpTo(4, 1)| == 3;
    assert |PairsUpTo(4, 2)| == 5;
    assert |PairsUpTo(4, 3)| == 6;
  }

  lemma TriplesCount4()
    ensures |TriplesUpTo(4, 4)| == 4
  {
    assert |TripleRow(4, 0, 2)| == 2;
    assert |TripleRow(4, 0, 3)| == 3;
    assert |TripleRow(4, 0, 4)| == 3;
    assert |TriplesUpTo(4, 1)| == 3;
    assert |TripleRow(4, 1, 3)| == 1;
    assert |TripleRow(4, 1, 4)| == 1;
    assert |TriplesUpTo(4, 2)| == 4;
    assert |TripleRow(4, 2, 4)| == 0;
    assert |TriplesUpTo(4, 3)| == 4;
  }

  lemma SmallCounts3()
    ensures |PairsUpTo(3, 3)| == 3 && |TriplesUpTo(3, 3)| == 1
  {
    assert |PairsUpTo(3, 1)| == 2;
    assert |PairsUpTo(3, 2)| == 3;
    assert |TripleRow(3, 0, 2)| == 1;
    assert |TripleRow(3, 0, 3)| == 1;
    assert |TriplesUpTo(3, 1)| == 1;
    assert |TriplesUpTo(3, 2)| == 1;
  }

  /** How many tuples are visited for up to four values: 0, 1, 3, 7, 15. */
  lemma TuplesCount(n: nat)
    requires n <= 4
    ensures |Tuples(n)| == [0, 1, 3, 7, 15][n]
  {
    if n == 4 {
      PairsCount4();
      TriplesCount4();
    } else if n == 3 {
      SmallCounts3();
    } else if n == 2 {
      assert |PairsUpTo(2, 1)| == 1;
      assert |TriplesUpTo(2, 1)| == 0;
    }
  }

  // ---------------------------------------------------------------------------
  // From index tuples to predictions.

  /** The values a subset picks, in their original relative order. */
  function Pick(vals: seq<int>, t: seq<int>): (r: seq<int>)
    requires InRange(t, |vals|)
    ensures |r| == |t|
    ensures forall k {:trigger r[k]} :: 0 <= k < |t| ==> r[k] == vals[t[k]]
  {
    seq(|t|, k requires 0 <= k < |t| => vals[t[k]])
  }

  /** The record `push` builds from an array of values (index.js:68-71). */
  function Entry(anchor: int, values: seq<int>): Combo
  {
    Combo(Label(anchor, values), JsRem(anchor + Sum(values), 60))
  }

  /** The record pushed for one subset. */
  function ComboOf(anchor: int, vals: seq<int>, t: seq<int>): Combo
    requires InRange(t, |vals|)
  {
    Entry(anchor, Pick(vals, t))
  }

  function ComboSeq(anchor: int, vals: seq<int>, ts: seq<seq<int>>): (r: seq<Combo>)
    requires AllInRange(ts, |vals|)
    ensures |r| == |ts|
    ensures forall k {:trigger r[k]} :: 0 <= k < |ts| ==> r[k] == ComboOf(anchor, vals, ts[k])
  {
    seq(|ts|, k requires 0 <= k < |ts| => ComboOf(anchor, vals, ts[k]))
  }

  /** The array `out` before de-duplication. */
  function Raw(anchor: int, vals: seq<int>): seq<Combo>
  {
    ComboSeq(anchor, vals, Tuples(|vals|))
  }

  /** The `seen`-set filter of index.js:76-77: an entry is kept when no equal
      entry precedes it. */
  function Dedup(s: seq<Combo>): (r: seq<Combo>)
  {
    if s == [] then []
    else
      var init := s[..|s| - 1];
      Dedup(init) + (if s[|s| - 1] in init then [] else [s[|s| - 1]])
  }

  /** The predictions for already filtered values. */
  function Generate(anchor: int, vals: seq<int>): seq<Combo>
  {
    Dedup(Raw(anchor, vals))
  }

  /** The result of `combosFromFour(anchor, nums)`. */
  function Combos(anchor: int, nums: seq<int>): seq<Combo>
  {
    Generate(anchor, NonZero(nums))
  }

  // ---------------------------------------------------------------------------
  // De-duplication keeps the first copy of every entry.

  /** Where an entry first occurs. */
  function FirstIndex(s: seq<Combo>, c: Combo): (r: nat)
    requires c in s
    ensures r < |s| && s[r] == c && c !in s[..r]
  {
    if s[0] == c then 0
    else
      var r' := FirstIndex(s[1..], c);
      assert s[..1 + r'] == [s[0]] + s[1..][..r'];
      1 + r'
  }

  lemma FirstIndexAt(s: seq<Combo>, c: Combo, k: nat)
    requires k < |s| && s[k] == c && c !in s[..k]
    ensures FirstIndex(s, c) == k
  {
    var r := FirstIndex(s, c);
    forall i | 0 <= i < k ensures s[i] != c {
      assert s[..k][i] == s[i];
    }
    forall i | 0 <= i < r ensures s[i] != c {
      assert s[..r][i] == s[i];
    }
  }

  /** The result has no repeated entry and holds exactly the entries of `s`. */
  lemma {:induction false} DedupMembers(s: seq<Combo>)
    ensures Distinct(Dedup(s))
    ensures forall c :: c in Dedup(s) <==> c in s
  {
    if s != [] {
      var init, x := s[..|s| - 1], s[|s| - 1];
      assert s == init + [x];
      DedupMembers(init);
    }
  }

  /** Entries are kept in the order of their first occurrences. */
  lemma {:induction false} DedupFirstWins(s: seq<Combo>)
    ensures forall c :: c in Dedup(s) ==> c in s
    ensures forall p, q :: 0 <= p < q < |Dedup(s)| ==>
      FirstIndex(s, Dedup(s)[p]) < FirstIndex(s, Dedup(s)[q])
  {
    DedupMembers(s);
    if s != [] {
      var init, x := s[..|s| - 1], s[|s| - 1];
      assert s == init + [x];
      DedupFirstWins(init);
      DedupMembers(init);
      forall c | c in init ensures FirstIndex(s, c) == FirstIndex(init, c) {
        var k := FirstIndex(init, c);
        assert s[..k] == init[..k];
        FirstIndexAt(s, c, k);
      }
      var d, r := Dedup(init), Dedup(s);
      if x !in init {
        assert s[..|init|] == init;
        FirstIndexAt(s, x, |init|);
        forall p, q | 0 <= p < q < |r| ensures FirstIndex(s, r[p]) < FirstIndex(s, r[q]) {
          assert r[p] == d[p] && d[p] in d;
          if q < |d| {
            assert r[q] == d[q] && d[q] in d;
          }
        }
      }
    }
  }

  lemma {:induction false} DedupOfDistinct(s: seq<Combo>)
    requires Distinct(s)
    ensures Dedup(s) == s
  {
    if s != [] {
      var init := s[..|s| - 1];
      assert s == init + [s[|s| - 1]];
      DedupOfDistinct(init);
    }
  }

  // ---------------------------------------------------------------------------
  // What `combosFromFour` returns.

  lemma PickInjective(vals: seq<int>, t: seq<int>, u: seq<int>)
    requires Distinct(vals) && InRange(t, |vals|) && InRange(u, |vals|)
    requires Pick(vals, t) == Pick(vals, u)
    ensures t == u
  {
    forall k | 0 <= k < |t| ensures t[k] == u[k] {
      assert vals[t[k]] == Pick(vals, t)[k] == Pick(vals, u)[k] == vals[u[k]];
    }
  }

  /** Distinct values give distinct predictions: no subset is emitted twice. */
  lemma RawDistinct(anchor: int, vals: seq<int>)
    requires Distinct(vals)
    ensures Distinct(Raw(anchor, vals))
  {
    var ts := Tuples(|vals|);
    TuplesDistinct(|vals|);
    var r := Raw(anchor, vals);
    forall p, q | 0 <= p < q < |r| ensures r[p] != r[q] {
      if r[p] == r[q] {
        PickInjective(vals, ts[p], ts[q]);
      }
    }
  }

  /** What every prediction for `vals` looks like: labelled with the anchor and
      the values of a subset of `vals` taken in their original order, with 1 to
      3 values or all four when exactly four are given, and targeting
      `(anchor + sum) % 60`. */
  ghost predicate WellFormed(anchor: int, vals: seq<int>, c: Combo)
  {
    && c.tag.anchor == anchor
    && c.minute == JsRem(anchor + Sum(c.tag.values), 60)
    && exists t :: && Ascending(t, |vals|) && 1 <= |t| <= 4
                   && (|t| == 4 ==> |vals| == 4)
                   && c.tag.values == Pick(vals, t)
  }

  lemma GenerateSound(anchor: int, vals: seq<int>)
    ensures forall c :: c in Generate(anchor, vals) ==> WellFormed(anchor, vals, c)
  {
    var raw := Raw(anchor, vals);
    DedupMembers(raw);
    forall c | c in Generate(anchor, vals) ensures WellFormed(anchor, vals, c) {
      var k :| 0 <= k < |raw| && raw[k] == c;
      RawEntry(anchor, vals, k);
    }
  }

  lemma RawEntry(anchor: int, vals: seq<int>, k: nat)
    requires k < |Raw(anchor, vals)|
    ensures WellFormed(anchor, vals, Raw(anchor, vals)[k])
  {
    var t := Tuples(|vals|)[k];
    assert Raw(anchor, vals)[k].tag.values == Pick(vals, t);
  }

  /** Every 1-, 2- and 3-element subset of `vals` is present, and the whole set
      when exactly four values are given. */
  lemma GenerateComplete(anchor: int, vals: seq<int>)
    ensures forall t {:trigger Ascending(t, |vals|)} :: Ascending(t, |vals|) && 1 <= |t| <= 3 ==>
      ComboOf(anchor, vals, t) in Generate(anchor, vals)
    ensures |vals| == 4 ==>
      Combo(Label(anchor, vals), JsRem(anchor + Sum(vals), 60)) in Generate(anchor, vals)
  {
    DedupMembers(Raw(anchor, vals));
    RawHasEverySubset(anchor, vals);
  }

  lemma RawHasEverySubset(anchor: int, vals: seq<int>)
    ensures forall t {:trigger Ascending(t, |vals|)} :: Ascending(t, |vals|) && 1 <= |t| <= 3 ==>
      ComboOf(anchor, vals, t) in Raw(anchor, vals)
    ensures |vals| == 4 ==> Combo(Label(anchor, vals), JsRem(anchor + Sum(vals), 60)) in Raw(anchor, vals)
  {
    RawHasSmall(anchor, vals);
    if |vals| == 4 {
      RawHasWhole(anchor, vals);
    }
  }

  lemma RawHasSmall(anchor: int, vals: seq<int>)
    ensures forall t {:trigger Ascending(t, |vals|)} :: Ascending(t, |vals|) && 1 <= |t| <= 3 ==>
      ComboOf(anchor, vals, t) in Raw(anchor, vals)
  {
    forall t | Ascending(t, |vals|) && 1 <= |t| <= 3 ensures ComboOf(anchor, vals, t) in Raw(anchor, vals) {
      RawHasOne(anchor, vals, t);
    }
  }

  lemma RawHasOne(anchor: int, vals: seq<int>, t: seq<int>)
    requires Ascending(t, |vals|) && 1 <= |t| <= 3
    ensures ComboOf(anchor, vals, t) in Raw(anchor, vals)
  {
    var k := TupleIndex(|vals|, t);
    assert Raw(anchor, vals)[k] == ComboOf(anchor, vals, t);
  }

  lemma TupleIndex(n: nat, t: seq<int>) returns (k: nat)
    requires Ascending(t, n) && 1 <= |t| <= 3
    ensures k < |Tuples(n)| && Tuples(n)[k] == t
  {
    TuplesComplete(n);
    k :| k < |Tuples(n)| && Tuples(n)[k] == t;
  }

  lemma RawHasWhole(anchor: int, vals: seq<int>)
    requires |vals| == 4
    ensures Combo(Label(anchor, vals), JsRem(anchor + Sum(vals), 60)) in Raw(anchor, vals)
  {
    var ts := Tuples(4);
    TuplesComplete(4);
    var k :| 0 <= k < |ts| && ts[k] == [0, 1, 2, 3];
    ComboOfAll(anchor, vals);
    assert Raw(anchor, vals)[k] == ComboOf(anchor, vals, [0, 1, 2, 3]);
  }

  lemma ComboOfAll(anchor: int, vals: seq<int>)
    requires |vals| == 4
    ensures ComboOf(anchor, vals, [0, 1, 2, 3]) == Combo(Label(anchor, vals), JsRem(anchor + Sum(vals), 60))
  {
    var t := [0, 1, 2, 3];
    assert forall k :: 0 <= k < 4 ==> t[k] == k;
    assert Pick(vals, t) == vals;
  }

  /** No two entries are equal, and of equal pushes the first one is kept. */
  lemma GenerateDistinct(anchor: int, vals: seq<int>)
    ensures Distinct(Generate(anchor, vals))
    ensures forall c :: c in Generate(anchor, vals) <==> c in Raw(anchor, vals)
    ensures forall p, q :: 0 <= p < q < |Generate(anchor, vals)| ==>
      FirstIndex(Raw(anchor, vals), Generate(anchor, vals)[p])
        < FirstIndex(Raw(anchor, vals), Generate(anchor, vals)[q])
  {
    DedupMembers(Raw(anchor, vals));
    DedupFirstWins(Raw(anchor, vals));
  }

  /** With k <= 4 pairwise-distinct values nothing is removed and there are
      0, 1, 3, 7 or 15 entries. */
  lemma GenerateCount(anchor: int, vals: seq<int>)
    requires |vals| <= 4 && Distinct(vals)
    ensures |Generate(anchor, vals)| == [0, 1, 3, 7, 15][|vals|]
  {
    RawDistinct(anchor, vals);
    DedupOfDistinct(Raw(anchor, vals));
    TuplesCount(|vals|);
  }

  lemma TuplesOfTwo()
    ensures Tuples(2) == [[0], [1], [0, 1]]
  {
    assert PairsUpTo(2, 2) == [[0, 1]] by {
      assert PairsUpTo(2, 1) == [[0, 1]];
    }
    assert TriplesUpTo(2, 2) == [] by {
      assert TriplesUpTo(2, 1) == [];
    }
    assert Singles(2) == [[0], [1]];
  }

  /** Repeated context values do produce equal pushes, and only the first stays:
      `[x, x]` pushes `x`, `x`, `x+x` and keeps two. */
  lemma RepeatedValuesCollapse(anchor: int, x: int)
    requires x != 0
    ensures |Raw(anchor, [x, x])| == 3
    ensures Combos(anchor, [x, x]) ==
      [Combo(Label(anchor, [x]), JsRem(anchor + x, 60)), Combo(Label(anchor, [x, x]), JsRem(anchor + 2 * x, 60))]
  {
    NonZeroOfRepeat(x);
    RawOfRepeat(anchor, x);
    EntriesOfRepeat(anchor, x);
    DedupOfRepeat(Entry(anchor, [x]), Entry(anchor, [x, x]));
  }

  lemma NonZeroOfRepeat(x: int)
    requires x != 0
    ensures NonZero([x, x]) == [x, x]
  {
    assert NonZero([x, x][1..]) == [x];
  }

  lemma EntriesOfRepeat(anchor: int, x: int)
    ensures Entry(anchor, [x]) == Combo(Label(anchor, [x]), JsRem(anchor + x, 60))
    ensures Entry(anchor, [x, x]) == Combo(Label(anchor, [x, x]), JsRem(anchor + 2 * x, 60))
  {
    assert Sum([x]) == x;
    assert Sum([x, x]) == 2 * x;
  }

  lemma RawOfRepeat(anchor: int, x: int)
    ensures Raw(anchor, [x, x]) == [Entry(anchor, [x]), Entry(anchor, [x]), Entry(anchor, [x, x])]
  {
    TuplesOfTwo();
    PicksOfRepeat(x);
    ComboSeqOfThree(anchor, [x, x], [0], [1], [0, 1]);
  }

  lemma PicksOfRepeat(x: int)
    ensures Pick([x, x], [0]) == [x] && Pick([x, x], [1]) == [x] && Pick([x, x], [0, 1]) == [x, x]
  {
  }

  lemma ComboSeqOfThree(anchor: int, vals: seq<int>, a: seq<int>, b: seq<int>, c: seq<int>)
    requires InRange(a, |vals|) && InRange(b, |vals|) && InRange(c, |vals|)
    ensures AllInRange([a, b, c], |vals|)
    ensures ComboSeq(anchor, vals, [a, b, c]) == [ComboOf(anchor, vals, a), ComboOf(anchor, vals, b), ComboOf(anchor, vals, c)]
  {
  }

  lemma DedupOfRepeat(one: Combo, two: Combo)
    requires one != two
    ensures Dedup([one, one, two]) == [one, two]
  {
    assert [one][..0] == [];
    assert Dedup([one]) == [one];
    assert [one, one][..1] == [one];
    assert Dedup([one, one]) == [one];
    assert [one, one, two][..2] == [one, one];
  }

  // ---------------------------------------------------------------------------
  // The generator as the source runs it: nested loops pushing into `out`,
  // then a pass that filters against a `seen` set.

  lemma ComboSeqConcat(anchor: int, vals: seq<int>, a: seq<seq<int>>, b: seq<seq<int>>)
    requires AllInRange(a, |vals|)
    requires AllInRange(b, |vals|)
    ensures ComboSeq(anchor, vals, a + b) == ComboSeq(anchor, vals, a) + ComboSeq(anchor, vals, b)
  {
    var r, q := ComboSeq(anchor, vals, a + b), ComboSeq(anchor, vals, a) + ComboSeq(anchor, vals, b);
    forall k | 0 <= k < |r| ensures r[k] == q[k] {
      if k < |a| {
        assert (a + b)[k] == a[k];
      } else {
        assert (a + b)[k] == b[k - |a|];
      }
    }
  }

  lemma ComboSeqPush(anchor: int, vals: seq<int>, ts: seq<seq<int>>, t: seq<int>)
    requires AllInRange(ts, |vals|)
    requires InRange(t, |vals|)
    ensures ComboSeq(anchor, vals, ts + [t]) == ComboSeq(anchor, vals, ts) + [ComboOf(anchor, vals, t)]
  {
    ComboSeqConcat(anchor, vals, ts, [t]);
  }

  lemma PairsStep(anchor: int, vals: seq<int>, i: nat)
    requires i < |vals|
    ensures ComboSeq(anchor, vals, PairsUpTo(|vals|, i + 1))
         == ComboSeq(anchor, vals, PairsUpTo(|vals|, i)) + ComboSeq(anchor, vals, PairRow(|vals|, i))
  {
    ComboSeqConcat(anchor, vals, PairsUpTo(|vals|, i), PairRow(|vals|, i));
  }

  lemma TriplesStep(anchor: int, vals: seq<int>, i: nat)
    requires i < |vals|
    ensures ComboSeq(anchor, vals, TriplesUpTo(|vals|, i + 1))
         == ComboSeq(anchor, vals, TriplesUpTo(|vals|, i)) + ComboSeq(anchor, vals, TripleRow(|vals|, i, |vals|))
  {
    ComboSeqConcat(anchor, vals, TriplesUpTo(|vals|, i), TripleRow(|vals|, i, |vals|));
  }

  lemma TripleRowStep(anchor: int, vals: seq<int>, i: nat, j: nat)
    requires i < j < |vals|
    ensures ComboSeq(anchor, vals, TripleRow(|vals|, i, j + 1))
         == ComboSeq(anchor, vals, TripleRow(|vals|, i, j)) + ComboSeq(anchor, vals, TripleCol(|vals|, i, j))
  {
    ComboSeqConcat(anchor, vals, TripleRow(|vals|, i, j), TripleCol(|vals|, i, j));
  }

  /** `Raw` cut at the boundaries of the four groups of pushes. */
  lemma RawGroups(anchor: int, vals: seq<int>)
    ensures Raw(anchor, vals)
         == ComboSeq(anchor, vals, Singles(|vals|)) + ComboSeq(anchor, vals, PairsUpTo(|vals|, |vals|))
          + ComboSeq(anchor, vals, TriplesUpTo(|vals|, |vals|))
          + (if |vals| == 4 then [Entry(anchor, vals)] else [])
  {
    var n := |vals|;
    var s, p, t, f := Singles(n), PairsUpTo(n, n), TriplesUpTo(n, n), Fours(n);
    GroupsInRange(n);
    AllInRangeConcat(s, p, n);
    AllInRangeConcat(s + p, t, n);
    ComboSeqConcat(anchor, vals, s, p);
    ComboSeqConcat(anchor, vals, s + p, t);
    ComboSeqConcat(anchor, vals, s + p + t, f);
    FoursGroup(anchor, vals);
  }

  lemma FoursGroup(anchor: int, vals: seq<int>)
    ensures AllInRange(Fours(|vals|), |vals|)
    ensures ComboSeq(anchor, vals, Fours(|vals|)) == if |vals| == 4 then [Entry(anchor, vals)] else []
  {
    GroupsInRange(|vals|);
    if |vals| == 4 {
      ComboOfAll(anchor, vals);
    }
  }

  lemma AppendAssoc(a: seq<Combo>, b: seq<Combo>, c: seq<Combo>)
    ensures (a + b) + c == a + (b + c)
  {
  }

  /** The first loop of index.js:72: one push per value. */
  method PushSingles(minute: int, vals: seq<int>) returns (out: seq<Combo>)
    ensures out == ComboSeq(minute, vals, Singles(|vals|))
  {
    out := [];
    for i := 0 to |vals|
      invariant out == ComboSeq(minute, vals, Singles(i))
    {
      ComboSeqPush(minute, vals, Singles(i), [i]);
      assert Singles(i + 1) == Singles(i) + [[i]];
      assert Pick(vals, [i]) == [vals[i]];
      out := out + [Entry(minute, [vals[i]])];
    }
  }

  /** The pairs loop of index.js:73. */
  method PushPairs(minute: int, vals: seq<int>, out0: seq<Combo>) returns (out: seq<Combo>)
    ensures out == out0 + ComboSeq(minute, vals, PairsUpTo(|vals|, |vals|))
  {
    var n := |vals|;
    out := out0;
    for i := 0 to n
      invariant out == out0 + ComboSeq(minute, vals, PairsUpTo(n, i))
    {
      out := PushPairRow(minute, vals, i, out);
      PairsStep(minute, vals, i);
      AppendAssoc(out0, ComboSeq(minute, vals, PairsUpTo(n, i)), ComboSeq(minute, vals, PairRow(n, i)));
    }
  }

  /** The inner loop of index.js:73 for one first index. */
  method PushPairRow(minute: int, vals: seq<int>, i: nat, out0: seq<Combo>) returns (out: seq<Combo>)
    requires i < |vals|
    ensures out == out0 + ComboSeq(minute, vals, PairRow(|vals|, i))
  {
    var n := |vals|;
    out := out0;
    for j := i + 1 to n
      invariant out == out0 + ComboSeq(minute, vals, PairRow(n, i)[..j - i - 1])
    {
      var row := PairRow(n, i);
      ComboSeqPush(minute, vals, row[..j - i - 1], [i, j]);
      assert row[..j - i] == row[..j - i - 1] + [[i, j]];
      assert Pick(vals, [i, j]) == [vals[i], vals[j]];
      AppendAssoc(out0, ComboSeq(minute, vals, row[..j - i - 1]), [Entry(minute, [vals[i], vals[j]])]);
      out := out + [Entry(minute, [vals[i], vals[j]])];
    }
    assert PairRow(n, i)[..n - i - 1] == PairRow(n, i);
  }

  /** The triples loop of index.js:74. */
  method PushTriples(minute: int, vals: seq<int>, out0: seq<Combo>) returns (out: seq<Combo>)
    ensures out == out0 + ComboSeq(minute, vals, TriplesUpTo(|vals|, |vals|))
  {
    var n := |vals|;
    out := out0;
    for i := 0 to n
      invariant out == out0 + ComboSeq(minute, vals, TriplesUpTo(n, i))
    {
      out := PushTripleRow(minute, vals, i, out);
      TriplesStep(minute, vals, i);
      AppendAssoc(out0, ComboSeq(minute, vals, TriplesUpTo(n, i)), ComboSeq(minute, vals, TripleRow(n, i, n)));
    }
  }

  /** The middle loop of index.js:74 for one first index. */
  method PushTripleRow(minute: int, vals: seq<int>, i: nat, out0: seq<Combo>) returns (out: seq<Combo>)
    requires i < |vals|
    ensures out == out0 + ComboSeq(minute, vals, TripleRow(|vals|, i, |vals|))
  {
    var n := |vals|;
    out := out0;
    for j := i + 1 to n
      invariant out == out0 + ComboSeq(minute, vals, TripleRow(n, i, j))
    {
      out := PushTripleCol(minute, vals, i, j, out);
      TripleRowStep(minute, vals, i, j);
      AppendAssoc(out0, ComboSeq(minute, vals, TripleRow(n, i, j)), ComboSeq(minute, vals, TripleCol(n, i, j)));
    }
  }

  /** The innermost loop of index.js:74 for fixed first and second indices. */
  method PushTripleCol(minute: int, vals: seq<int>, i: nat, j: nat, out0: seq<Combo>) returns (out: seq<Combo>)
    requires i < j < |vals|
    ensures out == out0 + ComboSeq(minute, vals, TripleCol(|vals|, i, j))
  {
    var n := |vals|;
    out := out0;
    for k := j + 1 to n
      invariant out == out0 + ComboSeq(minute, vals, TripleCol(n, i, j)[..k - j - 1])
    {
      var col := TripleCol(n, i, j);
      ComboSeqPush(minute, vals, col[..k - j - 1], [i, j, k]);
      assert col[..k - j] == col[..k - j - 1] + [[i, j, k]];
      assert Pick(vals, [i, j, k]) == [vals[i], vals[j], vals[k]];
      AppendAssoc(out0, ComboSeq(minute, vals, col[..k - j - 1]), [Entry(minute, [vals[i], vals[j], vals[k]])]);
      out := out + [Entry(minute, [vals[i], vals[j], vals[k]])];
    }
    assert TripleCol(n, i, j)[..n - j - 1] == TripleCol(n, i, j);
  }

  /** The `seen`-set filter of index.js:76-77 as a loop. */
  method FilterSeen(out: seq<Combo>) returns (result: seq<Combo>)
    ensures result == Dedup(out)
  {
    var seen: set<Combo> := {};
    result := [];
    for k := 0 to |out|
      invariant result == Dedup(out[..k])
      invariant forall c :: c in seen <==> c in out[..k]
    {
      assert out[..k + 1][..k] == out[..k];
      if out[k] !in seen {
        seen := seen + {out[k]};
        result := result + [out[k]];
      }
      assert out[..k + 1] == out[..k] + [out[k]];
    }
    assert out[..|out|] == out;
  }

  /** The pushes of index.js:72-75, in order. */
  method PushAll(minute: int, vals: seq<int>) returns (out: seq<Combo>)
    ensures out == Raw(minute, vals)
  {
    out := PushSingles(minute, vals);
    out := PushPairs(minute, vals, out);
    out := PushTriples(minute, vals, out);
    if |vals| == 4 {
      out := out + [Entry(minute, vals)];
    }
    RawGroups(minute, vals);
  }

  /** `combosFromFour(minute, nums)` as written (index.js:65-78). */
  method CombosFromFour(minute: int, nums: seq<int>) returns (result: seq<Combo>)
    ensures result == Combos(minute, nums)
  {
    var vals := NonZero(nums);
    var out := PushAll(minute, vals);
    result := FilterSeen(out);
  }
}
