/**
 * Strictly increasing index tuples, the enumeration shared by the flush table
 * (five nested loops `c1 < c2 < ... < c5` over 0..13) and by exact equity
 * (`enumerate_helper`, which fills `indices[depth]` with every `i >= start`
 * and recurses with `start = i + 1`).  Both visit the tuples in the same
 * order: lexicographic, first position varying slowest.
 */
module Combinations {

  /** Binomial coefficient by Pascal's rule. */
  function Binom(n: nat, k: nat): (r: nat)
    ensures k > n ==> r == 0
    ensures k == 0 ==> r == 1
  {
    if k == 0 then 1
    else if n == 0 then 0
    else Binom(n - 1, k - 1) + Binom(n - 1, k)
  }

  lemma {:induction false} BinomOne(n: nat)
    ensures Binom(n, 1) == n
  {
    if n > 0 {
      BinomOne(n - 1);
    }
  }

  /** Strictly increasing: each entry is below every later one. */
  predicate Increasing(t: seq<nat>)
  {
    forall i, j | 0 <= i < j < |t| :: t[i] < t[j]
  }

  predicate InRange(t: seq<nat>, lo: nat, hi: nat)
  {
    forall i | 0 <= i < |t| :: lo <= t[i] < hi
  }

  /** A `k`-tuple the enumeration over `[lo, hi)` must produce. */
  predicate IsTuple(t: seq<nat>, lo: nat, hi: nat, k: nat)
  {
    |t| == k && Increasing(t) && InRange(t, lo, hi)
  }

  function Cons(x: nat, ts: seq<seq<nat>>): (r: seq<seq<nat>>)
    ensures |r| == |ts|
    ensures forall i | 0 <= i < |r| :: r[i] == [x] + ts[i]
  {
    seq(|ts|, i requires 0 <= i < |ts| => [x] + ts[i])
  }

  /**
   * The tuples of length `k` over `[lo, hi)`, in visiting order: all tuples
   * starting with `lo` first, then those over `[lo + 1, hi)`.
   */
  function Tuples(lo: nat, hi: nat, k: nat): (r: seq<seq<nat>>)
    ensures forall i | 0 <= i < |r| :: IsTuple(r[i], lo, hi, k)
    decreases k, hi - lo
  {
    if k == 0 then [[]]
    else if lo >= hi then []
    else
      var first := Cons(lo, Tuples(lo + 1, hi, k - 1));
      var rest := Tuples(lo + 1, hi, k);
      assert forall i | 0 <= i < |first| :: first[i][0] == lo && first[i][1..] == Tuples(lo + 1, hi, k - 1)[i];
      first + rest
  }

  /** Lexicographic order on tuples of equal length. */
  predicate LexLess(a: seq<nat>, b: seq<nat>)
    decreases |a|
  {
    0 < |a| && 0 < |b| && (a[0] < b[0] || (a[0] == b[0] && LexLess(a[1..], b[1..])))
  }

  lemma {:induction false} LexLessIrreflexive(a: seq<nat>)
    ensures !LexLess(a, a)
    decreases |a|
  {
    if 0 < |a| {
      LexLessIrreflexive(a[1..]);
    }
  }

  /** Every tuple the specification asks for is enumerated. */
  lemma {:induction false} TuplesComplete(lo: nat, hi: nat, k: nat, t: seq<nat>)
    requires IsTuple(t, lo, hi, k)
    ensures t in Tuples(lo, hi, k)
    decreases k, hi - lo
  {
    if k == 0 {
      assert t == [];
    } else if t[0] == lo {
      TailTuple(lo, hi, k, t);
      TuplesComplete(lo + 1, hi, k - 1, t[1..]);
      ConsMember(lo, Tuples(lo + 1, hi, k - 1), t);
      assert Tuples(lo, hi, k) == Cons(lo, Tuples(lo + 1, hi, k - 1)) + Tuples(lo + 1, hi, k);
    } else {
      ShiftTuple(lo, hi, k, t);
      TuplesComplete(lo + 1, hi, k, t);
      assert Tuples(lo, hi, k) == Cons(lo, Tuples(lo + 1, hi, k - 1)) + Tuples(lo + 1, hi, k);
    }
  }

  /** The position at which the enumeration visits a tuple. */
  lemma TupleIndex(lo: nat, hi: nat, k: nat, t: seq<nat>) returns (i: nat)
    requires IsTuple(t, lo, hi, k)
    ensures i < |Tuples(lo, hi, k)| && Tuples(lo, hi, k)[i] == t
  {
    TuplesComplete(lo, hi, k, t);
    i :| 0 <= i < |Tuples(lo, hi, k)| && Tuples(lo, hi, k)[i] == t;
  }

  /** A tuple starting at `lo` continues with a shorter tuple above `lo`. */
  lemma TailTuple(lo: nat, hi: nat, k: nat, t: seq<nat>)
    requires IsTuple(t, lo, hi, k) && k > 0 && t[0] == lo
    ensures IsTuple(t[1..], lo + 1, hi, k - 1)
  {
    var tail := t[1..];
    forall i | 0 <= i < |tail| ensures lo + 1 <= tail[i] < hi {
      assert t[0] < t[i + 1];
    }
  }

  /** A tuple not starting at `lo` lies entirely above `lo`. */
  lemma ShiftTuple(lo: nat, hi: nat, k: nat, t: seq<nat>)
    requires IsTuple(t, lo, hi, k) && k > 0 && t[0] != lo
    ensures IsTuple(t, lo + 1, hi, k)
  {
    forall i | 0 <= i < |t| ensures lo + 1 <= t[i] < hi {
      if i > 0 {
        assert t[0] < t[i];
      }
    }
  }

  /** Prefixing `x` to a listed tail lists the whole tuple. */
  lemma ConsMember(x: nat, ts: seq<seq<nat>>, t: seq<nat>)
    requires |t| > 0 && t[0] == x && t[1..] in ts
    ensures t in Cons(x, ts)
  {
    var j :| 0 <= j < |ts| && ts[j] == t[1..];
    assert Cons(x, ts)[j] == [x] + t[1..] == t;
  }

  /** The enumeration visits tuples in strictly increasing lexicographic order. */
  lemma {:induction false} TuplesOrdered(lo: nat, hi: nat, k: nat)
    ensures forall i, j | 0 <= i < j < |Tuples(lo, hi, k)| ::
      LexLess(Tuples(lo, hi, k)[i], Tuples(lo, hi, k)[j])
    decreases k, hi - lo
  {
    if k > 0 && lo < hi {
      var inner := Tuples(lo + 1, hi, k - 1);
      var first := Cons(lo, inner);
      var rest := Tuples(lo + 1, hi, k);
      var r := Tuples(lo, hi, k);
      assert r == first + rest;
      TuplesOrdered(lo + 1, hi, k - 1);
      TuplesOrdered(lo + 1, hi, k);
      forall i, j | 0 <= i < j < |r| ensures LexLess(r[i], r[j]) {
        if j < |first| {
          assert r[i] == [lo] + inner[i] && r[j] == [lo] + inner[j];
          assert r[i][1..] == inner[i] && r[j][1..] == inner[j];
        } else if i < |first| {
          assert r[i][0] == lo;
          assert r[j] == rest[j - |first|];
          assert lo + 1 <= r[j][0];
        } else {
          assert r[i] == rest[i - |first|] && r[j] == rest[j - |first|];
        }
      }
    }
  }

  /** No tuple is visited twice. */
  lemma TuplesDistinct(lo: nat, hi: nat, k: nat)
    ensures forall i, j | 0 <= i < j < |Tuples(lo, hi, k)| :: Tuples(lo, hi, k)[i] != Tuples(lo, hi, k)[j]
  {
    TuplesOrdered(lo, hi, k);
    forall i, j | 0 <= i < j < |Tuples(lo, hi, k)| ensures Tuples(lo, hi, k)[i] != Tuples(lo, hi, k)[j] {
      LexLessIrreflexive(Tuples(lo, hi, k)[i]);
    }
  }

  /** The number of visited tuples is C(hi - lo, k). */
  lemma {:induction false} TuplesCount(lo: nat, hi: nat, k: nat)
    requires lo <= hi
    ensures |Tuples(lo, hi, k)| == Binom(hi - lo, k)
    decreases k, hi - lo
  {
    if k > 0 && lo < hi {
      TuplesCount(lo + 1, hi, k - 1);
      TuplesCount(lo + 1, hi, k);
    }
  }

  /** The elements of a tuple, as a set. */
  function Elements(t: seq<nat>): (r: set<nat>)
    ensures forall x :: x in r <==> x in t
  {
    set i | 0 <= i < |t| :: t[i]
  }

  /** The members of `m` below `n`, listed in increasing order. */
  function Ascending(m: set<nat>, n: nat): (r: seq<nat>)
    ensures Increasing(r) && InRange(r, 0, n)
    ensures forall x :: x in r <==> x in m && x < n
  {
    if n == 0 then []
    else
      var r := Ascending(m, n - 1) + (if n - 1 in m then [n - 1] else []);
      assert forall x :: x in r ==> x in Ascending(m, n - 1) || x == n - 1;
      r
  }

  /** An increasing list is the only increasing listing of its elements. */
  lemma AscendingOfElements(t: seq<nat>, n: nat)
    requires Increasing(t) && InRange(t, 0, n)
    ensures Ascending(Elements(t), n) == t
  {
    AscendingListing(Elements(t), t, n);
  }

  /** `Ascending(m, n)` is the one increasing list holding exactly the members of `m` below `n`. */
  lemma {:induction false} AscendingListing(m: set<nat>, t: seq<nat>, n: nat)
    requires Increasing(t) && InRange(t, 0, n)
    requires forall x | x < n :: x in m <==> x in t
    ensures Ascending(m, n) == t
    decreases n
  {
    if n > 0 {
      if |t| > 0 && t[|t| - 1] == n - 1 {
        var init := t[..|t| - 1];
        DropLast(t, n);
        AscendingListing(m, init, n - 1);
        assert n - 1 in m;
        AscendingAppend(m, init, n);
      } else {
        BelowLast(t, n);
        AscendingListing(m, t, n - 1);
        AscendingSkip(m, n);
      }
    }
  }

  /** One more step of `Ascending` appends `n - 1` when it is a member. */
  lemma AscendingAppend(m: set<nat>, init: seq<nat>, n: nat)
    requires n > 0 && n - 1 in m && Ascending(m, n - 1) == init
    ensures Ascending(m, n) == init + [n - 1]
  {
  }

  /** One more step of `Ascending` adds nothing when `n - 1` is not a member. */
  lemma AscendingSkip(m: set<nat>, n: nat)
    requires n > 0 && n - 1 !in m
    ensures Ascending(m, n) == Ascending(m, n - 1)
  {
  }

  /** Dropping the last entry `n - 1` of an increasing list leaves a list below `n - 1`. */
  lemma DropLast(t: seq<nat>, n: nat)
    requires Increasing(t) && InRange(t, 0, n)
    requires |t| > 0 && t[|t| - 1] == n - 1
    ensures Increasing(t[..|t| - 1]) && InRange(t[..|t| - 1], 0, n - 1)
    ensures forall x | x < n - 1 :: x in t <==> x in t[..|t| - 1]
    ensures n - 1 in t && t == t[..|t| - 1] + [n - 1]
  {
    var init := t[..|t| - 1];
    forall x | x < n - 1 && x in t ensures x in init {
      var i :| 0 <= i < |t| && t[i] == x;
      assert init[i] == x;
    }
  }

  /** An increasing list below `n` whose last entry is not `n - 1` lies below `n - 1`. */
  lemma BelowLast(t: seq<nat>, n: nat)
    requires Increasing(t) && InRange(t, 0, n) && n > 0
    requires |t| == 0 || t[|t| - 1] != n - 1
    ensures InRange(t, 0, n - 1)
    ensures n - 1 !in t
  {
    forall i | 0 <= i < |t| ensures t[i] < n - 1 {
      assert t[i] <= t[|t| - 1];
    }
  }

  /** An increasing list has as many elements as its set. */
  lemma {:induction false} ElementsCount(t: seq<nat>)
    requires Increasing(t)
    ensures |Elements(t)| == |t|
    decreases |t|
  {
    if |t| > 0 {
      var init := t[..|t| - 1];
      ElementsCount(init);
      assert Elements(t) == Elements(init) + {t[|t| - 1]};
      assert t[|t| - 1] !in Elements(init) by {
        forall i | 0 <= i < |init| ensures init[i] != t[|t| - 1] {
          assert t[i] < t[|t| - 1];
        }
      }
    }
  }

  /** Listing a set and taking its elements gives the set back (below `n`). */
  lemma ElementsOfAscending(m: set<nat>, n: nat)
    requires forall x | x in m :: x < n
    ensures Elements(Ascending(m, n)) == m
    ensures |Ascending(m, n)| == |m|
  {
    ElementsCount(Ascending(m, n));
  }
}
