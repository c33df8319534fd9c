/**
 * The normalization lesson's navigation (`NormalizationDemo`): a stage index
 * bounded by the chosen normal form's stage list, and the exercise pool of
 * `RandomExerciseComponent`, which draws exercises without repetition until
 * every one has been shown. `Math.random` becomes a free choice.
 */
module Normalization {
  import opened Wrappers
  import opened Seqs

  datatype NormalForm = First | Third | BoyceCodd | Fourth

  /** The number of stages the lesson data lists for each normal form. */
  function StageCount(nf: NormalForm): (n: nat)
    ensures n > 0
  {
    match nf
    case First => 3
    case Third => 4
    case BoyceCodd => 3
    case Fourth => 4
  }

  /** `handleNextStage`: one stage on, unless already at the last stage. */
  function NextStage(i: nat, count: nat): (j: nat)
    requires i < count
    ensures j < count && i <= j <= i + 1
    ensures j == i <==> i == count - 1
  {
    if i < count - 1 then i + 1 else i
  }

  /** `handlePrevStage`: one stage back, unless already at the first stage. */
  function PrevStage(i: nat): (j: nat)
    ensures j <= i && i <= j + 1
    ensures j == i <==> i == 0
  {
    if i > 0 then i - 1 else i
  }

  /** Going forward and back again returns to the same stage, away from the ends. */
  lemma NextPrevInverse(i: nat, count: nat)
    requires i < count
    ensures i < count - 1 ==> PrevStage(NextStage(i, count)) == i
    ensures i > 0 ==> NextStage(PrevStage(i), count) == i
  {
  }

  /** The stage after `k` presses of the next button. */
  function Advance(i: nat, count: nat, k: nat): (j: nat)
    requires i < count
    ensures j < count
    decreases k
  {
    if k == 0 then i else Advance(NextStage(i, count), count, k - 1)
  }

  /** Pressing next `k` times moves `k` stages on, stopping at the last stage. */
  lemma {:induction false} AdvanceStops(i: nat, count: nat, k: nat)
    requires i < count
    ensures Advance(i, count, k) == if i + k < count - 1 then i + k else count - 1
    decreases k
  {
    if k > 0 {
      AdvanceStops(NextStage(i, count), count, k - 1);
    }
  }

  class StageNavigator {
    var form: NormalForm
    var stage: nat
    var showInfo: bool

    /** The stage index always names one of the form's stages. */
    ghost predicate Valid()
      reads this
    {
      stage < StageCount(form)
    }

    constructor ()
      ensures Valid() && form == First && stage == 0 && !showInfo
    {
      form, stage, showInfo := First, 0, false;
    }

    method Next()
      requires Valid()
      modifies this`stage
      ensures Valid() && stage == NextStage(old(stage), StageCount(form))
    {
      if stage < StageCount(form) - 1 {
        stage := stage + 1;
      }
    }

    method Prev()
      requires Valid()
      modifies this`stage
      ensures Valid() && stage == PrevStage(old(stage))
    {
      if stage > 0 {
        stage := stage - 1;
      }
    }

    /** `handleNFChange`: a new normal form starts at its first stage with the theory hidden. */
    method ChangeForm(nf: NormalForm)
      modifies this
      ensures Valid() && form == nf && stage == 0 && !showInfo
    {
      form, stage, showInfo := nf, 0, false;
    }

    /** The theory button. */
    method ToggleInfo()
      modifies this`showInfo
      ensures showInfo == !old(showInfo)
    {
      showInfo := !showInfo;
    }
  }

  /** `exercises.map((_, idx) => idx)`: every exercise index, in order. */
  function Range(n: nat): (r: seq<nat>)
    ensures |r| == n && Distinct(r)
    ensures forall k: nat :: k in r <==> k < n
  {
    var r := seq(n, i requires 0 <= i < n => i);
    forall k | 0 <= k < n ensures k in r {
      assert r[k] == k;
    }
    assert forall k :: k in r ==> k < n by {
      forall k | k in r ensures k < n {
        var i :| 0 <= i < |r| && r[i] == k;
      }
    }
    r
  }

  /** `s.filter(i => i !== k)`. */
  function Without(s: seq<nat>, k: nat): (r: seq<nat>)
    ensures forall x :: x in r <==> x in s && x != k
  {
    Filter(s, (i: nat) => i != k)
  }

  /** The indices not drawn since the last refill, in index order. */
  function Pool(n: nat, drawn: seq<nat>): seq<nat> {
    Filter(Range(n), (i: nat) => i !in drawn)
  }

  lemma {:induction false} FilterFilter(s: seq<nat>, p: nat -> bool, q: nat -> bool, pq: nat -> bool)
    requires forall x :: pq(x) == (p(x) && q(x))
    ensures Filter(Filter(s, p), q) == Filter(s, pq)
  {
    if s != [] {
      FilterFilter(s[1..], p, q, pq);
      var fs := Filter(s, p);
      if p(s[0]) {
        assert fs == [s[0]] + Filter(s[1..], p);
        assert fs[0] == s[0] && fs[1..] == Filter(s[1..], p);
        assert Filter(fs, q) == (if q(fs[0]) then [fs[0]] else []) + Filter(fs[1..], q);
      } else {
        assert fs == Filter(s[1..], p);
      }
    }
  }

  /** Removing a drawn index from the pool gives the pool of the longer draw. */
  lemma PoolDraw(n: nat, drawn: seq<nat>, k: nat)
    ensures Without(Pool(n, drawn), k) == Pool(n, drawn + [k])
  {
    FilterFilter(Range(n), (i: nat) => i !in drawn, (i: nat) => i != k, (i: nat) => i !in drawn + [k]);
  }

  /** Before any draw the pool is every index. */
  lemma PoolFull(n: nat)
    ensures Pool(n, []) == Range(n)
  {
    var none: seq<nat> := [];
    FilterAll(Range(n), (i: nat) => i !in none);
  }

  lemma {:induction false} FilterDistinct(s: seq<nat>, p: nat -> bool)
    requires Distinct(s)
    ensures Distinct(Filter(s, p))
  {
    if s != [] {
      assert Distinct(s[1..]) by {
        forall i, j | 0 <= i < j < |s[1..]| ensures s[1..][i] != s[1..][j] {
          assert s[1..][i] == s[i + 1] && s[1..][j] == s[j + 1];
        }
      }
      FilterDistinct(s[1..], p);
      assert s[0] !in s[1..];
    }
  }

  /** A draw from a pool without repetition shrinks it by exactly one. */
  lemma {:induction false} WithoutShrinks(s: seq<nat>, k: nat)
    requires Distinct(s) && k in s
    ensures |Without(s, k)| == |s| - 1
  {
    if s[0] == k {
      assert k !in s[1..];
      FilterAll(s[1..], (i: nat) => i != k);
    } else {
      assert Distinct(s[1..]) by {
        forall i, j | 0 <= i < j < |s[1..]| ensures s[1..][i] != s[1..][j] {
          assert s[1..][i] == s[i + 1] && s[1..][j] == s[j + 1];
        }
      }
      WithoutShrinks(s[1..], k);
    }
  }

  class ExercisePool {
    var count: nat                 // exercises.length
    var remaining: seq<nat>        // remainingIndices
    var current: Option<nat>       // currentExercise, as an index
    var showSolution: bool
    ghost var drawn: seq<nat>      // the draws since the last refill, oldest first

    /** The pool is exactly the indices not drawn since the last refill; no draw repeats. */
    ghost predicate Valid()
      reads this
    {
      remaining == Pool(count, drawn) && Distinct(drawn) &&
      (forall k :: k in drawn ==> k < count) &&
      (drawn != [] ==> current == Some(drawn[|drawn| - 1]))
    }

    /** The component's initial state, before its effect runs. */
    constructor ()
      ensures Valid() && count == 0 && remaining == [] && current == None && !showSolution
    {
      count, remaining, current, showSolution, drawn := 0, [], None, false, [];
    }

    /**
     * The effect run when a list of `n` exercises arrives: with `n > 0` some
     * index becomes current and the pool is every other index; with `n == 0`
     * the pool is empty and the current exercise stays as it was.
     */
    method Reset(n: nat)
      modifies this
      ensures Valid() && count == n && showSolution == old(showSolution)
      ensures n == 0 ==> remaining == [] && current == old(current)
      ensures n > 0 ==> current.Some? && current.value < n && remaining == Without(Range(n), current.value)
    {
      count := n;
      remaining := Range(n);
      drawn := [];
      PoolFull(n);
      if n > 0 {
        var pick :| 0 <= pick < |remaining|;
        var k := remaining[pick];
        current := Some(k);
        PoolDraw(n, [], k);
        assert [] + [k] == [k];
        remaining := Without(remaining, k);
        drawn := [k];
      }
    }

    /**
     * `getNextExercise`: hides the solution; draws an index from a non-empty
     * pool and removes exactly that index; refills an empty pool with every
     * index and keeps the current exercise.
     */
    method GetNext()
      requires Valid()
      modifies this
      ensures Valid() && count == old(count) && !showSolution
      ensures old(remaining) == [] ==> remaining == Range(count) && current == old(current) && drawn == []
      ensures old(remaining) != [] ==>
                current.Some? && current.value in old(remaining) && current.value !in old(drawn) &&
                remaining == Without(old(remaining), current.value) &&
                |remaining| == |old(remaining)| - 1 && drawn == old(drawn) + [current.value]
    {
      showSolution := false;
      if |remaining| == 0 {
        remaining := Range(count);
        drawn := [];
        PoolFull(count);
      } else {
        var pick :| 0 <= pick < |remaining|;
        var k := remaining[pick];
        current := Some(k);
        ghost var d := drawn;
        PoolDraw(count, d, k);
        FilterDistinct(Range(count), (i: nat) => i !in d);
        WithoutShrinks(remaining, k);
        remaining := Without(remaining, k);
        drawn := drawn + [k];
      }
    }

    /** The show/hide solution button. */
    method ToggleSolution()
      modifies this`showSolution
      ensures showSolution == !old(showSolution)
    {
      showSolution := !showSolution;
    }
  }

  /** While no refill happens, the pool holds exactly the indices not drawn yet. */
  lemma {:induction false} PoolSize(n: nat, drawn: seq<nat>)
    requires Distinct(drawn) && forall k :: k in drawn ==> k < n
    ensures |Pool(n, drawn)| == n - |drawn|
  {
    if drawn == [] {
      PoolFull(n);
    } else {
      var d := drawn[..|drawn| - 1];
      var k := drawn[|drawn| - 1];
      assert d + [k] == drawn;
      assert Distinct(d);
      assert forall x :: x in d ==> x in drawn;
      PoolSize(n, d);
      FilterDistinct(Range(n), (i: nat) => i !in d);
      PoolDraw(n, d, k);
      assert k !in d && k in drawn && k in Range(n);
      WithoutShrinks(Pool(n, d), k);
    }
  }
}
