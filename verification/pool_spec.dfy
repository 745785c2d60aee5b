/** Arithmetic and bookkeeping rules of the prefab pool, as functions: how
    many instances one growth step may add, how the process-wide loan counter
    advances, and which pool index the manager's start-up registration maps
    each prefab id to. */
module PoolSpec {
  import opened Engine

  type uint64 = x: int | 0 <= x < 0x1_0000_0000_0000_0000

  /** The loan counter is kept below this value. */
  const LoanModulus: int := 0x7FFF_FFFF_FFFF_FFFF

  /** The `count` a growth step uses after its clamps: a non-positive request
      is first raised to 1, then capped by the room left below `maxSize`. */
  function GrowCount(count: int, maxSize: int, poolSize: int): (c: int)
    ensures c <= maxSize - poolSize
    ensures c <= (if count <= 0 then 1 else count)
    ensures c == maxSize - poolSize || c == (if count <= 0 then 1 else count)
  {
    var requested := if count <= 0 then 1 else count;
    if requested < maxSize - poolSize then requested else maxSize - poolSize
  }

  /** A growth step that adds anything never takes the counted size past the cap. */
  lemma GrowCountWithinCap(count: int, maxSize: int, poolSize: int)
    requires GrowCount(count, maxSize, poolSize) > 0
    ensures poolSize + GrowCount(count, maxSize, poolSize) <= maxSize
    ensures poolSize < maxSize
  {
  }

  /** A growth amount of 0 does not switch growth off: the request is raised
      to 1, so while there is room a growth step still counts one instance
      (and, the creation loop running once more than that, makes two). */
  lemma ZeroGrowAmountStillGrows(maxSize: int, poolSize: int)
    requires poolSize < maxSize
    ensures GrowCount(0, maxSize, poolSize) == 1
  {
  }

  /** The counter after one loan: a 64-bit unsigned increment, then the
      reduction modulo LoanModulus. */
  function NextLoanId(id: uint64): (r: uint64)
    ensures r < LoanModulus
    ensures id + 1 < LoanModulus ==> r == id + 1
    ensures id + 1 == LoanModulus ==> r == 0
  {
    var incremented := (id + 1) % 0x1_0000_0000_0000_0000;
    incremented % LoanModulus
  }

  /** The counter after `n` loans starting from `start`. */
  function LoanIdAfter(start: uint64, n: nat): uint64
    decreases n
  {
    if n == 0 then start else NextLoanId(LoanIdAfter(start, n - 1))
  }

  lemma MulAtLeast(d: int, m: int)
    requires d >= 1 && m > 0
    ensures d * m >= m
  {
    assert d * m == m + (d - 1) * m;
  }

  /** Euclidean division is determined by quotient and remainder. */
  lemma DivModUnique(x: int, q: int, r: int, m: int)
    requires m > 0 && 0 <= r < m && x == q * m + r
    ensures x % m == r && x / m == q
  {
    var q', r' := x / m, x % m;
    var d := q - q';
    assert d * m == r' - r by {
      assert q * m - q' * m == (q - q') * m;
    }
    if d >= 1 {
      MulAtLeast(d, m);
    } else if d <= -1 {
      MulAtLeast(-d, m);
    }
  }

  /** Counting one more modulo `m`. */
  lemma ModSucc(x: int, m: int)
    requires m > 0
    ensures (x + 1) % m == if x % m + 1 == m then 0 else x % m + 1
  {
    var q, r := x / m, x % m;
    if r + 1 == m {
      DivModUnique(x + 1, q + 1, 0, m);
    } else {
      DivModUnique(x + 1, q, r + 1, m);
    }
  }

  /** Once below the modulus, the counter simply counts loans modulo
      LoanModulus: successive loans get successive ids until it wraps. */
  lemma {:induction false} LoanIdAfterCounts(start: uint64, n: nat)
    requires start < LoanModulus
    ensures LoanIdAfter(start, n) == (start + n) % LoanModulus
    decreases n
  {
    if n > 0 {
      LoanIdAfterCounts(start, n - 1);
      var prev := LoanIdAfter(start, n - 1);
      assert prev == (start + n - 1) % LoanModulus;
      ModSucc(start + n - 1, LoanModulus);
      assert LoanIdAfter(start, n) == NextLoanId(prev);
    }
  }

  /** Within one period no two loans share an id. */
  lemma LoanIdsDistinctWithinPeriod(start: uint64, i: nat, j: nat)
    requires start < LoanModulus
    requires i < j < i + LoanModulus
    ensures LoanIdAfter(start, i) != LoanIdAfter(start, j)
  {
    LoanIdAfterCounts(start, i);
    LoanIdAfterCounts(start, j);
    var qi, qj := (start + i) / LoanModulus, (start + j) / LoanModulus;
    var ri, rj := (start + i) % LoanModulus, (start + j) % LoanModulus;
    assert start + i == qi * LoanModulus + ri;
    assert start + j == qj * LoanModulus + rj;
    if qi == qj {
      assert rj - ri == j - i;
    } else {
      assert qi < qj;
      assert rj - ri == (j - i) - (qj - qi) * LoanModulus;
      assert (qj - qi) * LoanModulus >= LoanModulus;
    }
  }

  /** The counter starts at 1, and 0 is meant to mean "not on loan"; yet after
      LoanModulus - 1 loans the counter reaches 0 and the next loan is
      stamped with it. */
  lemma {:induction false} LoanIdReachesZero()
    ensures LoanIdAfter(1, LoanModulus - 1) == 0
  {
    LoanIdAfterCounts(1, LoanModulus - 1);
  }

  /** The prefab-id-to-index map after the manager's start-up loop has
      processed the pool list from its last index down to `lo`: an id that is
      already mapped keeps its index, a pool without a prefab is skipped. */
  function Registered(m: map<int, int>, prefabIds: seq<Option<int>>, lo: nat): map<int, int>
    decreases |prefabIds| - lo
  {
    if lo >= |prefabIds| then m
    else
      var r := Registered(m, prefabIds, lo + 1);
      if prefabIds[lo].Some? && prefabIds[lo].value !in r then r[prefabIds[lo].value := lo] else r
  }

  /** Registration in reverse index order maps each newly seen prefab id to the
      HIGHEST index of a pool holding it, and leaves earlier mappings alone. */
  lemma {:induction false} RegisteredMapsHighestIndex(m: map<int, int>, prefabIds: seq<Option<int>>, lo: nat)
    ensures forall id :: id in m ==> id in Registered(m, prefabIds, lo) && Registered(m, prefabIds, lo)[id] == m[id]
    ensures forall id :: id in Registered(m, prefabIds, lo) <==>
              id in m || exists j :: lo <= j < |prefabIds| && prefabIds[j] == Some(id)
    ensures forall id :: id in Registered(m, prefabIds, lo) && id !in m ==>
              var i := Registered(m, prefabIds, lo)[id];
              lo <= i < |prefabIds| && prefabIds[i] == Some(id) &&
              forall j :: i < j < |prefabIds| ==> prefabIds[j] != Some(id)
    decreases |prefabIds| - lo
  {
    if lo < |prefabIds| {
      RegisteredMapsHighestIndex(m, prefabIds, lo + 1);
      var r := Registered(m, prefabIds, lo + 1);
      forall id
        ensures id in Registered(m, prefabIds, lo) <==>
                  id in m || exists j :: lo <= j < |prefabIds| && prefabIds[j] == Some(id)
      {
        if prefabIds[lo] == Some(id) {
          assert id in Registered(m, prefabIds, lo);
        }
      }
    }
  }
}
