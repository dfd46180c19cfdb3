/**
 How board revisions count.  They are unsigned but kept in a signed column, so that they
 count modulo 2^63.
 */
module Revisions {
  import opened WorkItems

  // ---------------------------------------------------------------------------
  // Remainders
  // ---------------------------------------------------------------------------

  lemma {:induction false} MultipleGap(less: nat, more: nat, modulus: nat)
    requires less < more
    ensures more * modulus >= less * modulus + modulus
  {
    if less + 1 < more {
      MultipleGap(less, more - 1, modulus);
    }
  }

  lemma DivisionIsUnique(n: nat, modulus: nat, quotient: nat, remainder: nat)
    requires remainder < modulus && n == quotient * modulus + remainder
    ensures n % modulus == remainder
  {
    var q, r := n / modulus, n % modulus;
    if q < quotient {
      MultipleGap(q, quotient, modulus);
    } else if quotient < q {
      MultipleGap(quotient, q, modulus);
    }
  }

  lemma AddModulus(n: nat, modulus: nat)
    requires modulus > 0
    ensures (modulus + n) % modulus == n % modulus
  {
    var q := n / modulus;
    DivisionIsUnique(modulus + n, modulus, q + 1, n % modulus);
  }

  lemma SumWraps(start: nat, n: nat, modulus: nat)
    requires start < modulus
    ensures var sum := start + n % modulus;
            (start + n) % modulus == if sum < modulus then sum else sum - modulus
  {
    var q, sum := n / modulus, start + n % modulus;
    if sum < modulus {
      DivisionIsUnique(start + n, modulus, q, sum);
    } else {
      var next := q + 1;
      assert next * modulus == q * modulus + modulus;
      DivisionIsUnique(start + n, modulus, next, sum - modulus);
    }
  }

  lemma WrapIff(start: nat, n: nat, modulus: nat)
    requires start < modulus
    ensures (start + n) % modulus == start + n <==> start + n < modulus
    ensures (start + n) % modulus == start <==> n % modulus == 0
  {
    SumWraps(start, n, modulus);
    if start + n < modulus {
      DivisionIsUnique(start + n, modulus, 0, start + n);
    }
  }

  // ---------------------------------------------------------------------------
  // Revisions
  // ---------------------------------------------------------------------------

  /** Revisions are read back from a signed column: the one after the largest reads as 0. */
  function RevisionAfter(revision: u64): u64 {
    if revision >= I64_MAX then 0 else revision + 1
  }

  const REVISIONS: int := I64_MAX + 1

  /** The revision `n` commits later. */
  function Advanced(revision: u64, n: nat): u64
    decreases n
  {
    if n == 0 then revision else Advanced(RevisionAfter(revision), n - 1)
  }

  lemma {:induction false} AdvancedTwice(revision: u64, once: nat, more: nat)
    ensures Advanced(Advanced(revision, once), more) == Advanced(revision, once + more)
    decreases once
  {
    if once > 0 {
      AdvancedTwice(RevisionAfter(revision), once - 1, more);
    }
  }

  /** Revisions count modulo 2^63: they rise by `n` short of that, and return after going all the way round. */
  lemma {:induction false} AdvancedIsModular(revision: u64, n: nat)
    requires revision <= I64_MAX
    ensures Advanced(revision, n) == (revision + n) % REVISIONS
    ensures Advanced(revision, n) == revision + n <==> revision + n <= I64_MAX
    ensures Advanced(revision, n) == revision <==> n % REVISIONS == 0
    decreases n
  {
    if n > 0 {
      AdvancedIsModular(RevisionAfter(revision), n - 1);
      if revision == I64_MAX {
        AddModulus(n - 1, REVISIONS);
      }
    }
    WrapIff(revision, n, REVISIONS);
  }

  lemma AdvancedIsNew(revision: u64, n: nat)
    requires revision <= I64_MAX && 0 < n < REVISIONS
    ensures Advanced(revision, n) != revision
  {
    AdvancedIsModular(revision, n);
    DivisionIsUnique(n, REVISIONS, 0, n);
  }
}
