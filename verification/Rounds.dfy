/** Counting in rounds: what a cursor or counter taken modulo a length visits. */
module Rounds {
  import opened Numbers

  /** How often a cursor that counts from 0 to `n` is at `turn`, modulo `m`. */
  function Turns(n: nat, m: nat, turn: nat): nat
    requires m > 0
  {
    if n == 0 then 0 else Turns(n - 1, m, turn) + (if (n - 1) % m == turn then 1 else 0)
  }

  /** In `q` rounds of `m` and `r` more, every turn comes up in each round, and the first `r` again. */
  lemma {:induction false} TurnsInRounds(q: nat, r: nat, m: nat, turn: nat)
    requires r < m && turn < m
    ensures q * m >= 0 && Turns(q * m + r, m, turn) == q + (if turn < r then 1 else 0)
    decreases q, r
  {
    MulNonNegative(q, m);
    if r > 0 {
      TurnsInRounds(q, r - 1, m, turn);
      DivModUnique(q, r - 1, m);
    } else if q > 0 {
      TurnsInRounds(q - 1, m - 1, m, turn);
      DivModUnique(q - 1, m - 1, m);
      MulDistributes(q - 1, 1, m);
    }
  }

  lemma DivMod(n: nat, m: nat) returns (q: nat, r: nat)
    requires m > 0
    ensures q == n / m && r == n % m && r < m && q * m + r == n
  {
    q, r := n / m, n % m;
  }

  lemma TurnsShare(n: nat, m: nat, turn: nat)
    requires turn < m
    ensures Turns(n, m, turn) == n / m + (if turn < n % m then 1 else 0)
    ensures n / m <= Turns(n, m, turn) <= CeilDiv(n, m)
  {
    var q, r := DivMod(n, m);
    TurnsInRounds(q, r, m, turn);
  }

  /** The quotient, rounded up. */
  function CeilDiv(n: nat, m: nat): nat
    requires m > 0
  {
    n / m + (if n % m == 0 then 0 else 1)
  }

  /** Every `m` consecutive counts include a multiple of `m`. */
  lemma MultipleWithin(k: nat, m: nat) returns (i: nat)
    requires m > 0
    ensures k <= i < k + m && i % m == 0
  {
    var q, r := DivMod(k, m);
    if r == 0 {
      i := k;
    } else {
      i := k - r + m;
      MulDistributes(q, 1, m);
      DivModUnique(q + 1, 0, m);
    }
  }
}
