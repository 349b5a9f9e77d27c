/**
 * Schrödinger's box: a particle in superposition is observed, which fixes
 * its spin up or down and counts the outcome; resetting puts it back in
 * superposition. After ten observations the experiment is complete and both
 * buttons are disabled.
 */
module SchrodingersBox {
  datatype QuantumState = Superposition | Up | Down

  const MaxObservations: nat := 10

  /** `Math.random() > 0.5 ? 'up' : 'down'` for the drawn number `r`. */
  function Outcome(r: real): (s: QuantumState)
    ensures s != Superposition
    ensures s == Up <==> r > 0.5
  {
    if r > 0.5 then Up else Down
  }

  // ---------------------------------------------------------------------
  // the buttons

  predicate ObserveDisabled(state: QuantumState, isComplete: bool)
  {
    state != Superposition || isComplete
  }

  predicate ResetDisabled(state: QuantumState, isComplete: bool)
  {
    state == Superposition || isComplete
  }

  /** Before completion exactly one of the two buttons can be pressed; after it, neither. */
  lemma ExactlyOneButton(state: QuantumState, isComplete: bool)
    ensures !isComplete ==> (ObserveDisabled(state, isComplete) <==> !ResetDisabled(state, isComplete))
    ensures isComplete ==> ObserveDisabled(state, isComplete) && ResetDisabled(state, isComplete)
  {
  }

  // ---------------------------------------------------------------------
  // the percentages

  /** `Math.round((count / total) * 100)` over exact rationals: round half up. */
  function RoundedShare(count: nat, total: nat): (p: nat)
    requires 0 < total && count <= total
    ensures p <= 100
    ensures 2 * total * p <= 200 * count + total < 2 * total * (p + 1)
  {
    var n := 200 * count + total;
    var d := 2 * total;
    DivBounds(n, d);
    assert n < d * 101;
    MulCancelLt(d, n / d, 101);
    n / d
  }

  /** The two bars: 50/50 before any observation, otherwise each outcome's rounded share. */
  function Percentages(up: nat, down: nat): (r: (nat, nat))
    ensures up + down == 0 ==> r == (50, 50)
    ensures r.0 <= 100 && r.1 <= 100
  {
    var total := up + down;
    if total == 0 then (50, 50) else (RoundedShare(up, total), RoundedShare(down, total))
  }

  /** The two shares add up to 100, or to 101 when both land exactly on a half. */
  lemma PercentagesSum(up: nat, down: nat)
    ensures var r := Percentages(up, down); r.0 + r.1 == 100 || r.0 + r.1 == 101
  {
    var total := up + down;
    if total > 0 {
      var p := RoundedShare(up, total);
      var q := RoundedShare(down, total);
      var d := 2 * total;
      assert d * p + d * q == d * (p + q);
      assert d * (p + 1) + d * (q + 1) == d * (p + q + 2);
      assert d * (p + q) <= d * 101 < d * (p + q + 2);
      MulCancelLt(d, p + q, 102);
      MulCancelLt(d, 101, p + q + 2);
    }
  }

  /** One up in eight gives 13% and 88%: the rounding can make the bars add up to 101. */
  lemma HalfRoundsUp()
    ensures Percentages(1, 7) == (13, 88)
  {
    assert RoundedShare(1, 8) == 216 / 16 == 13;
    assert RoundedShare(7, 8) == 1408 / 16 == 88;
  }

  /** Equal counts show 50/50, and more ups never show fewer up percent than down percent. */
  lemma PercentagesOrdered(up: nat, down: nat)
    requires up + down > 0
    ensures up == down ==> Percentages(up, down) == (50, 50)
    ensures up >= down ==> Percentages(up, down).0 >= Percentages(up, down).1
  {
    var total := up + down;
    var d := 2 * total;
    var p := RoundedShare(up, total);
    var q := RoundedShare(down, total);
    if up == down {
      assert d * p <= 101 * total < d * (p + 1);
      assert d * 51 == 102 * total && d * 50 == 100 * total;
      MulCancelLt(d, p, 51);
      MulCancelLt(d, 50, p + 1);
    }
    if up >= down {
      assert d * q <= 200 * down + total <= 200 * up + total < d * (p + 1);
      MulCancelLt(d, q, p + 1);
    }
  }

  lemma MulMono(d: nat, a: nat, b: nat)
    requires a <= b
    ensures d * a <= d * b
  {
  }

  lemma MulCancelLt(d: nat, a: nat, b: nat)
    requires d > 0 && d * a < d * b
    ensures a < b
  {
    if a >= b {
      MulMono(d, b, a);
    }
  }

  lemma DivBounds(n: nat, d: nat)
    requires d > 0
    ensures d * (n / d) <= n < d * (n / d + 1)
  {
  }

  // ---------------------------------------------------------------------
  // the component's state

  class Box {
    var particleState: QuantumState
    var up: nat
    var down: nat
    var isComplete: bool

    /** The experiment stops at ten observations, and is complete exactly then. */
    ghost predicate Valid()
      reads this
    {
      up + down <= MaxObservations && (isComplete <==> up + down == MaxObservations)
    }

    constructor ()
      ensures Valid()
      ensures particleState == Superposition && up == 0 && down == 0 && !isComplete
    {
      particleState := Superposition;
      up := 0;
      down := 0;
      isComplete := false;
    }

    /**
     * `observeParticle`: only a particle in superposition can be observed, and only before
     * completion; `r` is the random number drawn.
     */
    method Observe(r: real)
      requires Valid()
      modifies this
      ensures Valid()
      ensures ObserveDisabled(old(particleState), old(isComplete)) ==>
        particleState == old(particleState) && up == old(up) && down == old(down) && isComplete == old(isComplete)
      ensures !ObserveDisabled(old(particleState), old(isComplete)) ==>
        particleState == Outcome(r)
        && up == old(up) + (if Outcome(r) == Up then 1 else 0)
        && down == old(down) + (if Outcome(r) == Down then 1 else 0)
        && isComplete == (up + down >= MaxObservations)
    {
      if particleState != Superposition || isComplete {
        return;
      }
      var result := Outcome(r);
      particleState := result;
      if result == Up {
        up := up + 1;
      } else {
        down := down + 1;
      }
      if up + down >= MaxObservations && !isComplete {
        isComplete := true;
      }
    }

    /** `resetState`: back to superposition, unless the experiment is complete. */
    method Reset()
      requires Valid()
      modifies this`particleState
      ensures Valid()
      ensures particleState == if isComplete then old(particleState) else Superposition
    {
      if !isComplete {
        particleState := Superposition;
      }
    }
  }
}
