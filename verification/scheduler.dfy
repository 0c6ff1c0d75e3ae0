/** The round-robin stepping of processors in sim.cc. */
module Scheduler {
  import opened Bits

  const INTERLEAVE: nat := 5000
  const INSNS_PER_RTC_TICK: nat := 100

  function Clamp(v: int, hi: nat): (r: nat)
    ensures r <= hi
  {
    if v < 0 then 0 else if v > hi then hi else v
  }

  /** What processor k of n has been given after `total` steps. */
  function Given(k: nat, total: nat, n: nat): nat
    requires n > 0
  {
    QuotientNat(total, INTERLEAVE * n);
    total / (INTERLEAVE * n) * INTERLEAVE + Clamp(total % (INTERLEAVE * n) - INTERLEAVE * k, INTERLEAVE)
  }

  /** The turn that is on after `total` steps, and the processor whose turn it is. */
  function Turn(total: nat): nat { total / INTERLEAVE }
  function Processor(total: nat, n: nat): nat
    requires n > 0
  {
    Turn(total) % n
  }

  /** In terms of complete rounds r, complete turns c of this round and steps s of this turn. */
  lemma Rounds(total: nat, n: nat, r: nat, c: nat, s: nat)
    requires n > 0 && c < n && s < INTERLEAVE && total == (r * n + c) * INTERLEAVE + s
    ensures total / (INTERLEAVE * n) == r && total % (INTERLEAVE * n) == c * INTERLEAVE + s
    ensures Turn(total) == r * n + c && Processor(total, n) == c && total % INTERLEAVE == s
    ensures forall k: nat :: Given(k, total, n) ==
              r * INTERLEAVE + if k < c then INTERLEAVE else if k == c then s else 0
  {
    assert total == r * (INTERLEAVE * n) + (c * INTERLEAVE + s);
    assert c * INTERLEAVE + s < INTERLEAVE * n;
    DivMod(total, INTERLEAVE * n, r, c * INTERLEAVE + s);
    DivMod(total, INTERLEAVE, r * n + c, s);
    DivMod(r * n + c, n, r, c);
  }

  lemma RoundsOf(total: nat, n: nat) returns (r: nat, c: nat, s: nat)
    requires n > 0
    ensures c < n && s < INTERLEAVE && total == (r * n + c) * INTERLEAVE + s
  {
    QuotientNat(total, INTERLEAVE);
    var t := total / INTERLEAVE;
    QuotientNat(t, n);
    r, c, s := t / n, t % n, total % INTERLEAVE;
    assert t == n * (t / n) + t % n;
  }

  /** Nobody is ahead of anybody by more than one turn. */
  lemma Fair(j: nat, k: nat, total: nat, n: nat)
    requires n > 0 && j < n && k < n
    ensures Given(j, total, n) <= Given(k, total, n) + INTERLEAVE
  {
    var r, c, s := RoundsOf(total, n);
    Rounds(total, n, r, c, s);
    hide Given;
  }

  function SumGiven(k: nat, total: nat, n: nat): nat
    requires n > 0
  {
    if k == 0 then 0 else SumGiven(k - 1, total, n) + Given(k - 1, total, n)
  }

  lemma {:induction false} SumOfRounds(k: nat, total: nat, n: nat, r: nat, c: nat, s: nat)
    requires n > 0 && c < n && s < INTERLEAVE && total == (r * n + c) * INTERLEAVE + s
    ensures SumGiven(k, total, n) == k * r * INTERLEAVE + (if k <= c then k * INTERLEAVE else c * INTERLEAVE + s)
  {
    if k > 0 {
      SumOfRounds(k - 1, total, n, r, c, s);
      Rounds(total, n, r, c, s);
      hide Given;
      assert (k - 1) * r * INTERLEAVE + r * INTERLEAVE == k * r * INTERLEAVE;
    }
  }

  /** All steps are given to somebody. */
  lemma AllGiven(total: nat, n: nat)
    requires n > 0
    ensures SumGiven(n, total, n) == total
  {
    var r, c, s := RoundsOf(total, n);
    SumOfRounds(n, total, n, r, c, s);
    hide SumGiven;
    assert (r * n + c) * INTERLEAVE == n * r * INTERLEAVE + c * INTERLEAVE;
  }

  class Sim {
    var given: array<nat>
    var currentStep: nat
    var currentProc: nat
    var mtime: nat
    ghost var total: nat

    ghost predicate Valid()
      reads this, given
    {
      && given.Length > 0 && currentStep == total % INTERLEAVE && currentProc == Processor(total, given.Length)
      && mtime == total / (INTERLEAVE * given.Length) * (INTERLEAVE / INSNS_PER_RTC_TICK)
      && forall k :: 0 <= k < given.Length ==> given[k] == Given(k, total, given.Length)
    }

    constructor (n: nat)
      requires n > 0
      ensures Valid() && fresh(given) && given.Length == n && total == 0
    {
      given := new nat[n](_ => 0);
      currentStep, currentProc, mtime, total := 0, 0, 0, 0;
      new;
      Rounds(0, n, 0, 0, 0);
    }

    /** After any calls with `total` steps in all, each processor has its share and the clock is 50 ticks
        further for each complete round. */
    method Step(n: nat)
      requires Valid()
      modifies this, given
      ensures Valid() && total == old(total) + n && given == old(given)
    {
      var i, steps := 0, 0;
      while i < n
        invariant i <= n && Valid() && total == old(total) + i && given == old(given)
        decreases n - i
      {
        steps := Once(n - i);
        i := i + steps;
      }
    }

    /** One pass of the loop, for at least one and at most `left` steps. */
    method Once(left: nat) returns (steps: nat)
      requires Valid() && left > 0
      modifies this, given
      ensures Valid() && 0 < steps <= left && total == old(total) + steps && given == old(given)
    {
      ghost var r, c, s := RoundsOf(total, given.Length);
      Rounds(total, given.Length, r, c, s);
      steps := if left < INTERLEAVE - currentStep then left else INTERLEAVE - currentStep;
      Advanced(total, given.Length, r, c, s, steps);
      hide Given, Processor, Turn;
      given[currentProc] := given[currentProc] + steps;
      currentStep := currentStep + steps;
      if currentStep == INTERLEAVE {
        currentStep := 0;
        currentProc := currentProc + 1;
        if currentProc == given.Length {
          currentProc := 0;
          mtime := mtime + INTERLEAVE / INSNS_PER_RTC_TICK;
        }
      }
      total := total + steps;
    }
  }

  lemma Advanced(total: nat, n: nat, r: nat, c: nat, s: nat, steps: nat)
    requires n > 0 && c < n && s < INTERLEAVE && total == (r * n + c) * INTERLEAVE + s && s + steps <= INTERLEAVE
    ensures var t := total + steps; var full := s + steps == INTERLEAVE; var last := full && c + 1 == n;
            && t % INTERLEAVE == (if full then 0 else s + steps)
            && Processor(t, n) == (if last then 0 else if full then c + 1 else c)
            && t / (INTERLEAVE * n) == (if last then r + 1 else r)
            && forall k: nat :: k < n ==> Given(k, t, n) == Given(k, total, n) + if k == c then steps else 0
  {
    Rounds(total, n, r, c, s);
    if s + steps < INTERLEAVE {
      Rounds(total + steps, n, r, c, s + steps);
    } else if c + 1 < n {
      Rounds(total + steps, n, r, c + 1, 0);
    } else {
      assert r * n + c + 1 == (r + 1) * n;
      Rounds(total + steps, n, r + 1, 0, 0);
    }
    hide Given;
  }
}
