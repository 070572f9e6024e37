/** The three possible round results, as on the Banker / Player / Tie buttons,
    and the per-outcome probability maps every model produces. */
module Outcomes {

  datatype Outcome = B | P | T

  /** The whole alphabet; every `map<Outcome, _>` has its keys in it. */
  const Alphabet: set<Outcome> := {B, P, T}

  /** Every outcome is in the alphabet. */
  lemma InAlphabet(o: Outcome)
    ensures o in Alphabet
  {
    match o
    case B =>
    case P =>
    case T =>
  }

  /** A predictor's answer: a share of probability per outcome it knows about.
      An outcome absent from the map contributes nothing. */
  type Distribution = map<Outcome, real>

  /** The value of `o` in `m`, with a missing key read as 0 (pandas' `fill_value=0`). */
  function Get(m: Distribution, o: Outcome): (v: real)
    ensures o in m ==> v == m[o]
    ensures o !in m ==> v == 0.0
  {
    if o in m then m[o] else 0.0
  }

  /** Total probability mass of `m`: the sum of its values, since every key is one of B, P, T. */
  function Mass(m: Distribution): real
  {
    Get(m, B) + Get(m, P) + Get(m, T)
  }

  /** Every entry is a share in [0, 1] and the shares add up to 1. */
  ghost predicate IsDistribution(m: Distribution)
  {
    && (forall o | o in m :: 0.0 <= m[o] <= 1.0)
    && Mass(m) == 1.0
  }

  /** A model's lookup either has no data (`map[]`) or is a proper distribution. */
  ghost predicate EmptyOrDistribution(m: Distribution)
  {
    m == map[] || IsDistribution(m)
  }

  /** One share `count / total` of a positive total that covers the count is in [0, 1]. */
  lemma ShareBounds(c: nat, total: nat)
    requires c <= total && total > 0
    ensures 0.0 <= (c as real) / (total as real) <= 1.0
  {
    var t := total as real;
    var q := (c as real) / t;
    assert q * t == c as real;
  }

  /** Shares `count(o) / total` over three counts that add up to `total` are each
      in [0, 1] and add up to 1: normalising a counter never divides by zero and
      never loses or invents mass. */
  lemma SharesOfCounts(cb: nat, cp: nat, ct: nat, total: nat)
    requires total == cb + cp + ct && total > 0
    ensures 0.0 <= (cb as real) / (total as real) <= 1.0
    ensures 0.0 <= (cp as real) / (total as real) <= 1.0
    ensures 0.0 <= (ct as real) / (total as real) <= 1.0
    ensures (cb as real) / (total as real) + (cp as real) / (total as real)
            + (ct as real) / (total as real) == 1.0
  {
    ShareBounds(cb, total);
    ShareBounds(cp, total);
    ShareBounds(ct, total);
    var t := total as real;
    var x, y, z := (cb as real) / t, (cp as real) / t, (ct as real) / t;
    assert x * t == cb as real && y * t == cp as real && z * t == ct as real;
    calc {
      (x + y + z) * t;
      x * t + y * t + z * t;
      (cb as real) + (cp as real) + (ct as real);
      t;
    }
  }
}
