/** The application's session state: the history entered so far, the scoring
    counters, and the prediction shown for the next round. The window and its labels
    are not part of the model. */
module Session {
  import opened Outcomes
  import opened Combiner

  /** Rounds up to this many are never scored. */
  const WarmUp: nat := 20
  /** A correct prediction at or above this probability counts as a confident hit. */
  const HighConfidence: real := 0.8
  /** A prediction above this probability counts as a high-probability round. */
  const HighProbability: real := 0.75

  datatype Option<T> = None | Some(value: T)

  /** The top line of the prediction for a history: the most likely outcome and its
      probability, or nothing when there is no prediction. */
  function Best(s: seq<Outcome>): Option<Entry>
  {
    var r := Forecast(s);
    if r == [] then None else Some(r[0])
  }

  /** There is a top line exactly when there is a prediction: the history has at
      least `MinHistory` outcomes and its last outcome occurred before. The top line
      is one of the predicted entries, no entry is more likely, and its probability
      lies in [0, 1]. */
  lemma BestIsTop(s: seq<Outcome>)
    ensures Best(s) == None <==> |s| < MinHistory || forall i | 0 <= i < |s| - 1 :: s[i] != s[|s| - 1]
    ensures Best(s).Some? ==> Best(s).value in Forecast(s)
    ensures Best(s).Some? ==> forall e | e in Forecast(s) :: e.prob <= Best(s).value.prob
    ensures Best(s).Some? ==> 0.0 <= Best(s).value.prob <= 1.0
  {
    ForecastEmpty(s);
    ForecastBounds(s);
  }

  /** The outcome the session predicts after history `s`. */
  function PredictionAfter(s: seq<Outcome>): Option<Outcome>
  {
    match Best(s)
    case None => None
    case Some(e) => Some(e.outcome)
  }

  /** The probability the session shows for its prediction after history `s`. */
  function ProbAfter(s: seq<Outcome>): Option<real>
  {
    match Best(s)
    case None => None
    case Some(e) => Some(e.prob)
  }

  /** The session shows a prediction and a probability exactly when the predictor
      returns a non-empty ranking; what it shows is one of the ranked entries, and no
      entry is more likely. */
  lemma PredictionShown(s: seq<Outcome>)
    ensures PredictionAfter(s) == None <==> Forecast(s) == []
    ensures ProbAfter(s) == None <==> Forecast(s) == []
    ensures PredictionAfter(s).Some? ==>
      && Entry(PredictionAfter(s).value, ProbAfter(s).value) in Forecast(s)
      && forall e | e in Forecast(s) :: e.prob <= ProbAfter(s).value
  {
    BestIsTop(s);
  }

  /** How many of `n` rounds are past the warm-up and so can be scored. */
  function Scored(n: nat): nat
  {
    if n > WarmUp then n - WarmUp else 0
  }

  class Predictor {
    var sequence: seq<Outcome>
    var totalCorrect: nat
    var correctHighConf: nat
    var highProbCount: nat
    var lastPrediction: Option<Outcome>
    var lastProb: Option<real>

    /** Counters never exceed the rounds that could be scored, confident hits are
        hits, and a prediction is stored together with its probability. */
    ghost predicate Valid()
      reads this
    {
      && correctHighConf <= totalCorrect <= Scored(|sequence|)
      && highProbCount <= Scored(|sequence|)
      && (lastPrediction.Some? <==> lastProb.Some?)
    }

    /** The stored prediction is the one for the current history. */
    ghost predicate Shown()
      reads this`sequence, this`lastPrediction, this`lastProb
    {
      lastPrediction == PredictionAfter(sequence) && lastProb == ProbAfter(sequence)
    }

    /** A fresh session: empty history, zero counters, no prediction. */
    constructor ()
      ensures Valid() && Shown()
      ensures sequence == [] && totalCorrect == 0 && correctHighConf == 0 && highProbCount == 0
      ensures lastPrediction == None && lastProb == None
    {
      sequence := [];
      totalCorrect := 0;
      correctHighConf := 0;
      highProbCount := 0;
      lastPrediction := None;
      lastProb := None;
    }

    /** Recomputes the prediction for the current history (`atualizar_previsao`). */
    method UpdatePrediction()
      requires Valid()
      modifies this`lastPrediction, this`lastProb
      ensures Valid() && Shown()
      ensures lastPrediction.Some? <==> lastProb.Some?
    {
      var r := Predict(sequence);
      if r != [] {
        lastPrediction := Some(r[0].outcome);
        lastProb := Some(r[0].prob);
      } else {
        lastPrediction := None;
        lastProb := None;
      }
    }

    /** Scores the round that brought the history to `rounds` outcomes against the
        prediction shown before it: past the warm-up, a hit counts, and it also counts
        as confident when the shown probability was non-zero (truthy) and at least
        `HighConfidence`. */
    method ScoreRound(r: Outcome, rounds: nat)
      requires rounds == |sequence|
      modifies this`totalCorrect, this`correctHighConf
      ensures var hit := rounds > WarmUp && lastPrediction == Some(r);
        && totalCorrect == old(totalCorrect) + (if hit then 1 else 0)
        && correctHighConf == old(correctHighConf) +
             (if hit && lastProb.Some? && lastProb.value >= HighConfidence then 1 else 0)
    {
      if rounds > WarmUp && lastPrediction.Some? {
        if r == lastPrediction.value {
          totalCorrect := totalCorrect + 1;
          if lastProb.Some? && lastProb.value != 0.0 && lastProb.value >= HighConfidence {
            correctHighConf := correctHighConf + 1;
          }
        }
      }
    }

    /** Past the warm-up, counts a newly shown prediction above `HighProbability`. */
    method CountHighProbability(rounds: nat)
      requires rounds == |sequence|
      modifies this`highProbCount
      ensures highProbCount == old(highProbCount) +
        (if rounds > WarmUp && lastProb.Some? && lastProb.value > HighProbability then 1 else 0)
    {
      if rounds > WarmUp && lastProb.Some? && lastProb.value > HighProbability {
        highProbCount := highProbCount + 1;
      }
    }

    /** Records the outcome of a round (`adicionar_resultado`): past the warm-up, a
        hit of the previous prediction is scored (and also as confident when its
        probability was at least `HighConfidence`); then the prediction is renewed,
        and past the warm-up a new prediction above `HighProbability` is counted. */
    method AddResult(r: Outcome)
      requires Valid()
      modifies this
      ensures Valid() && Shown()
      ensures sequence == old(sequence) + [r]
      ensures var hit := |sequence| > WarmUp && old(lastPrediction) == Some(r);
        && totalCorrect == old(totalCorrect) + (if hit then 1 else 0)
        && correctHighConf == old(correctHighConf) +
             (if hit && old(lastProb).Some? && old(lastProb).value >= HighConfidence then 1 else 0)
      ensures highProbCount == old(highProbCount) +
        (if |sequence| > WarmUp && lastProb.Some? && lastProb.value > HighProbability then 1 else 0)
    {
      sequence := sequence + [r];
      var rounds := |sequence|;
      ScoreRound(r, rounds);
      UpdatePrediction();
      CountHighProbability(rounds);
    }
  }
}
