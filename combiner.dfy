/** The combined predictor: the three models' answers for the current history, blended
    with fixed weights and ranked by probability. */
module Combiner {
  import opened Outcomes
  import opened Counting
  import opened Counters
  import OrderOne
  import OrderTwo
  import Blocks

  /** Fewer outcomes than this and the predictor gives no prediction at all. */
  const MinHistory: nat := 4

  /** Blend weights of the order-1, order-2 and block models. */
  const Weight1: real := 0.2
  const Weight2: real := 0.4
  const Weight3: real := 0.4

  /** The weighted sum of the three answers over every outcome that any of them
      mentions; an answer without an outcome contributes 0 for it, and the sum is not
      renormalised. */
  function Blend(p1: Distribution, p2: Distribution, p3: Distribution): Distribution
  {
    map o | o in p1.Keys + p2.Keys + p3.Keys :: Weight1 * Get(p1, o) + Weight2 * Get(p2, o) + Weight3 * Get(p3, o)
  }

  /** Blending answers that are each either empty or a distribution gives a value in
      [0, 1] for every outcome any of them mentions, and total mass equal to the
      weighted sum of their masses, hence at most 1 (less when some model has no
      data). */
  lemma BlendBounds(p1: Distribution, p2: Distribution, p3: Distribution)
    requires EmptyOrDistribution(p1) && EmptyOrDistribution(p2) && EmptyOrDistribution(p3)
    ensures Blend(p1, p2, p3).Keys == p1.Keys + p2.Keys + p3.Keys
    ensures forall o | o in Blend(p1, p2, p3) :: 0.0 <= Blend(p1, p2, p3)[o] <= 1.0
    ensures Mass(Blend(p1, p2, p3)) == Weight1 * Mass(p1) + Weight2 * Mass(p2) + Weight3 * Mass(p3)
    ensures Mass(Blend(p1, p2, p3)) <= 1.0
    ensures Mass(Blend(p1, p2, p3)) == 1.0 <==> p1 != map[] && p2 != map[] && p3 != map[]
  {
    var m := Blend(p1, p2, p3);
    forall o ensures Get(m, o) == Weight1 * Get(p1, o) + Weight2 * Get(p2, o) + Weight3 * Get(p3, o)
    {
    }
    forall o ensures 0.0 <= Get(p1, o) <= 1.0 && 0.0 <= Get(p2, o) <= 1.0 && 0.0 <= Get(p3, o) <= 1.0 {
    }
    assert Mass(p1) == (if p1 == map[] then 0.0 else 1.0);
    assert Mass(p2) == (if p2 == map[] then 0.0 else 1.0);
    assert Mass(p3) == (if p3 == map[] then 0.0 else 1.0);
  }

  /** One line of the ranked answer. */
  datatype Entry = Entry(outcome: Outcome, prob: real)

  /** The ranked answer of the predictor: outcomes with their blended probabilities. */
  type Ranking = seq<Entry>

  /** Probabilities never increase along the ranking. */
  predicate NonIncreasing(r: Ranking)
  {
    forall i, j | 0 <= i < j < |r| :: r[i].prob >= r[j].prob
  }

  /** Each entry's probability is at least the next one's. */
  predicate Sorted(r: Ranking)
  {
    forall i | 0 <= i < |r| - 1 :: r[i].prob >= r[i + 1].prob
  }

  /** Comparing neighbours is enough: a sorted ranking is non-increasing throughout. */
  lemma {:induction false} SortedNonIncreasing(r: Ranking)
    requires Sorted(r)
    ensures NonIncreasing(r)
  {
    if r != [] {
      SortedNonIncreasing(r[1..]);
      forall j | 0 < j < |r| ensures r[0].prob >= r[j].prob {
        var k := j;
        while k > 1
          invariant 1 <= k <= j
          invariant r[k].prob >= r[j].prob
        {
          k := k - 1;
        }
      }
    }
  }

  /** No outcome is listed twice. */
  predicate DistinctOutcomes(r: Ranking)
  {
    forall i, j | 0 <= i < j < |r| :: r[i].outcome != r[j].outcome
  }

  /** The sum of the probabilities listed. */
  function TotalProb(r: Ranking): real
  {
    if r == [] then 0.0 else r[0].prob + TotalProb(r[1..])
  }

  /** Inserts an entry before the first entry of strictly smaller probability. */
  function Insert(e: Entry, r: Ranking): (r': Ranking)
    ensures |r'| == |r| + 1
    ensures forall x :: x in r' <==> x == e || x in r
    ensures r'[0] == e || (r != [] && r'[0] == r[0])
    ensures TotalProb(r') == e.prob + TotalProb(r)
  {
    if r == [] || e.prob >= r[0].prob then
      [e] + r
    else
      var rest := Insert(e, r[1..]);
      assert r == [r[0]] + r[1..];
      [r[0]] + rest
  }

  /** Insertion keeps a sorted ranking sorted. */
  lemma {:induction false} InsertSorted(e: Entry, r: Ranking)
    requires Sorted(r)
    ensures Sorted(Insert(e, r))
  {
    if r != [] && e.prob < r[0].prob {
      InsertSorted(e, r[1..]);
      var rest := Insert(e, r[1..]);
      assert Insert(e, r) == [r[0]] + rest;
    }
  }

  /** Inserting an entry whose outcome is not yet listed keeps outcomes distinct. */
  lemma {:induction false} InsertDistinct(e: Entry, r: Ranking)
    requires DistinctOutcomes(r)
    requires forall x | x in r :: x.outcome != e.outcome
    ensures DistinctOutcomes(Insert(e, r))
  {
    if r != [] && e.prob < r[0].prob {
      assert forall x | x in r[1..] :: x in r;
      InsertDistinct(e, r[1..]);
      var rest := Insert(e, r[1..]);
      var r' := [r[0]] + rest;
      assert Insert(e, r) == r';
      forall i, j | 0 <= i < j < |r'| ensures r'[i].outcome != r'[j].outcome {
        if i == 0 {
          assert r'[j] in rest;
          if r'[j] != e {
            var k :| 0 <= k < |r[1..]| && r[1..][k] == r'[j];
            assert r[k + 1] == r'[j];
          }
        }
      }
    }
  }

  /** Sum of the values of `m` at the outcomes listed in `os`. */
  function MassOver(m: Distribution, os: seq<Outcome>): real
  {
    if os == [] then 0.0 else Get(m, os[0]) + MassOver(m, os[1..])
  }

  /** The entries of `m` for the outcomes in `os`, ranked by insertion. */
  function RankFrom(m: Distribution, os: seq<Outcome>): (r: Ranking)
    requires forall i, j | 0 <= i < j < |os| :: os[i] != os[j]
    ensures Sorted(r) && DistinctOutcomes(r)
    ensures forall x :: x in r <==> x.outcome in os && x.outcome in m && x.prob == m[x.outcome]
    ensures TotalProb(r) == MassOver(m, os)
  {
    if os == [] then []
    else
      var rest := RankFrom(m, os[1..]);
      if os[0] in m then
        assert forall x | x in rest :: x.outcome != os[0] by {
          forall x | x in rest ensures x.outcome != os[0] {
            var k :| 1 <= k < |os| && os[k] == x.outcome;
          }
        }
        InsertSorted(Entry(os[0], m[os[0]]), rest);
        InsertDistinct(Entry(os[0], m[os[0]]), rest);
        Insert(Entry(os[0], m[os[0]]), rest)
      else
        rest
  }

  /** The answer as a ranking in descending order of probability, every entry of the
      map exactly once; ties keep the order B, P, T. */
  function Ranked(m: Distribution): (r: Ranking)
    ensures NonIncreasing(r) && DistinctOutcomes(r)
    ensures forall x :: x in r <==> x.outcome in m && x.prob == m[x.outcome]
    ensures TotalProb(r) == Mass(m)
  {
    var os := [B, P, T];
    forall o ensures o in os { InAlphabet(o); }
    assert os[1..] == [P, T] && os[1..][1..] == [T] && os[1..][1..][1..] == [];
    assert MassOver(m, [T]) == Get(m, T);
    assert MassOver(m, [P, T]) == Get(m, P) + Get(m, T);
    SortedNonIncreasing(RankFrom(m, os));
    RankFrom(m, os)
  }

  /** The outcomes listed in a ranking. */
  function OutcomesOf(r: Ranking): set<Outcome>
  {
    set e | e in r :: e.outcome
  }

  /** A ranking lists exactly the outcomes of the map it ranks; in particular it is
      empty exactly when the map is. */
  lemma RankedOutcomes(m: Distribution)
    ensures OutcomesOf(Ranked(m)) == m.Keys
    ensures Ranked(m) == [] <==> m == map[]
  {
    var r := Ranked(m);
    forall o | o in m ensures o in OutcomesOf(r) {
      assert Entry(o, m[o]) in r;
    }
  }

  /** The order-1 model's answer for the last outcome. */
  function OrderOneAnswer(s: seq<Outcome>): Distribution
    requires |s| >= 1
  {
    Lookup(OrderOne.Matrix(s), s[|s| - 1])
  }

  /** The order-2 model's answer for the last two outcomes. */
  function OrderTwoAnswer(s: seq<Outcome>): Distribution
    requires |s| >= 2
  {
    Lookup(OrderTwo.Matrix(s), (s[|s| - 2], s[|s| - 1]))
  }

  /** The final prediction for a history: nothing below `MinHistory` outcomes,
      otherwise the blend of the three answers, ranked. */
  function Forecast(s: seq<Outcome>): Ranking
  {
    if |s| < MinHistory then []
    else Ranked(Blend(OrderOneAnswer(s), OrderTwoAnswer(s), Blocks.BlockPrediction(s)))
  }

  /** Runs the three models on the history and ranks their blend (`previsao_final`). */
  method Predict(s: seq<Outcome>) returns (r: Ranking)
    ensures r == Forecast(s)
  {
    if |s| < MinHistory {
      return [];
    }
    var order1 := OrderOne.TransitionMatrix(s);
    var order2 := OrderTwo.TransitionMatrix(s);
    var pBlocks := Blocks.PredictByBlocks(s);
    var last, pair := s[|s| - 1], (s[|s| - 2], s[|s| - 1]);
    var p1 := if last in order1 then order1[last] else map[];
    var p2 := if pair in order2 then order2[pair] else map[];
    r := Ranked(Blend(p1, p2, pBlocks));
  }

  /** Reference definition of a model's answer in terms of counts: how often `c`
      followed the context `w`, over how often `w` was followed at all (0 when it
      never was). */
  function Frequency(s: seq<Outcome>, w: seq<Outcome>, c: Outcome): real
  {
    if ContextCount(s, w) == 0 then 0.0 else (Occ(s, w + [c]) as real) / (ContextCount(s, w) as real)
  }

  /** The order-1 answer is empty exactly when the last outcome was never seen as a
      predecessor, which is when it never occurred before the end. */
  lemma OrderOneEmpty(s: seq<Outcome>)
    requires |s| >= 1
    ensures OrderOneAnswer(s) == map[] <==> ContextCount(s, [s[|s| - 1]]) == 0
    ensures OrderOneAnswer(s) == map[] <==> forall i | 0 <= i < |s| - 1 :: s[i] != s[|s| - 1]
  {
    OrderOne.MatrixColumn(s, s[|s| - 1]);
  }

  /** The order-1 answer is empty or a distribution giving each outcome its frequency
      after the last outcome. */
  lemma OrderOneFrequencies(s: seq<Outcome>)
    requires |s| >= 1
    ensures EmptyOrDistribution(OrderOneAnswer(s))
    ensures forall c :: Get(OrderOneAnswer(s), c) == Frequency(s, [s[|s| - 1]], c)
  {
    var a := s[|s| - 1];
    OrderOne.MatrixColumn(s, a);
    forall c ensures [a] + [c] == [a, c] { }
  }

  /** The order-2 answer is empty exactly when the trailing pair was never seen as a
      context. */
  lemma OrderTwoEmpty(s: seq<Outcome>)
    requires |s| >= 2
    ensures OrderTwoAnswer(s) == map[] <==> ContextCount(s, [s[|s| - 2], s[|s| - 1]]) == 0
  {
    OrderTwo.MatrixRow(s, s[|s| - 2], s[|s| - 1]);
  }

  /** The order-2 answer is empty or a distribution giving each outcome its frequency
      after the trailing pair. */
  lemma OrderTwoFrequencies(s: seq<Outcome>)
    requires |s| >= 2
    ensures EmptyOrDistribution(OrderTwoAnswer(s))
    ensures forall c :: Get(OrderTwoAnswer(s), c) == Frequency(s, [s[|s| - 2], s[|s| - 1]], c)
  {
    var a, b := s[|s| - 1], s[|s| - 2];
    OrderTwo.MatrixRow(s, b, a);
    forall c ensures [b, a] + [c] == [b, a, c] { }
  }

  /** The block answer is empty or a distribution giving each outcome its frequency
      after the trailing window. */
  lemma BlockFrequencies(s: seq<Outcome>)
    requires |s| >= MinHistory
    ensures EmptyOrDistribution(Blocks.BlockPrediction(s))
    ensures forall c :: Get(Blocks.BlockPrediction(s), c) == Frequency(s, Blocks.LastBlock(s), c)
  {
    Blocks.BlockPredictionEmpty(s);
    if ContextCount(s, Blocks.LastBlock(s)) > 0 {
      Blocks.BlockPredictionShares(s);
    }
  }

  /** Each of the three answers is empty or a distribution, and each one's value for
      an outcome is that outcome's frequency after the model's context. */
  lemma AnswersAreFrequencies(s: seq<Outcome>)
    requires |s| >= MinHistory
    ensures var a, b := s[|s| - 1], s[|s| - 2];
      && EmptyOrDistribution(OrderOneAnswer(s))
      && EmptyOrDistribution(OrderTwoAnswer(s))
      && EmptyOrDistribution(Blocks.BlockPrediction(s))
      && (forall c :: Get(OrderOneAnswer(s), c) == Frequency(s, [a], c))
      && (forall c :: Get(OrderTwoAnswer(s), c) == Frequency(s, [b, a], c))
      && (forall c :: Get(Blocks.BlockPrediction(s), c) == Frequency(s, Blocks.LastBlock(s), c))
  {
    OrderOneFrequencies(s);
    OrderTwoFrequencies(s);
    BlockFrequencies(s);
  }

  /** A trailing block seen as a context means a trailing pair seen as one. */
  lemma BlockSeenPairSeen(s: seq<Outcome>)
    requires |s| >= MinHistory
    requires ContextCount(s, Blocks.LastBlock(s)) > 0
    ensures ContextCount(s, [s[|s| - 2], s[|s| - 1]]) > 0
  {
    var n := |s|;
    var w := Blocks.LastBlock(s);
    ContextTail(s, w);
    var t := w[1..];
    assert |t| == 2 && t[0] == s[n - 2] && t[1] == s[n - 1];
    assert t == [s[n - 2], s[n - 1]];
  }

  /** A trailing pair seen as a context means a last outcome seen as one. */
  lemma PairSeenLastSeen(s: seq<Outcome>)
    requires |s| >= 2
    requires ContextCount(s, [s[|s| - 2], s[|s| - 1]]) > 0
    ensures ContextCount(s, [s[|s| - 1]]) > 0
  {
    var w := [s[|s| - 2], s[|s| - 1]];
    ContextTail(s, w);
    assert w[1..] == [s[|s| - 1]];
  }

  /** Each model has data only if the next simpler one has: a seen trailing block
      means a seen trailing pair, which means a seen last outcome. */
  lemma AnswersNested(s: seq<Outcome>)
    requires |s| >= MinHistory
    ensures Blocks.BlockPrediction(s) != map[] ==> OrderTwoAnswer(s) != map[]
    ensures OrderTwoAnswer(s) != map[] ==> OrderOneAnswer(s) != map[]
  {
    OrderOneEmpty(s);
    OrderTwoEmpty(s);
    Blocks.BlockPredictionEmpty(s);
    if ContextCount(s, Blocks.LastBlock(s)) > 0 {
      BlockSeenPairSeen(s);
    }
    if ContextCount(s, [s[|s| - 2], s[|s| - 1]]) > 0 {
      PairSeenLastSeen(s);
    }
  }

  /** The prediction is empty exactly when the history is too short or its last
      outcome never occurred before the end. */
  lemma ForecastEmpty(s: seq<Outcome>)
    ensures Forecast(s) == [] <==> |s| < MinHistory || forall i | 0 <= i < |s| - 1 :: s[i] != s[|s| - 1]
  {
    if |s| >= MinHistory {
      OrderOneEmpty(s);
      AnswersNested(s);
      var m := Blend(OrderOneAnswer(s), OrderTwoAnswer(s), Blocks.BlockPrediction(s));
      assert m == map[] <==> OrderOneAnswer(s) == map[];
      RankedOutcomes(m);
    }
  }

  /** Every predicted probability is the weighted sum of the three count frequencies
      for that outcome. */
  lemma ForecastFromCounts(s: seq<Outcome>)
    requires |s| >= MinHistory
    ensures var a, b := s[|s| - 1], s[|s| - 2];
      forall e | e in Forecast(s) :: e.prob ==
        Weight1 * Frequency(s, [a], e.outcome) + Weight2 * Frequency(s, [b, a], e.outcome)
        + Weight3 * Frequency(s, Blocks.LastBlock(s), e.outcome)
  {
    AnswersAreFrequencies(s);
  }

  /** Every predicted probability lies in [0, 1]; together they add up to at most 1,
      and to exactly 1 when and only when the trailing block was seen before. */
  lemma ForecastBounds(s: seq<Outcome>)
    ensures forall e | e in Forecast(s) :: 0.0 <= e.prob <= 1.0
    ensures TotalProb(Forecast(s)) <= 1.0
    ensures TotalProb(Forecast(s)) == 1.0 <==>
      |s| >= MinHistory && ContextCount(s, Blocks.LastBlock(s)) > 0
  {
    if |s| >= MinHistory {
      AnswersAreFrequencies(s);
      AnswersNested(s);
      Blocks.BlockPredictionEmpty(s);
      BlendBounds(OrderOneAnswer(s), OrderTwoAnswer(s), Blocks.BlockPrediction(s));
    }
  }

  /** When the order-1 model has data, it mentions every outcome seen after the first
      position. */
  lemma OrderOneOutcomes(s: seq<Outcome>)
    requires |s| >= MinHistory && OrderOneAnswer(s) != map[]
    ensures OrderOneAnswer(s).Keys == set i | 1 <= i < |s| :: s[i]
  {
    OrderOne.MatrixColumn(s, s[|s| - 1]);
  }

  /** Every outcome the order-2 model mentions is one the order-1 model mentions. */
  lemma OrderTwoWithinOrderOne(s: seq<Outcome>)
    requires |s| >= MinHistory
    ensures OrderTwoAnswer(s).Keys <= OrderOneAnswer(s).Keys
  {
    if OrderTwoAnswer(s) != map[] {
      OrderTwoEmpty(s);
      PairSeenLastSeen(s);
      OrderOneEmpty(s);
      OrderOneOutcomes(s);
      forall o | o in OrderTwoAnswer(s) ensures o in OrderOneAnswer(s) {
        OrderTwoOutcome(s, o);
      }
    }
  }

  /** An outcome the order-2 model mentions occurs from the third position on. */
  lemma OrderTwoOutcome(s: seq<Outcome>, o: Outcome)
    requires |s| >= MinHistory && o in OrderTwoAnswer(s)
    ensures exists i :: 1 <= i < |s| && s[i] == o
  {
    OrderTwo.MatrixRow(s, s[|s| - 2], s[|s| - 1]);
    var i :| 2 <= i < |s| && s[i] == o;
  }

  /** Every outcome the block model mentions is one the order-1 model mentions. */
  lemma BlockWithinOrderOne(s: seq<Outcome>)
    requires |s| >= MinHistory
    ensures Blocks.BlockPrediction(s).Keys <= OrderOneAnswer(s).Keys
  {
    if Blocks.BlockPrediction(s) != map[] {
      Blocks.BlockPredictionEmpty(s);
      BlockSeenPairSeen(s);
      PairSeenLastSeen(s);
      OrderOneEmpty(s);
      OrderOneOutcomes(s);
      forall o | o in Blocks.BlockPrediction(s) ensures o in OrderOneAnswer(s) {
        BlockOutcome(s, o);
      }
    }
  }

  /** An outcome the block model mentions occurs after the first window. */
  lemma BlockOutcome(s: seq<Outcome>, o: Outcome)
    requires |s| >= MinHistory && o in Blocks.BlockPrediction(s)
    ensures exists i :: 1 <= i < |s| && s[i] == o
  {
    var w := Blocks.LastBlock(s);
    Blocks.BlockPredictionEmpty(s);
    Blocks.BlockPredictionShares(s);
    FollowerOccurs(s, w, o);
    var i :| |w| <= i < |s| && s[i] == o;
  }

  /** The blend mentions exactly the outcomes the order-1 model mentions. */
  lemma BlendOutcomes(s: seq<Outcome>)
    requires |s| >= MinHistory
    ensures Blend(OrderOneAnswer(s), OrderTwoAnswer(s), Blocks.BlockPrediction(s)).Keys == OrderOneAnswer(s).Keys
  {
    OrderTwoWithinOrderOne(s);
    BlockWithinOrderOne(s);
  }

  /** The outcomes of a non-empty prediction are exactly the outcomes seen after the
      first position of the history. */
  lemma ForecastOutcomes(s: seq<Outcome>)
    requires Forecast(s) != []
    ensures OutcomesOf(Forecast(s)) == set i | 1 <= i < |s| :: s[i]
  {
    var m := Blend(OrderOneAnswer(s), OrderTwoAnswer(s), Blocks.BlockPrediction(s));
    RankedOutcomes(m);
    BlendOutcomes(s);
    OrderOneOutcomes(s);
  }
}
