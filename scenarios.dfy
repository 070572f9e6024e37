/** Worked histories: what the predictor answers for a few concrete inputs. */
module Scenarios {
  import opened Outcomes
  import opened Counting
  import opened Counters
  import opened Combiner
  import OrderOne
  import OrderTwo
  import Blocks

  /** Order-1 sure of P, no order-2 data, blocks sure of T: T 0.4 ranks above P 0.2,
      and the total is 0.6. */
  lemma BlendExample(p1: Distribution, p2: Distribution, p3: Distribution)
    requires p1 == map[P := 1.0] && p2 == map[] && p3 == map[T := 1.0]
    ensures Ranked(Blend(p1, p2, p3)) == [Entry(T, 0.4), Entry(P, 0.2)]
  {
    var m := Blend(p1, p2, p3);
    assert m.Keys == {P, T};
    RankTwo(m, m[P], m[T]);
  }

  /** Ranking a map over P and T where T is strictly more likely. */
  lemma RankTwo(m: Distribution, p: real, t: real)
    requires m.Keys == {P, T} && m[P] == p && m[T] == t && p < t
    ensures Ranked(m) == [Entry(T, t), Entry(P, p)]
  {
    assert RankFrom(m, [T]) == [Entry(T, t)] by {
      assert [T][1..] == [];
    }
    assert RankFrom(m, [P, T]) == [Entry(T, t), Entry(P, p)] by {
      assert [P, T][1..] == [T];
      assert Insert(Entry(P, p), []) == [Entry(P, p)];
    }
    assert [B, P, T][1..] == [P, T];
  }

  /** Ranking a map over all three outcomes with B least likely and P at least as
      likely as T. */
  lemma RankThree(m: Distribution, b: real, p: real, t: real)
    requires m.Keys == {B, P, T} && m[B] == b && m[P] == p && m[T] == t && b < t <= p
    ensures Ranked(m) == [Entry(P, p), Entry(T, t), Entry(B, b)]
  {
    RankLastTwo(m, p, t);
    assert [B, P, T][1..] == [P, T];
    InsertLast(Entry(B, b), Entry(P, p), Entry(T, t));
  }

  /** The ranking of P and T when P is at least as likely. */
  lemma RankLastTwo(m: Distribution, p: real, t: real)
    requires P in m && T in m && m[P] == p && m[T] == t && t <= p
    ensures RankFrom(m, [P, T]) == [Entry(P, p), Entry(T, t)]
  {
    assert RankFrom(m, [T]) == [Entry(T, t)] by {
      assert [T][1..] == [];
    }
    assert [P, T][1..] == [T];
  }

  /** An entry less likely than both entries of a ranking goes last. */
  lemma InsertLast(e: Entry, x: Entry, y: Entry)
    requires e.prob < y.prob && e.prob < x.prob
    ensures Insert(e, [x, y]) == [x, y, e]
  {
    assert [x, y][1..] == [y];
    assert [y][1..] == [];
  }

  /** The last outcome T of B P B P B T never occurred before: no prediction. */
  lemma NoPredictionYet(s: seq<Outcome>)
    requires s == [B, P, B, P, B, T]
    ensures Forecast(s) == []
  {
    ForecastEmpty(s);
  }

  /** In B P B P B T B, B was followed by P twice, by T once and never by B. */
  lemma PairCountExample(s: seq<Outcome>, c: Outcome)
    requires s == [B, P, B, P, B, T, B]
    ensures Occ(s, [B, c]) == if c == P then 2 else if c == T then 1 else 0
  {
    assert Front(s) == [B, P, B, P, B, T];
    assert Front([B, P, B, P, B, T]) == [B, P, B, P, B];
    assert Front([B, P, B, P, B]) == [B, P, B, P];
    assert Front([B, P, B, P]) == [B, P, B];
    assert Front([B, P, B]) == [B, P];
    assert Front([B, P]) == [B];
    OccShort([B], [B, c]);
  }

  /** In B P B P B T B, B was seen as a predecessor three times. */
  lemma PredecessorCountExample(s: seq<Outcome>)
    requires s == [B, P, B, P, B, T, B]
    ensures ContextCount(s, [B]) == 3
  {
    assert Front(s) == [B, P, B, P, B, T];
    assert Front([B, P, B, P, B, T]) == [B, P, B, P, B];
    assert Front([B, P, B, P, B]) == [B, P, B, P];
    assert Front([B, P, B, P]) == [B, P, B];
    assert Front([B, P, B]) == [B, P];
    assert Front([B, P]) == [B];
    assert Front([B]) == [];
  }

  /** Every outcome occurs after the first position of B P B P B T B. */
  lemma SeenExample(s: seq<Outcome>)
    requires s == [B, P, B, P, B, T, B]
    ensures (set i | 1 <= i < |s| :: s[i]) == {B, P, T}
  {
    assert s[2] == B && s[1] == P && s[5] == T;
  }

  /** Those counts fix the order-1 answer for B, with a zero entry for the outcome
      seen elsewhere but never after B. */
  lemma ColumnFromCounts(s: seq<Outcome>)
    requires (set i | 1 <= i < |s| :: s[i]) == {B, P, T}
    requires Occ(s, [B, B]) == 0 && Occ(s, [B, P]) == 2 && Occ(s, [B, T]) == 1 && ContextCount(s, [B]) == 3
    ensures Lookup(OrderOne.Matrix(s), B) == map[B := 0.0, P := 2.0 / 3.0, T := 1.0 / 3.0]
  {
    OrderOne.MatrixColumn(s, B);
    var d := Lookup(OrderOne.Matrix(s), B);
    FullColumn(d, 0.0, 2.0 / 3.0, 1.0 / 3.0);
  }

  /** A distribution over all three outcomes is determined by its values. */
  lemma FullColumn(d: Distribution, b: real, p: real, t: real)
    requires d.Keys == {B, P, T}
    requires Get(d, B) == b && Get(d, P) == p && Get(d, T) == t
    ensures d == map[B := b, P := p, T := t]
  {
  }

  /** The order-1 answer for B after B P B P B T B: P 2/3, T 1/3, B 0. */
  lemma OrderOneExample(s: seq<Outcome>)
    requires s == [B, P, B, P, B, T, B]
    ensures Lookup(OrderOne.Matrix(s), B) == map[B := 0.0, P := 2.0 / 3.0, T := 1.0 / 3.0]
  {
    PairCountExample(s, B);
    PairCountExample(s, P);
    PairCountExample(s, T);
    PredecessorCountExample(s);
    SeenExample(s);
    ColumnFromCounts(s);
  }

  /** After B B P T B B P T B B, the window T B B was followed by P once and by
      nothing else. */
  lemma BlockFollowerCount(s: seq<Outcome>, c: Outcome)
    requires s == [B, B, P, T, B, B, P, T, B, B]
    ensures Occ(s, [T, B, B, c]) == if c == P then 1 else 0
  {
    assert Front(s) == [B, B, P, T, B, B, P, T, B];
    assert Front([B, B, P, T, B, B, P, T, B]) == [B, B, P, T, B, B, P, T];
    assert Front([B, B, P, T, B, B, P, T]) == [B, B, P, T, B, B, P];
    assert Front([B, B, P, T, B, B, P]) == [B, B, P, T, B, B];
    assert Front([B, B, P, T, B, B]) == [B, B, P, T, B];
    assert Front([B, B, P, T, B]) == [B, B, P, T];
    OccShort([B, B, P], [T, B, B, c]);
  }

  /** In B B P T B B P T B B, the window T B B was followed once. */
  lemma BlockContext(s: seq<Outcome>)
    requires s == [B, B, P, T, B, B, P, T, B, B]
    ensures ContextCount(s, [T, B, B]) == 1
  {
    var w := [T, B, B];
    var f := Front(s);
    assert f == [B, B, P, T, B, B, P, T, B];
    assert Front(f) == [B, B, P, T, B, B, P, T];
    assert Front([B, B, P, T, B, B, P, T]) == [B, B, P, T, B, B, P];
    assert Front([B, B, P, T, B, B, P]) == [B, B, P, T, B, B];
    assert Front([B, B, P, T, B, B]) == [B, B, P, T, B];
    assert Front([B, B, P, T, B]) == [B, B, P, T];
    assert Front([B, B, P, T]) == [B, B, P];
    assert Front([B, B, P]) == [B, B];
    OccShort([B, B], w);
    assert Occ([B, B, P], w) == 0;
    assert Occ([B, B, P, T], w) == 0;
    assert Occ([B, B, P, T, B], w) == 0;
    assert Occ([B, B, P, T, B, B], w) == 1;
    assert Occ([B, B, P, T, B, B, P], w) == 1;
    assert Occ([B, B, P, T, B, B, P, T], w) == 1;
    assert Occ(f, w) == 1;
  }

  /** The trailing window of B B P T B B P T B B. */
  lemma BlockLast(s: seq<Outcome>)
    requires s == [B, B, P, T, B, B, P, T, B, B]
    ensures Blocks.LastBlock(s) == [T, B, B]
  {
  }

  /** A trailing window followed once, by P, gives the block answer P with certainty. */
  lemma SharesOfOne(s: seq<Outcome>, w: seq<Outcome>)
    requires |s| > Blocks.BlockSize && Blocks.LastBlock(s) == w
    requires Occ(s, w + [B]) == 0 && Occ(s, w + [P]) == 1 && Occ(s, w + [T]) == 0
    requires ContextCount(s, w) == 1
    ensures Blocks.BlockPrediction(s) == map[P := 1.0]
  {
    Blocks.BlockPredictionShares(s);
    var d := Blocks.BlockPrediction(s);
    forall c ensures c in d <==> c == P {
      match c
      case B =>
      case P =>
      case T =>
    }
    assert Get(d, P) == 1.0 / 1.0;
    OnlyOutcome(d, P);
  }

  /** A distribution with one key is determined by its value there. */
  lemma OnlyOutcome(d: Distribution, o: Outcome)
    requires forall c :: c in d <==> c == o
    requires Get(d, o) == 1.0
    ensures d == map[o := 1.0]
  {
  }

  /** The block answer after B B P T B B P T B B: its trailing window T B B was
      followed only by P. */
  lemma BlockExample(s: seq<Outcome>)
    requires s == [B, B, P, T, B, B, P, T, B, B]
    ensures Blocks.BlockPrediction(s) == map[P := 1.0]
  {
    BlockFollowerCount(s, B);
    BlockFollowerCount(s, P);
    BlockFollowerCount(s, T);
    BlockContext(s);
    BlockLast(s);
    var w := [T, B, B];
    assert w + [B] == [T, B, B, B] && w + [P] == [T, B, B, P] && w + [T] == [T, B, B, T];
    SharesOfOne(s, w);
  }

  /** The trailing pair T B of B P B P B T B never occurred before. */
  lemma PairUnseen(s: seq<Outcome>)
    requires s == [B, P, B, P, B, T, B]
    ensures OrderTwoAnswer(s) == map[]
  {
    OrderTwo.MatrixRow(s, T, B);
  }

  /** The trailing window B T B of B P B P B T B never occurred before. */
  lemma BlockUnseen(s: seq<Outcome>)
    requires s == [B, P, B, P, B, T, B]
    ensures Blocks.BlockPrediction(s) == map[]
  {
    assert Blocks.LastBlock(s) == [B, T, B];
    Blocks.BlockPredictionUnseen(s);
    forall i | 0 <= i && i + Blocks.BlockSize < |s| ensures Blocks.WindowAt(s, i) != [B, T, B] {
      assert Blocks.WindowAt(s, i)[1] == s[i + 1];
    }
  }

  /** Ranking the blend of the order-1 answer alone: P, T, B, totalling 0.2. */
  lemma RankedExample(m: Distribution)
    requires m == Blend(map[B := 0.0, P := 2.0 / 3.0, T := 1.0 / 3.0], map[], map[])
    ensures Ranked(m) == [Entry(P, 0.2 * (2.0 / 3.0)), Entry(T, 0.2 * (1.0 / 3.0)), Entry(B, 0.0)]
  {
    assert m.Keys == {B, P, T};
    RankThree(m, 0.0, 0.2 * (2.0 / 3.0), 0.2 * (1.0 / 3.0));
  }

  /** The final prediction after B P B P B T B: only the order-1 model has data, so
      the ranked blend totals its weight 0.2 and is not renormalised. */
  lemma ForecastExample(s: seq<Outcome>)
    requires s == [B, P, B, P, B, T, B]
    ensures Forecast(s) == [Entry(P, 0.2 * (2.0 / 3.0)), Entry(T, 0.2 * (1.0 / 3.0)), Entry(B, 0.0)]
  {
    OrderOneExample(s);
    PairUnseen(s);
    BlockUnseen(s);
    assert OrderOneAnswer(s) == map[B := 0.0, P := 2.0 / 3.0, T := 1.0 / 3.0] by {
      assert s[|s| - 1] == B;
    }
    RankedExample(Blend(OrderOneAnswer(s), OrderTwoAnswer(s), Blocks.BlockPrediction(s)));
  }
}
