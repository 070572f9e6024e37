/** The order-1 model: how often each outcome followed each single outcome, and the
    zero-filled normalised matrix looked up at the last outcome of the history. */
module OrderOne {
  import opened Outcomes
  import opened Counting
  import opened Counters

  /** Predecessor -> counter of the outcomes seen right after it. */
  type Table = map<Outcome, Counter>

  /** The transition counts of a history, one adjacent pair at a time. */
  function Transitions(s: seq<Outcome>): Table
  {
    if |s| < 2 then map[] else Bump(Transitions(Front(s)), s[|s| - 2], s[|s| - 1])
  }

  /** The counter of the outcomes seen right after `a`, counted directly. */
  function Successors(s: seq<Outcome>, a: Outcome): (c: Counter)
    ensures forall b :: b in c <==> Occ(s, [a, b]) > 0
    ensures forall b :: CountOf(c, b) == Occ(s, [a, b])
  {
    forall b ensures b in Alphabet { InAlphabet(b); }
    map b | b in Alphabet && Occ(s, [a, b]) > 0 :: Occ(s, [a, b])
  }

  /** The successor counts of `a` add up to the number of times `a` was seen as a
      predecessor. */
  lemma SuccessorsTotal(s: seq<Outcome>, a: Outcome)
    ensures Total(Successors(s, a)) == ContextCount(s, [a])
  {
    FollowerSum(s, [a]);
    assert [a] + [B] == [a, B] && [a] + [P] == [a, P] && [a] + [T] == [a, T];
  }

  /** One more outcome adds one sighting of the previous last outcome as a predecessor. */
  lemma PredecessorAppend(p: seq<Outcome>, x: Outcome, a: Outcome)
    requires p != []
    ensures ContextCount(p + [x], [a]) == ContextCount(p, [a]) + (if a == p[|p| - 1] then 1 else 0)
  {
    OccAppend(p, x, [a]);
    assert EndsWith(p, [a]) <==> a == p[|p| - 1];
  }

  /** One more outcome adds one sighting of the transition from the previous last outcome to it. */
  lemma PairAppend(p: seq<Outcome>, x: Outcome, a: Outcome, b: Outcome)
    requires p != []
    ensures Occ(p + [x], [a, b]) == Occ(p, [a, b]) + (if a == p[|p| - 1] && b == x then 1 else 0)
  {
    OccAppend(p, x, [a, b]);
    assert (p + [x])[|p + [x]| - 2..] == [p[|p| - 1], x];
  }

  /** A predecessor is a key of the table exactly when it has been seen with a successor. */
  lemma {:induction false} TransitionsKeys(s: seq<Outcome>)
    ensures forall a :: a in Transitions(s) <==> ContextCount(s, [a]) > 0
    decreases |s|
  {
    if |s| < 2 {
      forall a ensures ContextCount(s, [a]) == 0 {
        if s != [] {
          assert Front(s) == [];
        }
      }
    } else {
      var p, x := Front(s), s[|s| - 1];
      assert s == p + [x];
      TransitionsKeys(p);
      forall a ensures a in Transitions(s) <==> ContextCount(s, [a]) > 0 {
        PredecessorAppend(p, x, a);
      }
    }
  }

  /** A counter holding, for every `b`, the number of `(a, b)` transitions in `p`
      plus the one that `x` completes, is the successor counter of `a` in `p + [x]`. */
  lemma RowFromCounts(p: seq<Outcome>, x: Outcome, a: Outcome, row: Counter)
    requires p != []
    requires forall b :: CountOf(row, b) == Occ(p, [a, b]) + (if a == p[|p| - 1] && b == x then 1 else 0)
    requires forall b | b in row :: row[b] > 0
    ensures row == Successors(p + [x], a)
  {
    forall b ensures CountOf(row, b) == Occ(p + [x], [a, b]) {
      PairAppend(p, x, a, b);
    }
    SuccessorCounter(p + [x], a, row);
  }

  /** A counter with no zero entries that counts every `(a, b)` transition of `s` is the
      successor counter of `a`. */
  lemma SuccessorCounter(s: seq<Outcome>, a: Outcome, row: Counter)
    requires forall b :: CountOf(row, b) == Occ(s, [a, b])
    requires forall b | b in row :: row[b] > 0
    ensures row == Successors(s, a)
  {
    var want := Successors(s, a);
    forall b ensures b in row <==> b in want {
      assert b in row <==> CountOf(row, b) > 0;
    }
    CountersEqual(row, want);
  }

  /** One step of `TransitionsRows`: if the row of `a` is right in the table of `p`,
      then after recording the transition that `x` completes it is right for `p + [x]`. */
  lemma RowAppend(p: seq<Outcome>, x: Outcome, a: Outcome, before: Table)
    requires p != []
    requires a in before ==> before[a] == Successors(p, a)
    requires a in before <==> ContextCount(p, [a]) > 0
    requires a in Bump(before, p[|p| - 1], x)
    ensures Bump(before, p[|p| - 1], x)[a] == Successors(p + [x], a)
  {
    var last := p[|p| - 1];
    var row := Bump(before, last, x)[a];
    if a == last {
      if a !in before {
        SuccessorsTotal(p, a);
      }
      forall b ensures CountOf(row, b) == Occ(p, [a, b]) + (if b == x then 1 else 0) {
        assert CountOf(row, b) == (if a in before then CountOf(before[a], b) else 0) + (if b == x then 1 else 0);
      }
      forall b | b in row ensures row[b] > 0 {
        assert CountOf(row, b) == (if a in before then CountOf(before[a], b) else 0) + (if b == x then 1 else 0);
        if b != x {
          assert b in before[a];
          assert CountOf(before[a], b) == Occ(p, [a, b]) > 0;
        }
      }
    } else {
      assert row == before[a];
    }
    RowFromCounts(p, x, a, row);
  }

  /** The counter of each predecessor in the table counts each successor as often as
      the pair occurs in the history. */
  lemma {:induction false} TransitionsRows(s: seq<Outcome>)
    ensures forall a | a in Transitions(s) :: Transitions(s)[a] == Successors(s, a)
    decreases |s|
  {
    if |s| >= 2 {
      var p, x := Front(s), s[|s| - 1];
      assert s == p + [x];
      TransitionsRows(p);
      TransitionsKeys(p);
      forall a | a in Transitions(s) ensures Transitions(s)[a] == Successors(s, a) {
        RowAppend(p, x, a, Transitions(p));
      }
    }
  }

  /** Counts every adjacent pair of the history into a table of counters
      (`trans[a][b] += 1` over `zip(seq, seq[1:])`). */
  method CountTransitions(s: seq<Outcome>) returns (trans: Table)
    ensures trans == Transitions(s)
  {
    trans := map[];
    var i := if s == [] then 0 else 1;
    while i < |s|
      invariant i <= |s| && (s != [] ==> 1 <= i)
      invariant trans == Transitions(s[..i])
    {
      assert Front(s[..i + 1]) == s[..i];
      trans := Bump(trans, s[i - 1], s[i]);
      i := i + 1;
    }
    assert s[..i] == s;
  }

  /** The meaning of the table at one predecessor (an instance of `TransitionsKeys`
      and `TransitionsRows`). */
  lemma TransitionsAt(s: seq<Outcome>, a: Outcome)
    ensures a in Transitions(s) <==> ContextCount(s, [a]) > 0
    ensures a in Transitions(s) ==> Transitions(s)[a] == Successors(s, a)
  {
    TransitionsKeys(s);
    TransitionsRows(s);
  }

  /** Every row of the table is non-empty: it adds up to the number of times its
      predecessor was seen, at least 1. Normalising a row never divides by zero. */
  lemma TransitionsTotals(s: seq<Outcome>)
    ensures NonEmptyRows(Transitions(s))
    ensures forall a | a in Transitions(s) :: Total(Transitions(s)[a]) == ContextCount(s, [a])
  {
    forall a | a in Transitions(s) ensures Total(Transitions(s)[a]) == ContextCount(s, [a]) > 0 {
      RowTotal(s, a);
    }
  }

  /** The row of a predecessor in the table adds up to the number of times it was
      seen as a predecessor, at least 1. */
  lemma RowTotal(s: seq<Outcome>, a: Outcome)
    requires a in Transitions(s)
    ensures Total(Transitions(s)[a]) == ContextCount(s, [a]) > 0
  {
    TransitionsAt(s, a);
    SuccessorsTotal(s, a);
  }

  /** The zero-filled matrix of transition shares: each predecessor's counts divided by
      their sum, over every outcome seen as a successor anywhere. */
  function Matrix(s: seq<Outcome>): map<Outcome, Distribution>
  {
    TransitionsTotals(s);
    Frame(Transitions(s))
  }

  /** Builds the transition counts and normalises each predecessor's counts. */
  method TransitionMatrix(s: seq<Outcome>) returns (prob: map<Outcome, Distribution>)
    ensures prob == Matrix(s)
  {
    var trans := CountTransitions(s);
    TransitionsTotals(s);
    prob := Frame(trans);
  }

  /** A successor of any outcome is an outcome after the first position. */
  lemma SuccessorOccurs(s: seq<Outcome>, a: Outcome, b: Outcome)
    requires b in Successors(s, a)
    ensures exists i :: 1 <= i < |s| && s[i] == b
  {
    assert [a] + [b] == [a, b];
    FollowerOccurs(s, [a], b);
  }

  /** A label of the table is an outcome after the first position. */
  lemma LabelIsSuccessor(s: seq<Outcome>, b: Outcome)
    requires b in Labels(Transitions(s))
    ensures exists i :: 1 <= i < |s| && s[i] == b
  {
    var t := Transitions(s);
    var a :| a in t && b in t[a];
    TransitionsAt(s, a);
    SuccessorOccurs(s, a, b);
  }

  /** An outcome after the first position is a label of the table. */
  lemma SuccessorIsLabel(s: seq<Outcome>, i: int)
    requires 1 <= i < |s|
    ensures s[i] in Labels(Transitions(s))
  {
    PairCounted(s, i);
    PairRecorded(s, s[i - 1], s[i]);
    InLabels(Transitions(s), s[i - 1], s[i]);
  }

  /** A transition that occurs in the history is recorded in the table. */
  lemma PairRecorded(s: seq<Outcome>, a: Outcome, b: Outcome)
    requires Occ(s, [a, b]) > 0
    ensures a in Transitions(s) && b in Transitions(s)[a]
  {
    SuccessorsTotal(s, a);
    TransitionsAt(s, a);
  }

  /** The outcomes seen as a successor anywhere are the outcomes after the first. */
  lemma LabelsAreSuccessors(s: seq<Outcome>)
    ensures Labels(Transitions(s)) == set i | 1 <= i < |s| :: s[i]
  {
    forall b | b in Labels(Transitions(s)) ensures b in set i | 1 <= i < |s| :: s[i] {
      LabelIsSuccessor(s, b);
    }
    forall i | 1 <= i < |s| ensures s[i] in Labels(Transitions(s)) {
      SuccessorIsLabel(s, i);
    }
  }

  /** The order-1 lookup for outcome `a` (the column of the matrix): no data exactly
      when `a` never occurs before the last position; otherwise a distribution over
      every outcome seen as a successor, giving each successor the number of `a -> b`
      transitions over the number of times `a` was seen as a predecessor. */
  lemma MatrixColumn(s: seq<Outcome>, a: Outcome)
    ensures Lookup(Matrix(s), a) == map[] <==> forall i | 0 <= i < |s| - 1 :: s[i] != a
    ensures Lookup(Matrix(s), a) == map[] <==> ContextCount(s, [a]) == 0
    ensures ContextCount(s, [a]) > 0 ==>
      && IsDistribution(Lookup(Matrix(s), a))
      && Lookup(Matrix(s), a).Keys == (set i | 1 <= i < |s| :: s[i])
      && forall b :: Get(Lookup(Matrix(s), a), b) == (Occ(s, [a, b]) as real) / (ContextCount(s, [a]) as real)
  {
    var t := Transitions(s);
    TransitionsAt(s, a);
    SingleContextPositive(s, a);
    if a in t {
      TransitionsTotals(s);
      LabelsAreSuccessors(s);
      SuccessorsTotal(s, a);
      var b :| b in t[a];
      assert b in Labels(t);
      SharesDistribution(t[a], Labels(t));
    }
  }

  /** Appending an outcome never removes a predecessor and never decreases a count. */
  lemma TransitionsGrow(s: seq<Outcome>, x: Outcome)
    ensures forall a | a in Transitions(s) :: a in Transitions(s + [x])
    ensures forall a, b | a in Transitions(s) ::
      CountOf(Transitions(s)[a], b) <= CountOf(Transitions(s + [x])[a], b)
  {
    if s != [] {
      assert Front(s + [x]) == s;
    }
  }
}
