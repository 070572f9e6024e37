/** The order-2 model: how often each outcome followed each ordered pair of outcomes,
    and the zero-filled normalised matrix looked up at the last two outcomes. */
module OrderTwo {
  import opened Outcomes
  import opened Counting
  import opened Counters

  /** An ordered pair of consecutive outcomes, the context of the order-2 model. */
  type Pair = (Outcome, Outcome)

  /** Pair -> counter of the outcomes seen right after it. */
  type Table = map<Pair, Counter>

  /** The transition counts of a history, one adjacent triple at a time. */
  function Transitions(s: seq<Outcome>): Table
  {
    if |s| < 3 then map[] else Bump(Transitions(Front(s)), (s[|s| - 3], s[|s| - 2]), s[|s| - 1])
  }

  /** The counter of the outcomes seen right after the pair `(a, b)`, counted directly. */
  function Successors(s: seq<Outcome>, a: Outcome, b: Outcome): (r: Counter)
    ensures forall c :: c in r <==> Occ(s, [a, b, c]) > 0
    ensures forall c :: CountOf(r, c) == Occ(s, [a, b, c])
  {
    forall c ensures c in Alphabet { InAlphabet(c); }
    map c | c in Alphabet && Occ(s, [a, b, c]) > 0 :: Occ(s, [a, b, c])
  }

  /** The successor counts of `(a, b)` add up to the number of times the pair was seen
      as a context. */
  lemma SuccessorsTotal(s: seq<Outcome>, a: Outcome, b: Outcome)
    ensures Total(Successors(s, a, b)) == ContextCount(s, [a, b])
  {
    FollowerSum(s, [a, b]);
    assert [a, b] + [B] == [a, b, B] && [a, b] + [P] == [a, b, P] && [a, b] + [T] == [a, b, T];
  }

  /** One more outcome adds one sighting of the previous last two outcomes as a context. */
  lemma ContextAppend(p: seq<Outcome>, x: Outcome, a: Outcome, b: Outcome)
    requires |p| >= 2
    ensures ContextCount(p + [x], [a, b]) ==
      ContextCount(p, [a, b]) + (if a == p[|p| - 2] && b == p[|p| - 1] then 1 else 0)
  {
    OccAppend(p, x, [a, b]);
    EndsWithPair(p, a, b);
  }

  /** One more outcome adds one sighting of the triple made of the previous last two
      outcomes and the new one. */
  lemma TripleAppend(p: seq<Outcome>, x: Outcome, a: Outcome, b: Outcome, c: Outcome)
    requires |p| >= 2
    ensures Occ(p + [x], [a, b, c]) ==
      Occ(p, [a, b, c]) + (if a == p[|p| - 2] && b == p[|p| - 1] && c == x then 1 else 0)
  {
    OccAppend(p, x, [a, b, c]);
    EndsWithTriple(p + [x], a, b, c);
  }

  /** A pair is a key of the table exactly when it has been seen as a context. */
  lemma {:induction false} TransitionsKeys(s: seq<Outcome>)
    ensures forall k: Pair :: k in Transitions(s) <==> ContextCount(s, [k.0, k.1]) > 0
    decreases |s|
  {
    if |s| < 3 {
      forall k: Pair ensures ContextCount(s, [k.0, k.1]) == 0 {
        if s != [] {
          OccShort(Front(s), [k.0, k.1]);
        }
      }
    } else {
      var p, x := Front(s), s[|s| - 1];
      assert s == p + [x];
      TransitionsKeys(p);
      forall k: Pair ensures k in Transitions(s) <==> ContextCount(s, [k.0, k.1]) > 0 {
        ContextAppend(p, x, k.0, k.1);
      }
    }
  }

  /** A counter that counts each successor of `(a, b)` in `p`, plus the new outcome
      `x` when `(a, b)` ends `p`, and holds only positive counts, is the successor
      counter of `(a, b)` in `p + [x]`. */
  lemma RowFromCounts(p: seq<Outcome>, x: Outcome, a: Outcome, b: Outcome, row: Counter)
    requires |p| >= 2
    requires forall c :: CountOf(row, c) == Occ(p, [a, b, c]) + (if a == p[|p| - 2] && b == p[|p| - 1] && c == x then 1 else 0)
    requires forall c | c in row :: row[c] > 0
    ensures row == Successors(p + [x], a, b)
  {
    forall c ensures CountOf(row, c) == Occ(p + [x], [a, b, c]) {
      TripleAppend(p, x, a, b, c);
    }
    SuccessorCounter(p + [x], a, b, row);
  }

  /** A counter with no zero entries that counts every `(a, b) -> c` transition of `s`
      is the successor counter of `(a, b)`. */
  lemma SuccessorCounter(s: seq<Outcome>, a: Outcome, b: Outcome, row: Counter)
    requires forall c :: CountOf(row, c) == Occ(s, [a, b, c])
    requires forall c | c in row :: row[c] > 0
    ensures row == Successors(s, a, b)
  {
    var want := Successors(s, a, b);
    forall c ensures c in row <==> c in want {
      assert c in row <==> CountOf(row, c) > 0;
    }
    CountersEqual(row, want);
  }

  /** One step of `TransitionsRows`: if the row of `(a, b)` is right in the table of
      `p`, then after recording the triple that `x` completes it is right for `p + [x]`. */
  lemma RowAppend(p: seq<Outcome>, x: Outcome, a: Outcome, b: Outcome, before: Table)
    requires |p| >= 2
    requires (a, b) in before ==> before[(a, b)] == Successors(p, a, b)
    requires (a, b) in before <==> ContextCount(p, [a, b]) > 0
    requires (a, b) in Bump(before, (p[|p| - 2], p[|p| - 1]), x)
    ensures Bump(before, (p[|p| - 2], p[|p| - 1]), x)[(a, b)] == Successors(p + [x], a, b)
  {
    var last := (p[|p| - 2], p[|p| - 1]);
    var row := Bump(before, last, x)[(a, b)];
    if (a, b) == last {
      if (a, b) !in before {
        SuccessorsTotal(p, a, b);
      }
      forall c ensures CountOf(row, c) == Occ(p, [a, b, c]) + (if c == x then 1 else 0) {
        assert CountOf(row, c) == (if (a, b) in before then CountOf(before[(a, b)], c) else 0) + (if c == x then 1 else 0);
      }
      forall c | c in row ensures row[c] > 0 {
        assert CountOf(row, c) == (if (a, b) in before then CountOf(before[(a, b)], c) else 0) + (if c == x then 1 else 0);
        if c != x {
          assert c in before[(a, b)];
          assert CountOf(before[(a, b)], c) == Occ(p, [a, b, c]) > 0;
        }
      }
    } else {
      assert row == before[(a, b)];
    }
    RowFromCounts(p, x, a, b, row);
  }

  /** The counter of each pair in the table counts each successor as often as the
      triple occurs in the history. */
  lemma {:induction false} TransitionsRows(s: seq<Outcome>)
    ensures forall k | k in Transitions(s) :: Transitions(s)[k] == Successors(s, k.0, k.1)
    decreases |s|
  {
    if |s| >= 3 {
      var p, x := Front(s), s[|s| - 1];
      assert s == p + [x];
      TransitionsRows(p);
      TransitionsKeys(p);
      forall k | k in Transitions(s) ensures Transitions(s)[k] == Successors(s, k.0, k.1) {
        RowAppend(p, x, k.0, k.1, Transitions(p));
      }
    }
  }

  /** Counts every adjacent triple of the history into a table of counters
      (`trans[(a, b)][c] += 1` over `zip(seq, seq[1:], seq[2:])`). */
  method CountTransitions(s: seq<Outcome>) returns (trans: Table)
    ensures trans == Transitions(s)
  {
    trans := map[];
    var i := if |s| < 2 then |s| else 2;
    while i < |s|
      invariant i <= |s| && (|s| >= 2 ==> 2 <= i)
      invariant trans == Transitions(s[..i])
    {
      assert Front(s[..i + 1]) == s[..i];
      trans := Bump(trans, (s[i - 2], s[i - 1]), s[i]);
      i := i + 1;
    }
    assert s[..i] == s;
  }

  /** The meaning of the table at one pair (an instance of `TransitionsKeys` and
      `TransitionsRows`). */
  lemma TransitionsAt(s: seq<Outcome>, a: Outcome, b: Outcome)
    ensures (a, b) in Transitions(s) <==> ContextCount(s, [a, b]) > 0
    ensures (a, b) in Transitions(s) ==> Transitions(s)[(a, b)] == Successors(s, a, b)
  {
    TransitionsKeys(s);
    TransitionsRows(s);
    var k: Pair := (a, b);
    assert [k.0, k.1] == [a, b];
  }

  /** Every row of the table is non-empty: it adds up to the number of times its pair
      was seen, at least 1. Normalising a row never divides by zero. */
  lemma TransitionsTotals(s: seq<Outcome>)
    ensures NonEmptyRows(Transitions(s))
    ensures forall k | k in Transitions(s) :: Total(Transitions(s)[k]) == ContextCount(s, [k.0, k.1])
  {
    forall k | k in Transitions(s) ensures Total(Transitions(s)[k]) == ContextCount(s, [k.0, k.1]) > 0 {
      RowTotal(s, k.0, k.1);
    }
  }

  /** The row of a pair in the table adds up to the number of times the pair was
      seen as a context, at least 1. */
  lemma RowTotal(s: seq<Outcome>, a: Outcome, b: Outcome)
    requires (a, b) in Transitions(s)
    ensures Total(Transitions(s)[(a, b)]) == ContextCount(s, [a, b]) > 0
  {
    TransitionsAt(s, a, b);
    SuccessorsTotal(s, a, b);
  }

  /** The zero-filled matrix of transition shares: each pair's counts divided by their
      sum, over every outcome seen as a successor of some pair. */
  function Matrix(s: seq<Outcome>): map<Pair, Distribution>
  {
    TransitionsTotals(s);
    Frame(Transitions(s))
  }

  /** Builds the transition counts and normalises each pair's counts. */
  method TransitionMatrix(s: seq<Outcome>) returns (prob: map<Pair, Distribution>)
    ensures prob == Matrix(s)
  {
    var trans := CountTransitions(s);
    TransitionsTotals(s);
    prob := Frame(trans);
  }

  /** A successor of any pair is an outcome from the third position on. */
  lemma SuccessorOccurs(s: seq<Outcome>, a: Outcome, b: Outcome, c: Outcome)
    requires c in Successors(s, a, b)
    ensures exists i :: 2 <= i < |s| && s[i] == c
  {
    assert [a, b] + [c] == [a, b, c];
    FollowerOccurs(s, [a, b], c);
  }

  /** A label of the table is an outcome from the third position on. */
  lemma LabelIsSuccessor(s: seq<Outcome>, c: Outcome)
    requires c in Labels(Transitions(s))
    ensures exists i :: 2 <= i < |s| && s[i] == c
  {
    var t := Transitions(s);
    var k :| k in t && c in t[k];
    TransitionsAt(s, k.0, k.1);
    SuccessorOccurs(s, k.0, k.1, c);
  }

  /** An outcome from the third position on is a label of the table. */
  lemma SuccessorIsLabel(s: seq<Outcome>, i: int)
    requires 2 <= i < |s|
    ensures s[i] in Labels(Transitions(s))
  {
    TripleCounted(s, i);
    TripleRecorded(s, s[i - 2], s[i - 1], s[i]);
    InLabels(Transitions(s), (s[i - 2], s[i - 1]), s[i]);
  }

  /** A transition that occurs in the history is recorded in the table. */
  lemma TripleRecorded(s: seq<Outcome>, a: Outcome, b: Outcome, c: Outcome)
    requires Occ(s, [a, b, c]) > 0
    ensures (a, b) in Transitions(s) && c in Transitions(s)[(a, b)]
  {
    SuccessorsTotal(s, a, b);
    TransitionsAt(s, a, b);
  }

  /** The outcomes seen as a successor of some pair are the outcomes from the third
      position on. */
  lemma LabelsAreSuccessors(s: seq<Outcome>)
    ensures Labels(Transitions(s)) == set i | 2 <= i < |s| :: s[i]
  {
    forall c | c in Labels(Transitions(s)) ensures c in set i | 2 <= i < |s| :: s[i] {
      LabelIsSuccessor(s, c);
    }
    forall i | 2 <= i < |s| ensures s[i] in Labels(Transitions(s)) {
      SuccessorIsLabel(s, i);
    }
  }

  /** The order-2 lookup for the pair `(a, b)` (the row of the matrix): no data
      exactly when the pair never starts at an index at or below `|s| - 3`; otherwise
      a distribution over every outcome seen as a successor of some pair, giving each
      one the number of `(a, b) -> c` transitions over the number of times the pair was
      seen as a context. */
  lemma MatrixRow(s: seq<Outcome>, a: Outcome, b: Outcome)
    ensures Lookup(Matrix(s), (a, b)) == map[] <==>
      forall i | 0 <= i < |s| - 2 :: !(s[i] == a && s[i + 1] == b)
    ensures Lookup(Matrix(s), (a, b)) == map[] <==> ContextCount(s, [a, b]) == 0
    ensures ContextCount(s, [a, b]) > 0 ==>
      && IsDistribution(Lookup(Matrix(s), (a, b)))
      && Lookup(Matrix(s), (a, b)).Keys == (set i | 2 <= i < |s| :: s[i])
      && forall c :: Get(Lookup(Matrix(s), (a, b)), c) ==
           (Occ(s, [a, b, c]) as real) / (ContextCount(s, [a, b]) as real)
  {
    var t := Transitions(s);
    TransitionsAt(s, a, b);
    PairContextPositive(s, a, b);
    if (a, b) in t {
      TransitionsTotals(s);
      LabelsAreSuccessors(s);
      SuccessorsTotal(s, a, b);
      var c :| c in t[(a, b)];
      assert c in Labels(t);
      SharesDistribution(t[(a, b)], Labels(t));
    }
  }

  /** Appending an outcome never removes a pair and never decreases a count. */
  lemma TransitionsGrow(s: seq<Outcome>, x: Outcome)
    ensures forall k | k in Transitions(s) :: k in Transitions(s + [x])
    ensures forall k, c | k in Transitions(s) ::
      CountOf(Transitions(s)[k], c) <= CountOf(Transitions(s + [x])[k], c)
  {
    if |s| >= 2 {
      assert Front(s + [x]) == s;
    }
  }
}
