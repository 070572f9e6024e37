/** Per-context counters of following outcomes and their normalisation into
    per-context distributions: the parts that the order-1 and order-2 tables and
    the block table have in common. */
module Counters {
  import opened Outcomes

  /** How many times each outcome was recorded; an absent key counts 0. */
  type Counter = map<Outcome, nat>

  function CountOf(c: Counter, o: Outcome): nat
  {
    if o in c then c[o] else 0
  }

  /** Sum of the counts of a counter. */
  function Total(c: Counter): nat
  {
    CountOf(c, B) + CountOf(c, P) + CountOf(c, T)
  }

  /** `t[k][o] += 1` on a table whose missing rows start as empty counters. */
  function Bump<K(==)>(t: map<K, Counter>, k: K, o: Outcome): (r: map<K, Counter>)
    ensures r.Keys == t.Keys + {k}
    ensures forall k' | k' in t && k' != k :: r[k'] == t[k']
    ensures forall o' :: CountOf(r[k], o') == (if k in t then CountOf(t[k], o') else 0) + (if o' == o then 1 else 0)
    ensures r[k].Keys == (if k in t then t[k].Keys else {}) + {o}
  {
    var row := if k in t then t[k] else map[];
    t[k := row[o := CountOf(row, o) + 1]]
  }

  /** Two counters are equal when they have the same keys and the same counts. */
  lemma CountersEqual(c1: Counter, c2: Counter)
    requires c1.Keys == c2.Keys
    requires forall o :: CountOf(c1, o) == CountOf(c2, o)
    ensures c1 == c2
  {
    forall o | o in c1 ensures c1[o] == c2[o] {
      assert CountOf(c1, o) == CountOf(c2, o);
    }
  }

  /** Every outcome recorded under some context: the labels a zero-filled frame has
      in every one of its rows. */
  function Labels<K(==)>(t: map<K, Counter>): set<Outcome>
  {
    set k, o | k in t && o in t[k] :: o
  }

  /** An outcome recorded under a context present in the table is a label. */
  lemma InLabels<K>(t: map<K, Counter>, k: K, o: Outcome)
    requires k in t && o in t[k]
    ensures o in Labels(t)
  {
  }

  /** Every context present in the table has at least one recorded follower. */
  ghost predicate NonEmptyRows<K>(t: map<K, Counter>)
  {
    forall k | k in t :: Total(t[k]) > 0
  }

  /** Shares `count / total` of the counter over the given labels; a label never
      counted gets share 0. */
  function Shares(c: Counter, labels: set<Outcome>): Distribution
    requires Total(c) > 0
  {
    map o | o in labels :: (CountOf(c, o) as real) / (Total(c) as real)
  }

  /** The zero-filled frame of a table: each row normalised by its own total, over
      the labels of the whole table. */
  function Frame<K(==)>(t: map<K, Counter>): map<K, Distribution>
    requires NonEmptyRows(t)
  {
    map k | k in t :: Shares(t[k], Labels(t))
  }

  /** The row of a frame for one context, or no data when the context is absent. */
  function Lookup<K(==)>(f: map<K, Distribution>, k: K): Distribution
  {
    if k in f then f[k] else map[]
  }

  /** The share of one outcome: its count over the counter's total, or 0 when the
      outcome is not a label (and so was never counted). */
  lemma ShareAt(c: Counter, labels: set<Outcome>, o: Outcome)
    requires Total(c) > 0 && c.Keys <= labels
    ensures Get(Shares(c, labels), o) == (CountOf(c, o) as real) / (Total(c) as real)
  {
    if o !in labels {
      assert CountOf(c, o) == 0;
    }
  }

  /** Normalising a non-empty counter over labels that include all its keys gives a
      distribution whose value at each label is the count over the total. */
  lemma SharesDistribution(c: Counter, labels: set<Outcome>)
    requires Total(c) > 0 && c.Keys <= labels
    ensures Shares(c, labels).Keys == labels
    ensures forall o :: Get(Shares(c, labels), o) == (CountOf(c, o) as real) / (Total(c) as real)
    ensures IsDistribution(Shares(c, labels))
  {
    var d := Shares(c, labels);
    forall o ensures Get(d, o) == (CountOf(c, o) as real) / (Total(c) as real) {
      ShareAt(c, labels, o);
    }
    SharesOfCounts(CountOf(c, B), CountOf(c, P), CountOf(c, T), Total(c));
    assert Mass(d) == 1.0;
    forall o | o in d ensures 0.0 <= d[o] <= 1.0 {
      assert d[o] == Get(d, o);
      match o
      case B =>
      case P =>
      case T =>
    }
  }

  /** Every row of the frame of a table is a distribution over the table's labels. */
  lemma FrameRows<K>(t: map<K, Counter>)
    requires NonEmptyRows(t)
    ensures Frame(t).Keys == t.Keys
    ensures forall k | k in t :: IsDistribution(Frame(t)[k]) && Frame(t)[k].Keys == Labels(t)
  {
    forall k | k in t ensures IsDistribution(Frame(t)[k]) && Frame(t)[k].Keys == Labels(t) {
      assert t[k].Keys <= Labels(t);
      SharesDistribution(t[k], Labels(t));
    }
  }

  /** The counter of a list of outcomes (`Counter(list)`): its keys are the outcomes
      in the list, each with its number of occurrences. */
  function Tally(l: seq<Outcome>): (c: Counter)
    ensures c.Keys == set o | o in l
    ensures forall o :: CountOf(c, o) == multiset(l)[o]
  {
    map o | o in l :: multiset(l)[o]
  }

  /** A list's counter adds up to the length of the list. */
  lemma {:induction false} TallyTotal(l: seq<Outcome>)
    ensures Total(Tally(l)) == |l|
  {
    if l != [] {
      var rest := l[1..];
      TallyTotal(rest);
      assert l == [l[0]] + rest;
      assert multiset(l) == multiset{l[0]} + multiset(rest);
      assert Total(Tally(rest)) == multiset(rest)[B] + multiset(rest)[P] + multiset(rest)[T];
      assert multiset{l[0]}[B] + multiset{l[0]}[P] + multiset{l[0]}[T] == 1 by {
        match l[0]
        case B =>
        case P =>
        case T =>
      }
      assert Total(Tally(l)) == multiset(l)[B] + multiset(l)[P] + multiset(l)[T];
    }
  }
}
