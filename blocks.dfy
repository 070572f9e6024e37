/** The block model: every window of `BlockSize` consecutive outcomes that some
    outcome follows, with the list of outcomes seen right after it; the prediction is
    the share of each follower of the trailing window. */
module Blocks {
  import opened Outcomes
  import opened Counting
  import opened Counters

  /** The window length the predictor uses (`bloco_tam`, 3 at every call). */
  const BlockSize: nat := 3

  /** Window -> the outcomes seen right after each of its occurrences, in order. */
  type Table = map<seq<Outcome>, seq<Outcome>>

  /** `blocos[key].append(x)` on a table whose missing keys start as empty lists. */
  function Append(t: Table, key: seq<Outcome>, x: Outcome): (r: Table)
    ensures r.Keys == t.Keys + {key}
    ensures forall k | k in t && k != key :: r[k] == t[k]
    ensures r[key] == (if key in t then t[key] else []) + [x]
  {
    t[key := (if key in t then t[key] else []) + [x]]
  }

  /** The block table of a history, one window at a time: the window starting at `i`
      is recorded with the outcome at `i + BlockSize`, for every `i` up to
      `|s| - BlockSize - 1`. */
  function Windows(s: seq<Outcome>): Table
  {
    if |s| <= BlockSize then map[]
    else Append(Windows(Front(s)), s[|s| - 1 - BlockSize..|s| - 1], s[|s| - 1])
  }

  /** A history of at most `BlockSize` outcomes has seen no window as a context. */
  lemma NoContextYet(s: seq<Outcome>, w: seq<Outcome>)
    requires |s| <= BlockSize && |w| == BlockSize
    ensures ContextCount(s, w) == 0
  {
    if s != [] {
      OccShort(Front(s), w);
    }
  }

  /** The trailing window of `p` is the only window the new outcome `x` follows. */
  lemma FollowerAppend(p: seq<Outcome>, x: Outcome, w: seq<Outcome>, c: Outcome)
    requires |p| >= BlockSize && |w| == BlockSize
    ensures Occ(p + [x], w + [c]) == Occ(p, w + [c]) + (if w == p[|p| - BlockSize..] && c == x then 1 else 0)
  {
    OccAppend(p, x, w + [c]);
    EndsWithExtend(p, x, w, c);
    assert EndsWith(p, w) <==> w == p[|p| - BlockSize..];
  }

  /** One step of `WindowsCount` for the keys: a window is a key after `x` is
      recorded exactly when it has been seen as a context in `p + [x]`. */
  lemma WindowKeyAppend(p: seq<Outcome>, x: Outcome, w: seq<Outcome>, before: Table)
    requires |p| >= BlockSize && |w| == BlockSize
    requires w in before <==> ContextCount(p, w) > 0
    ensures w in Append(before, p[|p| - BlockSize..], x) <==> ContextCount(p + [x], w) > 0
  {
    OccAppend(p, x, w);
    assert EndsWith(p, w) <==> w == p[|p| - BlockSize..];
  }

  /** One step of `WindowsCount` for the lists: the list of a window holds each
      follower as often as it followed the window, before and after `x` is recorded. */
  lemma WindowListAppend(p: seq<Outcome>, x: Outcome, w: seq<Outcome>, before: Table)
    requires |p| >= BlockSize && |w| == BlockSize
    requires w in before <==> ContextCount(p, w) > 0
    requires w in before ==> forall c :: multiset(before[w])[c] == Occ(p, w + [c])
    requires w in Append(before, p[|p| - BlockSize..], x)
    ensures forall c :: multiset(Append(before, p[|p| - BlockSize..], x)[w])[c] == Occ(p + [x], w + [c])
  {
    var key := p[|p| - BlockSize..];
    var after := Append(before, key, x);
    if w !in before {
      FollowerSum(p, w);
    }
    forall c ensures multiset(after[w])[c] == Occ(p + [x], w + [c]) {
      FollowerAppend(p, x, w, c);
      if w !in before {
        assert Occ(p, w + [c]) == 0 by {
          match c
          case B =>
          case P =>
          case T =>
        }
      }
    }
  }

  /** One step of `WindowsCount`: the facts for one window carry over from `p` to
      `p + [x]`. */
  lemma WindowAppend(p: seq<Outcome>, x: Outcome, w: seq<Outcome>, before: Table)
    requires |p| >= BlockSize && |w| == BlockSize
    requires w in before <==> ContextCount(p, w) > 0
    requires w in before ==> forall c :: multiset(before[w])[c] == Occ(p, w + [c])
    ensures var after := Append(before, p[|p| - BlockSize..], x);
      && (w in after <==> ContextCount(p + [x], w) > 0)
      && (w in after ==> forall c :: multiset(after[w])[c] == Occ(p + [x], w + [c]))
  {
    WindowKeyAppend(p, x, w, before);
    if w in Append(before, p[|p| - BlockSize..], x) {
      WindowListAppend(p, x, w, before);
    }
  }

  /** The block table holds exactly the windows seen as a context, and the list of a
      window holds each follower as often as the window followed by it occurs. */
  lemma {:induction false} WindowsCount(s: seq<Outcome>)
    ensures forall w :: w in Windows(s) <==> |w| == BlockSize && ContextCount(s, w) > 0
    ensures forall w | w in Windows(s) :: forall c :: multiset(Windows(s)[w])[c] == Occ(s, w + [c])
    decreases |s|
  {
    if |s| <= BlockSize {
      forall w | |w| == BlockSize ensures ContextCount(s, w) == 0 {
        NoContextYet(s, w);
      }
    } else {
      var p, x := Front(s), s[|s| - 1];
      assert s == p + [x];
      assert s[|s| - 1 - BlockSize..|s| - 1] == p[|p| - BlockSize..];
      var before := Windows(p);
      assert Windows(s) == Append(before, p[|p| - BlockSize..], x);
      WindowsCount(p);
      assert forall w | w in Windows(s) :: |w| == BlockSize;
      forall w | |w| == BlockSize
        ensures w in Windows(s) <==> ContextCount(s, w) > 0
        ensures w in Windows(s) ==> forall c :: multiset(Windows(s)[w])[c] == Occ(s, w + [c])
      {
        WindowAppend(p, x, w, before);
      }
    }
  }

  /** Recording the window starting at `i` extends the table of the prefix that ends
      just before its follower. */
  lemma WindowsStep(s: seq<Outcome>, i: nat)
    requires i + BlockSize < |s|
    ensures Windows(s[..i + BlockSize + 1]) == Append(Windows(s[..i + BlockSize]), s[i..i + BlockSize], s[i + BlockSize])
  {
    var q := s[..i + BlockSize + 1];
    assert Front(q) == s[..i + BlockSize];
    assert q[|q| - 1 - BlockSize..|q| - 1] == s[i..i + BlockSize];
  }

  /** Records every window of the history with the outcome that follows it
      (`blocos[tuple(seq[i:i + 3])].append(seq[i + 3])` for `i` in
      `range(len(seq) - 3)`). */
  method CollectWindows(s: seq<Outcome>) returns (blocks: Table)
    ensures blocks == Windows(s)
  {
    blocks := map[];
    if |s| <= BlockSize {
      // `range(len(seq) - 3)` is empty
      return;
    }
    for i := 0 to |s| - BlockSize
      invariant blocks == Windows(s[..i + BlockSize])
    {
      WindowsStep(s, i);
      blocks := Append(blocks, s[i..i + BlockSize], s[i + BlockSize]);
    }
    assert s[..|s|] == s;
  }

  /** The window of `BlockSize` outcomes starting at `i`. */
  function WindowAt(s: seq<Outcome>, i: int): seq<Outcome>
    requires 0 <= i && i + BlockSize <= |s|
  {
    s[i..i + BlockSize]
  }

  /** Each key of the block table is a window starting at an index at or below
      `|s| - BlockSize - 1`. */
  lemma KeyIsWindow(s: seq<Outcome>, w: seq<Outcome>)
    requires w in Windows(s)
    ensures exists i :: 0 <= i && i + BlockSize < |s| && WindowAt(s, i) == w
  {
    WindowsCount(s);
    ContextPositive(s, w);
    var i :| OccursAt(s, w, i) && i + |w| < |s|;
    assert WindowAt(s, i) == w;
  }

  /** Each window starting at an index at or below `|s| - BlockSize - 1` is a key. */
  lemma WindowIsKey(s: seq<Outcome>, i: int)
    requires 0 <= i && i + BlockSize < |s|
    ensures WindowAt(s, i) in Windows(s)
  {
    var w := WindowAt(s, i);
    assert OccursAt(s, w, i);
    ContextPositive(s, w);
    WindowsCount(s);
  }

  /** The keys of the block table are exactly the windows `s[i..i + BlockSize]` that
      start at an index `i <= |s| - BlockSize - 1`; the trailing window is a key only
      when it also occurs earlier. */
  lemma WindowKeys(s: seq<Outcome>)
    ensures Windows(s).Keys == set i | 0 <= i && i + BlockSize < |s| :: WindowAt(s, i)
  {
    forall w | w in Windows(s) ensures w in set i | 0 <= i && i + BlockSize < |s| :: WindowAt(s, i) {
      KeyIsWindow(s, w);
    }
    forall i | 0 <= i && i + BlockSize < |s| ensures WindowAt(s, i) in Windows(s) {
      WindowIsKey(s, i);
    }
  }

  /** The list of a window has one entry per time the window was seen as a context. */
  lemma WindowLength(s: seq<Outcome>, w: seq<Outcome>)
    requires w in Windows(s)
    ensures |Windows(s)[w]| == ContextCount(s, w) > 0
  {
    var l := Windows(s)[w];
    WindowsCount(s);
    TallyTotal(l);
    FollowerSum(s, w);
    assert Total(Tally(l)) == multiset(l)[B] + multiset(l)[P] + multiset(l)[T];
  }

  /** The trailing window (`tuple(seq[-3:])`): the last `BlockSize` outcomes, or the
      whole history when it is shorter. */
  function LastBlock(s: seq<Outcome>): seq<Outcome>
  {
    if |s| <= BlockSize then s else s[|s| - BlockSize..]
  }

  /** The block prediction: when the trailing window was seen before, the share of
      each outcome among those that followed it; otherwise no data. */
  function BlockPrediction(s: seq<Outcome>): Distribution
  {
    var t, key := Windows(s), LastBlock(s);
    if key in t then
      WindowLength(s, key);
      TallyTotal(t[key]);
      Shares(Tally(t[key]), Tally(t[key]).Keys)
    else
      map[]
  }

  /** Records the windows of the history and reads off the followers of the trailing
      window (`prever_por_blocos`). */
  method PredictByBlocks(s: seq<Outcome>) returns (pred: Distribution)
    ensures pred == BlockPrediction(s)
  {
    var blocks := CollectWindows(s);
    var key := LastBlock(s);
    if key in blocks {
      var counts := Tally(blocks[key]);
      WindowLength(s, key);
      TallyTotal(blocks[key]);
      pred := Shares(counts, counts.Keys);
    } else {
      pred := map[];
    }
  }

  /** A window is a key of the block table exactly when it has been seen as a context
      (an instance of `WindowsCount`). */
  lemma WindowsAt(s: seq<Outcome>, w: seq<Outcome>)
    ensures w in Windows(s) <==> |w| == BlockSize && ContextCount(s, w) > 0
  {
    WindowsCount(s);
  }

  /** The block prediction has no data exactly when the history has at most
      `BlockSize` outcomes or the trailing window was never seen as a context. */
  lemma BlockPredictionEmpty(s: seq<Outcome>)
    ensures BlockPrediction(s) == map[] <==> |s| <= BlockSize || ContextCount(s, LastBlock(s)) == 0
  {
    var t, w := Windows(s), LastBlock(s);
    WindowsAt(s, w);
    if |s| <= BlockSize {
      if s != [] {
        OccShort(Front(s), w);
      }
    } else if w in t {
      WindowLength(s, w);
      TallyTotal(t[w]);
      var c :| c in t[w];
      assert c in Tally(t[w]);
      assert BlockPrediction(s) == Shares(Tally(t[w]), Tally(t[w]).Keys);
      assert c in BlockPrediction(s);
    }
  }

  /** Past `BlockSize` outcomes, the block prediction has no data exactly when the
      trailing window never starts at an index at or below `|s| - BlockSize - 1`. */
  lemma BlockPredictionUnseen(s: seq<Outcome>)
    requires |s| > BlockSize
    ensures BlockPrediction(s) == map[] <==>
      forall i | 0 <= i && i + BlockSize < |s| :: WindowAt(s, i) != LastBlock(s)
  {
    var w := LastBlock(s);
    BlockPredictionEmpty(s);
    WindowsAt(s, w);
    if w in Windows(s) {
      KeyIsWindow(s, w);
    } else {
      forall i | 0 <= i && i + BlockSize < |s| ensures WindowAt(s, i) != w {
        WindowIsKey(s, i);
      }
    }
  }

  /** When the trailing window was seen before, the block prediction is a distribution
      over the outcomes that followed it, each with its number of occurrences after the
      window over the number of earlier occurrences of the window. */
  lemma BlockPredictionShares(s: seq<Outcome>)
    requires |s| > BlockSize && ContextCount(s, LastBlock(s)) > 0
    ensures var w, d := LastBlock(s), BlockPrediction(s);
      && IsDistribution(d)
      && (forall c :: c in d <==> Occ(s, w + [c]) > 0)
      && (forall c :: Get(d, c) == (Occ(s, w + [c]) as real) / (ContextCount(s, w) as real))
  {
    var t, w := Windows(s), LastBlock(s);
    WindowsCount(s);
    var l := t[w];
    WindowLength(s, w);
    TallyTotal(l);
    SharesDistribution(Tally(l), Tally(l).Keys);
    forall c ensures c in Tally(l) <==> Occ(s, w + [c]) > 0 {
      assert c in l <==> multiset(l)[c] > 0;
    }
  }

  /** Appending an outcome never removes a window, and the list of every window only
      grows at its end: no count ever decreases. */
  lemma WindowsGrow(s: seq<Outcome>, x: Outcome)
    ensures forall w | w in Windows(s) :: w in Windows(s + [x]) && Windows(s)[w] <= Windows(s + [x])[w]
  {
    if |s| >= BlockSize {
      var t := s + [x];
      assert Front(t) == s;
      AppendGrows(Windows(s), t[|t| - 1 - BlockSize..|t| - 1], x);
    }
  }

  /** Appending to one list leaves every list a prefix of its new value. */
  lemma AppendGrows(t: Table, key: seq<Outcome>, x: Outcome)
    ensures forall w | w in t :: w in Append(t, key, x) && t[w] <= Append(t, key, x)[w]
  {
  }
}
