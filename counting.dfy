/** Counting occurrences of a context (a short run of outcomes) in a history.
    Every frequency table of the predictor is a table of such counts: the order-1
    table counts runs of length 2, the order-2 table runs of length 3 and the
    block table runs of length 4. */
module Counting {
  import opened Outcomes

  /** The history without its last outcome (the empty history stays empty). */
  function Front(s: seq<Outcome>): (f: seq<Outcome>)
    ensures |f| == if s == [] then 0 else |s| - 1
  {
    if s == [] then [] else s[..|s| - 1]
  }

  /** `w` is the trailing run of `s`. */
  predicate EndsWith(s: seq<Outcome>, w: seq<Outcome>)
  {
    |w| <= |s| && s[|s| - |w|..] == w
  }

  /** `w` occurs in `s` starting at index `i`. */
  predicate OccursAt(s: seq<Outcome>, w: seq<Outcome>, i: int)
  {
    0 <= i && i + |w| <= |s| && s[i..i + |w|] == w
  }

  /** An occurrence is a match of every element of the run. */
  lemma OccursAtElements(s: seq<Outcome>, w: seq<Outcome>, i: int)
    requires 0 <= i && i + |w| <= |s|
    ensures OccursAt(s, w, i) <==> forall j | 0 <= j < |w| :: s[i + j] == w[j]
  {
    if forall j | 0 <= j < |w| :: s[i + j] == w[j] {
      assert s[i..i + |w|] == w;
    }
  }

  /** The history ends with the pair `(a, b)` exactly when its last two outcomes are
      `a` and `b`. */
  lemma EndsWithPair(s: seq<Outcome>, a: Outcome, b: Outcome)
    requires |s| >= 2
    ensures EndsWith(s, [a, b]) <==> s[|s| - 2] == a && s[|s| - 1] == b
  {
    assert s[|s| - 2..] == [s[|s| - 2], s[|s| - 1]];
  }

  /** The history ends with the triple `(a, b, c)` exactly when its last three
      outcomes are `a`, `b` and `c`. */
  lemma EndsWithTriple(s: seq<Outcome>, a: Outcome, b: Outcome, c: Outcome)
    requires |s| >= 3
    ensures EndsWith(s, [a, b, c]) <==> s[|s| - 3] == a && s[|s| - 2] == b && s[|s| - 1] == c
  {
    assert s[|s| - 3..] == [s[|s| - 3], s[|s| - 2], s[|s| - 1]];
  }

  /** Number of start indices at which `w` occurs in `s` (overlapping occurrences
      count separately). */
  function Occ(s: seq<Outcome>, w: seq<Outcome>): nat
    decreases |s|
  {
    (if EndsWith(s, w) then 1 else 0) + (if s == [] then 0 else Occ(Front(s), w))
  }

  /** Number of occurrences of `w` in `s` that some outcome follows: the number of
      times `w` has been seen as a context. */
  function ContextCount(s: seq<Outcome>, w: seq<Outcome>): nat
  {
    if s == [] then 0 else Occ(Front(s), w)
  }

  /** Appending one outcome adds exactly the occurrence that ends at the new outcome. */
  lemma OccAppend(s: seq<Outcome>, x: Outcome, w: seq<Outcome>)
    ensures Occ(s + [x], w) == Occ(s, w) + (if EndsWith(s + [x], w) then 1 else 0)
    ensures ContextCount(s + [x], w) == Occ(s, w)
  {
    assert Front(s + [x]) == s;
  }

  /** An occurrence in the front of a history is an occurrence in the history. */
  lemma OccursInFront(s: seq<Outcome>, w: seq<Outcome>, i: int)
    requires s != [] && OccursAt(Front(s), w, i)
    ensures OccursAt(s, w, i)
  {
    assert s[i..i + |w|] == Front(s)[i..i + |w|];
  }

  /** An occurrence in a history either ends at its last outcome or lies in its front. */
  lemma OccursInLastOrFront(s: seq<Outcome>, w: seq<Outcome>, i: int)
    requires s != [] && OccursAt(s, w, i)
    ensures EndsWith(s, w) || OccursAt(Front(s), w, i)
  {
    if i + |w| < |s| {
      assert Front(s)[i..i + |w|] == s[i..i + |w|];
    }
  }

  /** A run longer than the history is never counted. */
  lemma {:induction false} OccShort(s: seq<Outcome>, w: seq<Outcome>)
    requires |s| < |w|
    ensures Occ(s, w) == 0
    decreases |s|
  {
    if s != [] {
      OccShort(Front(s), w);
    }
  }

  /** `w` is counted in `s` exactly when it occurs somewhere in `s`. */
  lemma {:induction false} OccPositive(s: seq<Outcome>, w: seq<Outcome>)
    requires w != []
    ensures Occ(s, w) > 0 <==> exists i :: OccursAt(s, w, i)
    decreases |s|
  {
    if s != [] {
      var f := Front(s);
      OccPositive(f, w);
      if Occ(s, w) > 0 {
        if EndsWith(s, w) {
          assert OccursAt(s, w, |s| - |w|);
        } else {
          var i :| OccursAt(f, w, i);
          OccursInFront(s, w, i);
        }
      }
      if i :| OccursAt(s, w, i) {
        OccursInLastOrFront(s, w, i);
      }
    }
  }

  /** `w` has been seen as a context exactly when it occurs somewhere in `s` with at
      least one outcome after it. */
  lemma ContextPositive(s: seq<Outcome>, w: seq<Outcome>)
    requires w != []
    ensures ContextCount(s, w) > 0 <==> exists i :: OccursAt(s, w, i) && i + |w| < |s|
  {
    if s != [] {
      var f := Front(s);
      OccPositive(f, w);
      forall i | OccursAt(f, w, i) ensures OccursAt(s, w, i) && i + |w| < |s| {
        assert s[i..i + |w|] == f[i..i + |w|];
      }
      forall i | OccursAt(s, w, i) && i + |w| < |s| ensures OccursAt(f, w, i) {
        assert f[i..i + |w|] == s[i..i + |w|];
      }
    }
  }

  /** The extended history ends with `w` followed by `c` exactly when the history ends
      with `w` and the new outcome is `c`. */
  lemma EndsWithExtend(p: seq<Outcome>, x: Outcome, w: seq<Outcome>, c: Outcome)
    ensures EndsWith(p + [x], w + [c]) <==> EndsWith(p, w) && x == c
  {
    var s := p + [x];
    if EndsWith(s, w + [c]) {
      assert p[|p| - |w|..] == s[|s| - |w + [c]|..][..|w|];
    }
    if EndsWith(p, w) && x == c {
      assert s[|s| - |w + [c]|..] == p[|p| - |w|..] + [x];
    }
  }

  /** The follower counts of a context add up to the number of times the context was
      seen: every occurrence of `w` that some outcome follows is followed by exactly
      one of B, P and T. */
  lemma {:induction false} FollowerSum(s: seq<Outcome>, w: seq<Outcome>)
    ensures Occ(s, w + [B]) + Occ(s, w + [P]) + Occ(s, w + [T]) == ContextCount(s, w)
    decreases |s|
  {
    if s != [] {
      var f, x := Front(s), s[|s| - 1];
      FollowerSum(f, w);
      assert s == f + [x];
      forall c: Outcome ensures EndsWith(s, w + [c]) <==> EndsWith(f, w) && x == c {
        EndsWithExtend(f, x, w, c);
      }
      assert ContextCount(s, w) == (if EndsWith(f, w) then 1 else 0) + ContextCount(f, w);
    }
  }

  /** If a context occurs at `i`, its tail occurs one step later: a run of length
      k+1 seen as a context implies its last k outcomes were seen as a context. */
  lemma ContextTail(s: seq<Outcome>, w: seq<Outcome>)
    requires |w| >= 2
    requires ContextCount(s, w) > 0
    ensures ContextCount(s, w[1..]) > 0
  {
    ContextPositive(s, w);
    var i :| OccursAt(s, w, i) && i + |w| < |s|;
    assert s[i + 1..i + 1 + |w[1..]|] == s[i..i + |w|][1..];
    assert OccursAt(s, w[1..], i + 1);
    ContextPositive(s, w[1..]);
  }

  /** An outcome counted right after the context `w` occurs at some index past the
      length of the context. */
  lemma FollowerOccurs(s: seq<Outcome>, w: seq<Outcome>, c: Outcome)
    requires Occ(s, w + [c]) > 0
    ensures exists i :: |w| <= i < |s| && s[i] == c
  {
    OccPositive(s, w + [c]);
    var i :| OccursAt(s, w + [c], i);
    OccursAtElements(s, w + [c], i);
    assert s[i + |w|] == (w + [c])[|w|] == c;
  }

  /** A run found element by element in the history is counted in it. */
  lemma CountedAt(s: seq<Outcome>, w: seq<Outcome>, i: int)
    requires w != [] && 0 <= i && i + |w| <= |s|
    requires forall j | 0 <= j < |w| :: s[i + j] == w[j]
    ensures Occ(s, w) > 0
  {
    OccursAtElements(s, w, i);
    OccPositive(s, w);
  }

  /** Two adjacent outcomes of the history are a counted pair. */
  lemma PairCounted(s: seq<Outcome>, i: int)
    requires 1 <= i < |s|
    ensures Occ(s, [s[i - 1], s[i]]) > 0
  {
    CountedAt(s, [s[i - 1], s[i]], i - 1);
  }

  /** Three adjacent outcomes of the history are a counted triple. */
  lemma TripleCounted(s: seq<Outcome>, i: int)
    requires 2 <= i < |s|
    ensures Occ(s, [s[i - 2], s[i - 1], s[i]]) > 0
  {
    CountedAt(s, [s[i - 2], s[i - 1], s[i]], i - 2);
  }


  /** A single outcome has been seen as a context exactly when it occurs before the
      last position. */
  lemma SingleContextPositive(s: seq<Outcome>, a: Outcome)
    ensures ContextCount(s, [a]) > 0 <==> exists i :: 0 <= i < |s| - 1 && s[i] == a
  {
    ContextPositive(s, [a]);
    if ContextCount(s, [a]) > 0 {
      var i :| OccursAt(s, [a], i) && i + 1 < |s|;
      OccursAtElements(s, [a], i);
      assert s[i] == a;
    }
    if i :| 0 <= i < |s| - 1 && s[i] == a {
      OccursAtElements(s, [a], i);
      assert OccursAt(s, [a], i) && i + 1 < |s|;
    }
  }

  /** An ordered pair has been seen as a context exactly when it starts at an index
      at or below `|s| - 3`. */
  lemma PairContextPositive(s: seq<Outcome>, a: Outcome, b: Outcome)
    ensures ContextCount(s, [a, b]) > 0 <==> exists i :: 0 <= i < |s| - 2 && s[i] == a && s[i + 1] == b
  {
    PairContextAt(s, [a, b]);
  }

  /** `PairContextPositive` for a context given as a value of length two. */
  lemma PairContextAt(s: seq<Outcome>, w: seq<Outcome>)
    requires |w| == 2
    ensures ContextCount(s, w) > 0 <==> exists i :: 0 <= i < |s| - 2 && s[i] == w[0] && s[i + 1] == w[1]
  {
    ContextPositive(s, w);
    if ContextCount(s, w) > 0 {
      var i :| OccursAt(s, w, i) && i + 2 < |s|;
      OccursAtElements(s, w, i);
      assert s[i + 1] == w[1];
    }
    if i :| 0 <= i < |s| - 2 && s[i] == w[0] && s[i + 1] == w[1] {
      OccursAtElements(s, w, i);
      assert OccursAt(s, w, i) && i + 2 < |s|;
    }
  }

  /** Appending one outcome never decreases a count. */
  lemma CountsGrow(s: seq<Outcome>, x: Outcome, w: seq<Outcome>)
    ensures Occ(s, w) <= Occ(s + [x], w)
    ensures ContextCount(s, w) <= ContextCount(s + [x], w)
  {
    OccAppend(s, x, w);
    if s != [] {
      OccAppend(Front(s), s[|s| - 1], w);
    }
  }
}
