/**
 * Ranking of scored candidates: Python's `list.sort(key=score, reverse=True)`,
 * which is stable, so candidates with equal scores keep their input order.
 */
module Ranking {
  /** A candidate paired with its relevance score. */
  datatype Scored<T> = Scored(item: T, score: real)

  /** Scores never increase along `xs`. */
  predicate Descending<T>(xs: seq<Scored<T>>) {
    forall i, j :: 0 <= i < j < |xs| ==> xs[i].score >= xs[j].score
  }

  /** The candidates of `xs` whose score is `v`, in their order in `xs`. */
  function WithScore<T>(xs: seq<Scored<T>>, v: real): (r: seq<Scored<T>>)
    ensures |r| <= |xs|
    ensures forall k :: 0 <= k < |r| ==> r[k].score == v && r[k] in xs
    decreases |xs|
  {
    if |xs| == 0 then []
    else (if xs[0].score == v then [xs[0]] else []) + WithScore(xs[1..], v)
  }

  lemma {:induction false} WithScoreAppend<T>(a: seq<Scored<T>>, b: seq<Scored<T>>, v: real)
    ensures WithScore(a + b, v) == WithScore(a, v) + WithScore(b, v)
    decreases |a|
  {
    if |a| > 0 {
      assert (a + b)[1..] == a[1..] + b;
      WithScoreAppend(a[1..], b, v);
    } else {
      assert a + b == b;
    }
  }

  /** Moving a lower-scored `last` behind the newly placed `x` leaves every score's part in order. */
  lemma InsertBehind<T>(init: seq<Scored<T>>, front: seq<Scored<T>>, x: Scored<T>, last: Scored<T>, v: real)
    requires WithScore(front, v) == WithScore(init, v) + WithScore([x], v)
    requires x.score > last.score
    ensures WithScore(front + [last], v) == WithScore(init + [last], v) + WithScore([x], v)
  {
    WithScoreAppend(front, [last], v);
    WithScoreAppend(init, [last], v);
    if last.score == v {
      assert WithScore([x], v) == [];
    } else {
      assert WithScore([last], v) == [];
    }
  }

  /**
   * Places `x` into the descending `sorted` after every candidate scoring at least
   * as much as `x`, which is where a stable sort puts the candidate that came last.
   */
  function Insert<T>(sorted: seq<Scored<T>>, x: Scored<T>): (r: seq<Scored<T>>)
    requires Descending(sorted)
    ensures |r| == |sorted| + 1
    ensures Descending(r)
    ensures forall k :: 0 <= k < |r| ==> r[k] == x || r[k] in sorted
    ensures forall v :: WithScore(r, v) == WithScore(sorted, v) + WithScore([x], v)
    decreases |sorted|
  {
    if |sorted| == 0 then [x]
    else
      var last := sorted[|sorted| - 1];
      var init := sorted[..|sorted| - 1];
      assert sorted == init + [last];
      if last.score >= x.score then
        assert forall v :: WithScore(sorted + [x], v) == WithScore(sorted, v) + WithScore([x], v) by {
          forall v ensures WithScore(sorted + [x], v) == WithScore(sorted, v) + WithScore([x], v) {
            WithScoreAppend(sorted, [x], v);
          }
        }
        sorted + [x]
      else
        var front := Insert(init, x);
        assert forall k :: 0 <= k < |front| ==> front[k].score >= last.score;
        assert forall v :: WithScore(front + [last], v) == WithScore(sorted, v) + WithScore([x], v) by {
          forall v ensures WithScore(front + [last], v) == WithScore(sorted, v) + WithScore([x], v) {
            InsertBehind(init, front, x, last, v);
          }
        }
        front + [last]
  }

  /**
   * Stable descending sort. The result is descending, and at every score it holds
   * exactly the input's candidates of that score in their input order: nothing is
   * lost, nothing added, and ties keep their order.
   */
  function SortDescending<T>(xs: seq<Scored<T>>): (r: seq<Scored<T>>)
    ensures |r| == |xs|
    ensures Descending(r)
    ensures forall v :: WithScore(r, v) == WithScore(xs, v)
    decreases |xs|
  {
    if |xs| == 0 then []
    else
      var init := xs[..|xs| - 1];
      var r := Insert(SortDescending(init), xs[|xs| - 1]);
      assert forall v :: WithScore(xs, v) == WithScore(init, v) + WithScore([xs[|xs| - 1]], v) by {
        assert xs == init + [xs[|xs| - 1]];
        forall v ensures WithScore(xs, v) == WithScore(init, v) + WithScore([xs[|xs| - 1]], v) {
          WithScoreAppend(init, [xs[|xs| - 1]], v);
        }
      }
      r
  }

  /** A candidate is in `xs` exactly when it is in the part of `xs` with its own score. */
  lemma {:induction false} InWithScore<T>(xs: seq<Scored<T>>, x: Scored<T>)
    ensures x in xs <==> x in WithScore(xs, x.score)
    decreases |xs|
  {
    if |xs| > 0 {
      InWithScore(xs[1..], x);
      assert xs == [xs[0]] + xs[1..];
    }
  }

  /** Sorting keeps exactly the candidates it was given. */
  lemma SortKeepsMembers<T>(xs: seq<Scored<T>>, x: Scored<T>)
    ensures x in SortDescending(xs) <==> x in xs
  {
    InWithScore(xs, x);
    InWithScore(SortDescending(xs), x);
  }

  /** The first candidate of `xs` is the head of the part of `xs` with its score. */
  lemma WithScoreHead<T>(xs: seq<Scored<T>>, v: real)
    requires |xs| > 0
    ensures xs[0].score == v ==> WithScore(xs, v) == [xs[0]] + WithScore(xs[1..], v)
    ensures xs[0].score != v ==> WithScore(xs, v) == WithScore(xs[1..], v)
  {}

  /** A non-empty sequence has candidates at the score of its first one. */
  lemma NonEmptyHasOwnScore<T>(xs: seq<Scored<T>>)
    ensures |xs| > 0 ==> xs[0] in WithScore(xs, xs[0].score)
  {
    if |xs| > 0 {
      WithScoreHead(xs, xs[0].score);
    }
  }

  /** Every candidate of a descending sequence scores at most as much as its first. */
  lemma BelowHead<T>(xs: seq<Scored<T>>, x: Scored<T>, v: real)
    requires Descending(xs) && |xs| > 0 && x in WithScore(xs, v)
    ensures xs[0].score >= x.score
  {
    var part := WithScore(xs, v);
    var k :| 0 <= k < |part| && part[k] == x;
    assert part[k] in xs;
    var j :| 0 <= j < |xs| && xs[j] == x;
    if j > 0 {
      assert xs[0].score >= xs[j].score;
    }
  }

  /** Two non-empty descending sequences that agree at every score start with the same candidate. */
  lemma HeadsAgree<T>(a: seq<Scored<T>>, b: seq<Scored<T>>)
    requires Descending(a) && Descending(b) && |a| > 0 && |b| > 0
    requires forall v :: WithScore(a, v) == WithScore(b, v)
    ensures a[0] == b[0]
  {
    NonEmptyHasOwnScore(a);
    NonEmptyHasOwnScore(b);
    var m := a[0].score;
    assert b[0] in WithScore(a, b[0].score);
    assert a[0] in WithScore(b, m);
    BelowHead(a, b[0], b[0].score);
    BelowHead(b, a[0], m);
    assert b[0].score == m;
    WithScoreHead(a, m);
    WithScoreHead(b, m);
    assert WithScore(a, m)[0] == a[0] && WithScore(b, m)[0] == b[0];
    assert WithScore(a, m) == WithScore(b, m);
  }

  /** Dropping a shared first candidate keeps two sequences in agreement at every score. */
  lemma TailsAgree<T>(a: seq<Scored<T>>, b: seq<Scored<T>>)
    requires |a| > 0 && |b| > 0 && a[0] == b[0]
    requires forall v :: WithScore(a, v) == WithScore(b, v)
    ensures forall v :: WithScore(a[1..], v) == WithScore(b[1..], v)
  {
    forall v ensures WithScore(a[1..], v) == WithScore(b[1..], v) {
      WithScoreHead(a, v);
      WithScoreHead(b, v);
      if v == a[0].score {
        assert WithScore(a[1..], v) == WithScore(a, v)[1..];
        assert WithScore(b[1..], v) == WithScore(b, v)[1..];
      }
    }
  }

  /**
   * Two descending sequences that agree at every score are equal: the stable
   * descending order is unique, so `SortDescending` computes the one and only.
   */
  lemma {:induction false} StableOrderUnique<T>(a: seq<Scored<T>>, b: seq<Scored<T>>)
    requires Descending(a) && Descending(b)
    requires forall v :: WithScore(a, v) == WithScore(b, v)
    ensures a == b
    decreases |a|
  {
    NonEmptyHasOwnScore(a);
    NonEmptyHasOwnScore(b);
    if |a| > 0 && |b| > 0 {
      HeadsAgree(a, b);
      TailsAgree(a, b);
      StableOrderUnique(a[1..], b[1..]);
      assert a == [a[0]] + a[1..] && b == [b[0]] + b[1..];
    }
  }

  /** Any descending arrangement that keeps every score's candidates in input order is the sort's result. */
  lemma SortIsStableOrder<T>(xs: seq<Scored<T>>, ys: seq<Scored<T>>)
    requires Descending(ys)
    requires forall v :: WithScore(ys, v) == WithScore(xs, v)
    ensures SortDescending(xs) == ys
  {
    StableOrderUnique(SortDescending(xs), ys);
  }
}
