/**
std::sort may leave points at the same position in any order (src/server/image/ImageContent.cc).
Which crops can come out, over all these orders, and when are they all optimal?
 */
module TieOrders {
  import opened SquareCrop

  // Some order of the points makes the algorithm choose position p.
  ghost predicate ChoosesBy(cs: seq<Content>, w: int, p: int,
                            s: seq<InflectionPoint>, from: nat, r: seq<InflectionPoint>, best: nat) {
    Swept(cs, w, s, from, r) && FirstBest(r, best) && r[best].pos == p
  }

  ghost predicate CanChoose(cs: seq<Content>, w: int, p: int) {
    exists s, from: nat, r, best: nat :: ChoosesBy(cs, w, p, s, from, r, best)
  }

  // ------------------------------------------------------------------
  // The order that favours position q: there points enter first, elsewhere they leave first
  // ------------------------------------------------------------------

  function Key(q: int): InflectionPoint -> int {
    (p: InflectionPoint) => 2 * p.pos + if (p.score > 0) == (p.pos == q) then 0 else 1
  }

  ghost predicate Ordered(s: seq<InflectionPoint>, key: InflectionPoint -> int) {
    forall i, j :: 0 <= i <= j < |s| ==> key(s[i]) <= key(s[j])
  }

  lemma InsertBy(s: seq<InflectionPoint>, x: InflectionPoint, key: InflectionPoint -> int) returns (r: seq<InflectionPoint>)
    requires Ordered(s, key)
    ensures Ordered(r, key) && multiset(r) == multiset(s) + multiset{x}
  {
    var k := PrefixBelow(s, key, key(x));
    InsertedOnce(s, x, k);
    r := s[..k] + [x] + s[k..];
  }

  lemma {:induction false} SortBy(points: seq<InflectionPoint>, key: InflectionPoint -> int) returns (s: seq<InflectionPoint>)
    ensures Ordered(s, key) && multiset(s) == multiset(points)
  {
    if points == [] {
      s := [];
    } else {
      var rest := SortBy(points[1..], key);
      s := InsertBy(rest, points[0], key);
      assert points == [points[0]] + points[1..];
    }
  }

  // The points with keys up to the limit form a prefix.
  lemma PrefixBelow(s: seq<InflectionPoint>, key: InflectionPoint -> int, limit: int) returns (m: nat)
    requires Ordered(s, key)
    ensures m <= |s|
    ensures forall i :: 0 <= i < m ==> key(s[i]) <= limit
    ensures forall i :: m <= i < |s| ==> limit < key(s[i])
  {
    m := 0;
    while m < |s| && key(s[m]) <= limit
      invariant m <= |s| && forall i :: 0 <= i < m ==> key(s[i]) <= limit
    {
      m := m + 1;
    }
  }

  lemma OrderedIsSorted(s: seq<InflectionPoint>, q: int)
    requires Ordered(s, Key(q))
    ensures Sorted(s)
  {
    forall i, j | 0 <= i <= j < |s| ensures s[i].pos <= s[j].pos {
      assert Key(q)(s[i]) <= Key(q)(s[j]);
    }
  }

  // At the favoured position the total reaches all that the window covers.
  lemma FavouredTotal(s: seq<InflectionPoint>, q: int, m: nat)
    requires m <= |s| && (forall i :: 0 <= i < m ==> Key(q)(s[i]) <= 2 * q) && (forall i :: m <= i < |s| ==> 2 * q < Key(q)(s[i]))
    ensures Sum(s[..m], Score()) == Sum(s, AtBest(q))
  {
    SplitSum(s, m, AtBest(q));
    SumSame(s[..m], Score(), AtBest(q));
    SumSame(s[m..], AtBest(q), (p: InflectionPoint) => 0);
    Zero(s[m..]);
  }

  lemma AtMostUpTo(s: seq<InflectionPoint>, m: nat, p: int)
    requires m <= |s| && (forall i :: 0 <= i < m ==> s[i].pos <= p)
    requires forall i :: m <= i < |s| ==> s[i].pos > p || s[i].score >= 0
    ensures Sum(s[..m], Score()) <= Sum(s, UpTo(p))
  {
    SplitSum(s, m, UpTo(p));
    SumSame(s[..m], Score(), UpTo(p));
    Zero(s[m..]);
    SumAtMost(s[m..], (x: InflectionPoint) => 0, UpTo(p));
  }

  lemma AtMostBefore(s: seq<InflectionPoint>, m: nat, p: int)
    requires m <= |s| && (forall i :: m <= i < |s| ==> p <= s[i].pos)
    requires forall i :: 0 <= i < m ==> s[i].pos < p || s[i].score <= 0
    ensures Sum(s[..m], Score()) <= Sum(s, UpTo(p - 1))
  {
    SplitSum(s, m, UpTo(p - 1));
    SumAtMost(s[..m], Score(), UpTo(p - 1));
    SumSame(s[m..], UpTo(p - 1), (x: InflectionPoint) => 0);
    Zero(s[m..]);
  }

  // Elsewhere no total exceeds what is covered ahead there or just before.
  lemma UnfavouredTotal(s: seq<InflectionPoint>, q: int, m: nat)
    requires Ordered(s, Key(q)) && 0 < m <= |s| && s[m - 1].pos != q
    ensures var p := s[m - 1].pos;
            Sum(s[..m], Score()) <= Sum(s, UpTo(p)) || Sum(s[..m], Score()) <= Sum(s, UpTo(p - 1))
  {
    var p := s[m - 1].pos;
    OrderedIsSorted(s, q);
    if s[m - 1].score > 0 {
      forall i | m <= i < |s| ensures s[i].pos > p || s[i].score >= 0 {
        assert Key(q)(s[m - 1]) <= Key(q)(s[i]);
      }
      AtMostUpTo(s, m, p);
    } else {
      forall i | 0 <= i < m ensures s[i].pos < p || s[i].score <= 0 {
        assert Key(q)(s[i]) <= Key(q)(s[m - 1]);
      }
      AtMostBefore(s, m, p);
    }
  }

  // ------------------------------------------------------------------
  // With that order a possible position is chosen
  // ------------------------------------------------------------------

  lemma PrefixIsAhead(cs: seq<Content>, w: int, s: seq<InflectionPoint>, m: nat, q: int)
    requires Scored(cs) && Narrow(cs, w) && multiset(s) == multiset(Points(cs, w)) && m <= |s|
    requires (forall i :: 0 <= i < m ==> s[i].pos <= q) && (forall i :: m <= i < |s| ==> q < s[i].pos)
    ensures Sum(s[..m], Score()) == CoveredAhead(cs, w, q)
  {
    PrefixMeasure(cs, w, s, q);
    PrefixSum(s, m, q);
  }

  lemma ClampOf(s: seq<InflectionPoint>) returns (from: nat, r: seq<InflectionPoint>)
    requires Sorted(s)
    ensures Clamped(s, from, r)
  {
    var m := 0;
    while m < |s| && s[m].pos < 0
      invariant m <= |s| && forall i :: 0 <= i < m ==> s[i].pos < 0
    {
      m := m + 1;
    }
    from, r := m, s[m..];
    if 0 < m < |s| {
      from, r := m - 1, [s[m - 1].(pos := 0)] + s[m..];
      assert forall i :: 1 <= i < |r| ==> r[i] == s[m - 1 + i];
    }
  }

  // The swept list of a sorted order.
  lemma SweepOf(cs: seq<Content>, w: int, s: seq<InflectionPoint>) returns (from: nat, r: seq<InflectionPoint>)
    requires Scored(cs) && Sorted(s) && multiset(s) == multiset(Points(cs, w))
    ensures Swept(cs, w, s, from, r)
  {
    var acc := seq(|s|, i requires 0 <= i < |s| => s[i].(total := Sum(s[..i + 1], Score())));
    assert Accumulated(s, acc);
    assert forall i :: 0 <= i < |s| ==> acc[i].pos == s[i].pos;
    from, r := ClampOf(acc);
  }

  // A total away from position q is at most what some position up to there covers ahead.
  lemma PrefixSource(cs: seq<Content>, w: int, s: seq<InflectionPoint>, q: int, m: nat) returns (x: int)
    requires Scored(cs) && Narrow(cs, w) && multiset(s) == multiset(Points(cs, w)) && Ordered(s, Key(q))
    requires 0 < m <= |s| && s[m - 1].pos != q
    ensures s[m - 1].pos - 1 <= x <= s[m - 1].pos && Sum(s[..m], Score()) <= CoveredAhead(cs, w, x)
  {
    var p := s[m - 1].pos;
    UnfavouredTotal(s, q, m);
    PrefixMeasure(cs, w, s, p);
    PrefixMeasure(cs, w, s, p - 1);
    x := if Sum(s[..m], Score()) <= Sum(s, UpTo(p)) then p else p - 1;
  }

  lemma TotalSource(cs: seq<Content>, w: int, s: seq<InflectionPoint>, from: nat, r: seq<InflectionPoint>, q: int, i: nat)
    returns (x: int)
    requires Swept(cs, w, s, from, r) && Narrow(cs, w) && Ordered(s, Key(q)) && i < |r| && r[i].pos != q
    ensures -1 <= x <= r[i].pos && r[i].pos >= 0 && r[i].total <= CoveredAhead(cs, w, x)
  {
    var e := from + i;
    SweptTotals(cs, w, s, from, r, i);
    if s[e].pos < 0 {
      PrefixIsAhead(cs, w, s, e + 1, -1);
      x := -1;
    } else {
      x := PrefixSource(cs, w, s, q, e + 1);
    }
  }

  lemma PossibleBeats(cs: seq<Content>, w: int, q: int, x: int)
    requires Possible(cs, w, q) && -1 <= x
    ensures CoveredAhead(cs, w, x) <= Covered(cs, w, q)
    ensures 0 < q && x < q ==> CoveredAhead(cs, w, x) < Covered(cs, w, q)
  {}

  // Every total before position q is less than what q covers, every other one at most that.
  lemma {:induction false} TotalBound(cs: seq<Content>, w: int, s: seq<InflectionPoint>, from: nat, r: seq<InflectionPoint>, q: int, i: nat)
    requires Swept(cs, w, s, from, r) && Narrow(cs, w) && Ordered(s, Key(q)) && Possible(cs, w, q) && i < |r|
    ensures r[i].total <= Covered(cs, w, q)
    ensures r[i].pos < q ==> r[i].total < Covered(cs, w, q)
  {
    if r[i].pos == q {
      TotalIsHonest(cs, w, s, from, r, i);
    } else {
      var x := TotalSource(cs, w, s, from, r, q, i);
      PossibleBeats(cs, w, q, x);
    }
  }

  // One total at position q is all that q covers.
  lemma TotalReached(cs: seq<Content>, w: int, s: seq<InflectionPoint>, from: nat, r: seq<InflectionPoint>, q: int) returns (k: nat)
    requires Swept(cs, w, s, from, r) && Narrow(cs, w) && Ordered(s, Key(q)) && Possible(cs, w, q) && r != []
    ensures k < |r| && r[k].pos == q && r[k].total == Covered(cs, w, q)
  {
    var m := PrefixBelow(s, Key(q), 2 * q);
    FavouredTotal(s, q, m);
    PrefixMeasure(cs, w, s, q);
    OrderedIsSorted(s, q);
    FavouredPoint(cs, w, s, q, m);
    SweptTotals(cs, w, s, from, r, 0);
    k := m - 1 - from;
    SweptTotals(cs, w, s, from, r, k);
  }

  // The last point of that prefix is at position q, or before the image if q is 0.
  lemma FavouredPoint(cs: seq<Content>, w: int, s: seq<InflectionPoint>, q: int, m: nat)
    requires Scored(cs) && Narrow(cs, w) && multiset(s) == multiset(Points(cs, w)) && Possible(cs, w, q) && m <= |s|
    requires (forall i :: 0 <= i < m ==> Key(q)(s[i]) <= 2 * q) && (forall i :: m <= i < |s| ==> 2 * q < Key(q)(s[i]))
    requires Sum(s[..m], Score()) == Covered(cs, w, q)
    requires Sorted(s)
    ensures m > 0 && if q == 0 then s[m - 1].pos <= 0 else s[m - 1].pos == q
  {
    if q == 0 {
      EntersByZero(cs, w, s, m);
    } else if m == 0 || s[m - 1].pos < q {
      PrefixIsAhead(cs, w, s, m, q - 1);
      PossibleBeats(cs, w, q, q - 1);
    }
  }

  lemma EntersByZero(cs: seq<Content>, w: int, s: seq<InflectionPoint>, m: nat)
    requires Scored(cs) && multiset(s) == multiset(Points(cs, w)) && m <= |s|
    requires (forall i :: m <= i < |s| ==> 0 < Key(0)(s[i])) && exists i :: 0 <= i < |cs| && cs[i].start + cs[i].extent - w <= 0
    ensures m > 0
  {
    var i :| 0 <= i < |cs| && cs[i].start + cs[i].extent - w <= 0;
    EnterIsPoint(cs, w, i);
    assert PointsOf(cs[i], w)[0] in multiset(s);
    var k :| 0 <= k < |s| && s[k] == PointsOf(cs[i], w)[0];
    assert Key(0)(s[k]) <= 0;
  }

  lemma {:induction false} EnterIsPoint(cs: seq<Content>, w: int, i: nat)
    requires i < |cs|
    ensures PointsOf(cs[i], w)[0] in Points(cs, w)
  {
    if i > 0 {
      EnterIsPoint(cs[1..], w, i - 1);
    }
  }

  lemma {:induction false} BestExists(r: seq<InflectionPoint>) returns (best: nat)
    requires r != []
    ensures FirstBest(r, best)
  {
    var n := |r| - 1;
    if n == 0 {
      best := 0;
    } else {
      best := BestExists(r[..n]);
      if r[best].total < r[n].total {
        best := n;
      }
    }
  }

  lemma PossibleIsChosen(cs: seq<Content>, w: int, q: int)
    requires Scored(cs) && Narrow(cs, w) && Possible(cs, w, q)
    ensures CanChoose(cs, w, q)
  {
    var s := SortBy(Points(cs, w), Key(q));
    OrderedIsSorted(s, q);
    var from, r := SweepOf(cs, w, s);
    if r == [] {
      NothingToCover(cs, w, s, from);
    } else {
      var k := TotalReached(cs, w, s, from, r, q);
      var best := BestExists(r);
      TotalBound(cs, w, s, from, r, q, best);
      SweptTotals(cs, w, s, from, r, k);
      SweptTotals(cs, w, s, from, r, best);
      assert best <= k;
      assert ChoosesBy(cs, w, q, s, from, r, best);
    }
  }

  // ------------------------------------------------------------------
  // The theorems
  // ------------------------------------------------------------------

  // Over all tie orders exactly the possible positions are chosen.
  lemma ChosenIffPossible(cs: seq<Content>, w: int, p: int)
    requires Scored(cs) && Narrow(cs, w)
    ensures CanChoose(cs, w, p) <==> Possible(cs, w, p)
  {
    if Possible(cs, w, p) {
      PossibleIsChosen(cs, w, p);
    }
    if CanChoose(cs, w, p) {
      var s, from: nat, r, best: nat :| ChoosesBy(cs, w, p, s, from, r, best);
      ChosenIsPossible(cs, w, s, from, r, best);
    }
  }

  /**
  Every tie order crops optimally, edges included, exactly if every possible position is optimal.
  That is a condition on the content alone. It holds in particular if there is no tie.
   */
  lemma AlwaysOptimalIff(cs: seq<Content>, w: int)
    requires Scored(cs) && Narrow(cs, w)
    ensures (forall p :: CanChoose(cs, w, p) ==> ClosedOptimal(cs, w, p)) <==>
            (forall p :: Possible(cs, w, p) ==> ClosedOptimal(cs, w, p))
    ensures (forall q: nat :: !TieAt(cs, w, q)) ==> forall p :: CanChoose(cs, w, p) ==> ClosedOptimal(cs, w, p)
  {
    forall p ensures CanChoose(cs, w, p) <==> Possible(cs, w, p) {
      ChosenIffPossible(cs, w, p);
    }
    if forall q: nat :: !TieAt(cs, w, q) {
      forall p | Possible(cs, w, p) ensures ClosedOptimal(cs, w, p) {
        forall q: nat ensures Covered(cs, w, q) <= Covered(cs, w, p) {
          BeatsTieFree(cs, w, p, q);
        }
      }
    }
  }

  // An image of 20 by 10 with two features whose crop may hold only one of them, although a
  // window at position 5 has both on its edges.
  function TwoFeatures(): Image { Image(20, 10, [], [Rect(5, 0, 0, 0), Rect(15, 0, 0, 0)]) }

  lemma TieLosesContent()
    ensures var cs := Contents(TwoFeatures());
            && Window(TwoFeatures()) == 10 && Scored(cs) && Narrow(cs, 10)
            && CanChoose(cs, 10, 0) && Covered(cs, 10, 0) == 1 && Covered(cs, 10, 5) == 2
  {
    var cs := Contents(TwoFeatures());
    assert cs == [Content(5, 0, 1), Content(15, 0, 1)];
    assert cs[1..] == [Content(15, 0, 1)] && cs[1..][1..] == [];
    forall q ensures Covered(cs, 10, q) == (if -5 <= q <= 5 then 1 else 0) + (if 5 <= q <= 15 then 1 else 0)
      ensures CoveredAhead(cs, 10, q) == (if -5 <= q < 5 then 1 else 0) + (if 5 <= q < 15 then 1 else 0)
    {
      assert Covered(cs[1..], 10, q) == (if 5 <= q <= 15 then 1 else 0) + Covered([], 10, q);
      assert CoveredAhead(cs[1..], 10, q) == (if 5 <= q < 15 then 1 else 0) + CoveredAhead([], 10, q);
    }
    assert cs[0].start >= 0 && cs[0].start + cs[0].extent - 10 <= 0;
    assert Possible(cs, 10, 0);
    PossibleIsChosen(cs, 10, 0);
  }
}
