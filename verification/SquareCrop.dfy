/**
`ImageContent::square_crop` (src/server/image/ImageContent.cc): a sweep line that places a
square window along the longer side of an image so that it covers the most content.

The face and feature detectors are inputs. Arithmetic is unbounded; std::sort is any
procedure that yields a sorted permutation, so every statement holds for every tie order.
 */
module SquareCrop {

  datatype Rect = Rect(x: int, y: int, width: int, height: int)

  datatype Image = Image(cols: nat, rows: nat, faces: seq<Rect>, features: seq<Rect>)

  datatype InflectionPoint = InflectionPoint(pos: int, score: int, total: int)

  // A content rectangle projected onto the principal axis.
  datatype Content = Content(start: int, extent: int, score: int)

  function Max(a: int, b: int): int { if a < b then b else a }

  function Window(img: Image): nat { if img.rows < img.cols then img.rows else img.cols }

  function Length(img: Image): nat { if img.cols > img.rows then img.cols else img.rows }

  function Project(img: Image, r: Rect, ratio: nat): Content {
    if img.cols > img.rows then Content(r.x, r.width, Max(ratio * r.width * r.height, 1))
    else Content(r.y, r.height, Max(ratio * r.width * r.height, 1))
  }

  function Contents(img: Image): seq<Content> {
    seq(|img.faces|, i requires 0 <= i < |img.faces| => Project(img, img.faces[i], 1)) +
    seq(|img.features|, i requires 0 <= i < |img.features| => Project(img, img.features[i], 0))
  }

  // ------------------------------------------------------------------
  // What the crop is for
  // ------------------------------------------------------------------

  // The score of everything that lies completely inside the closed window [p, p + w].
  function Covered(cs: seq<Content>, w: int, p: int): int {
    if cs == [] then 0
    else (if p <= cs[0].start && cs[0].start + cs[0].extent <= p + w then cs[0].score else 0) + Covered(cs[1..], w, p)
  }

  // The same, but content that touches the near edge of the window does not count.
  function CoveredAhead(cs: seq<Content>, w: int, q: int): int {
    if cs == [] then 0
    else (if q < cs[0].start && cs[0].start + cs[0].extent <= q + w then cs[0].score else 0) + CoveredAhead(cs[1..], w, q)
  }

  // No window position q covers more ahead of its near edge than position p covers at all.
  ghost predicate Optimal(cs: seq<Content>, w: int, p: int) {
    forall q: nat :: CoveredAhead(cs, w, q) <= Covered(cs, w, p)
  }

  // No window position covers more than position p, edges included.
  ghost predicate ClosedOptimal(cs: seq<Content>, w: int, p: int) {
    forall q: nat :: Covered(cs, w, q) <= Covered(cs, w, p)
  }

  // At position q one content leaves the window just when another enters it.
  ghost predicate TieAt(cs: seq<Content>, w: int, q: int) {
    && (exists i :: 0 <= i < |cs| && cs[i].start == q)
    && (exists i :: 0 <= i < |cs| && cs[i].start + cs[i].extent - w == q)
  }

  // Position p covers at least what any position without a tie covers, edges included.
  ghost predicate BestWithoutTie(cs: seq<Content>, w: int, p: int) {
    forall q: nat :: !TieAt(cs, w, q) ==> Covered(cs, w, q) <= Covered(cs, w, p)
  }

  // Some content starts at or after the origin.
  ghost predicate Reaches(cs: seq<Content>) {
    exists i :: 0 <= i < |cs| && cs[i].start >= 0
  }

  /**
  Position p covers at least what any position covers ahead of its near edge, and strictly more
  than the positions before it. Positions outside the image count as 0, so position 0 needs some
  content that enters there or before, and no comparison.
   */
  ghost predicate Possible(cs: seq<Content>, w: int, p: int) {
    && p >= 0 && Reaches(cs)
    && (forall q :: -1 <= q ==> CoveredAhead(cs, w, q) <= Covered(cs, w, p))
    && if p == 0 then exists i :: 0 <= i < |cs| && cs[i].start + cs[i].extent - w <= 0
       else forall q :: -1 <= q < p ==> CoveredAhead(cs, w, q) < Covered(cs, w, p)
  }

  predicate Inside(img: Image, r: Rect) {
    0 <= r.x && 0 <= r.y && 0 <= r.width && 0 <= r.height && r.x + r.width <= img.cols && r.y + r.height <= img.rows
  }

  predicate AllInside(img: Image) {
    (forall r :: r in img.faces ==> Inside(img, r)) && (forall r :: r in img.features ==> Inside(img, r))
  }

  predicate Narrow(cs: seq<Content>, w: int) {
    forall i :: 0 <= i < |cs| ==> cs[i].extent <= w
  }

  ghost predicate Scored(cs: seq<Content>) {
    forall i :: 0 <= i < |cs| ==> cs[i].score > 0
  }

  function Offset(img: Image, roi: Rect): int { if img.cols > img.rows then roi.x else roi.y }

  // ------------------------------------------------------------------
  // Sums over inflection points
  // ------------------------------------------------------------------

  function Sum(s: seq<InflectionPoint>, f: InflectionPoint -> int): int {
    if s == [] then 0 else f(s[0]) + Sum(s[1..], f)
  }

  function Score(): InflectionPoint -> int { (p: InflectionPoint) => p.score }

  function UpTo(q: int): InflectionPoint -> int { (p: InflectionPoint) => if p.pos <= q then p.score else 0 }

  // An upper bound for every prefix that ends at position q, whatever the tie order.
  function AtBest(q: int): InflectionPoint -> int {
    (p: InflectionPoint) => if p.pos < q then p.score else if p.pos == q then Max(p.score, 0) else 0
  }

  lemma {:induction false} SumConcat(a: seq<InflectionPoint>, b: seq<InflectionPoint>, f: InflectionPoint -> int)
    ensures Sum(a + b, f) == Sum(a, f) + Sum(b, f)
  {
    if a == [] {
      assert a + b == b;
    } else {
      assert (a + b)[1..] == a[1..] + b;
      SumConcat(a[1..], b, f);
    }
  }

  lemma RemoveFrom<T>(s: seq<T>, k: nat)
    requires k < |s|
    ensures multiset(s[..k] + s[k + 1..]) == multiset(s) - multiset{s[k]}
  {
    assert s == s[..k] + [s[k]] + s[k + 1..];
  }

  lemma {:induction false} SumWithout(s: seq<InflectionPoint>, k: nat, f: InflectionPoint -> int)
    requires k < |s|
    ensures Sum(s, f) == f(s[k]) + Sum(s[..k] + s[k + 1..], f)
  {
    SumConcat(s[..k], s[k + 1..], f);
    SumConcat(s[..k], s[k..], f);
    assert s == s[..k] + s[k..];
    assert s[k..][1..] == s[k + 1..];
  }

  lemma {:induction false} SumPermuted(a: seq<InflectionPoint>, b: seq<InflectionPoint>, f: InflectionPoint -> int)
    requires multiset(a) == multiset(b)
    ensures Sum(a, f) == Sum(b, f)
    decreases |a|
  {
    if a == [] {
      assert |multiset(b)| == 0;
    } else {
      assert a[0] in multiset(b);
      var k :| 0 <= k < |b| && b[k] == a[0];
      RemoveFrom(a, 0);
      RemoveFrom(b, k);
      SumWithout(a, 0, f);
      SumWithout(b, k, f);
      SumPermuted(a[..0] + a[1..], b[..k] + b[k + 1..], f);
    }
  }

  lemma {:induction false} SumAtMost(s: seq<InflectionPoint>, f: InflectionPoint -> int, g: InflectionPoint -> int)
    requires forall i :: 0 <= i < |s| ==> f(s[i]) <= g(s[i])
    ensures Sum(s, f) <= Sum(s, g)
  {
    if s != [] {
      SumAtMost(s[1..], f, g);
    }
  }

  // ------------------------------------------------------------------
  // The points of one content, and of all of them
  // ------------------------------------------------------------------

  function PointsOf(c: Content, w: int): seq<InflectionPoint> {
    [InflectionPoint(c.start + c.extent - w, c.score, 0), InflectionPoint(c.start, -c.score, 0)]
  }

  function Points(cs: seq<Content>, w: int): seq<InflectionPoint> {
    if cs == [] then [] else PointsOf(cs[0], w) + Points(cs[1..], w)
  }

  lemma {:induction false} PointsSnoc(cs: seq<Content>, c: Content, w: int)
    ensures Points(cs + [c], w) == Points(cs, w) + PointsOf(c, w)
  {
    if cs != [] {
      assert (cs + [c])[1..] == cs[1..] + [c];
      PointsSnoc(cs[1..], c, w);
    }
  }

  lemma SumPair(c: Content, w: int, f: InflectionPoint -> int)
    ensures Sum(PointsOf(c, w), f) == f(PointsOf(c, w)[0]) + f(PointsOf(c, w)[1])
  {
    var p := PointsOf(c, w);
    assert p[1..] == [p[1]];
    assert Sum([p[1]], f) == f(p[1]) + Sum([], f);
  }

  lemma {:induction false} PointsMeasure(cs: seq<Content>, w: int, q: int)
    requires Scored(cs)
    ensures Sum(Points(cs, w), Score()) == 0
    ensures Narrow(cs, w) ==> Sum(Points(cs, w), UpTo(q)) == CoveredAhead(cs, w, q)
    ensures Narrow(cs, w) ==> Sum(Points(cs, w), AtBest(q)) == Covered(cs, w, q)
  {
    if cs != [] {
      PointsMeasure(cs[1..], w, q);
      SumConcat(PointsOf(cs[0], w), Points(cs[1..], w), Score());
      SumConcat(PointsOf(cs[0], w), Points(cs[1..], w), UpTo(q));
      SumConcat(PointsOf(cs[0], w), Points(cs[1..], w), AtBest(q));
      SumPair(cs[0], w, Score());
      SumPair(cs[0], w, UpTo(q));
      SumPair(cs[0], w, AtBest(q));
      assert Narrow(cs, w) ==> cs[0].extent <= w && Narrow(cs[1..], w);
    }
  }

  lemma {:induction false} CoveredNonNegative(cs: seq<Content>, w: int, p: int)
    requires Scored(cs)
    ensures 0 <= Covered(cs, w, p)
  {
    if cs != [] {
      CoveredNonNegative(cs[1..], w, p);
    }
  }

  // ------------------------------------------------------------------
  // Facts about a sorted list of points
  // ------------------------------------------------------------------

  ghost predicate Sorted(s: seq<InflectionPoint>) {
    forall i, j :: 0 <= i <= j < |s| ==> s[i].pos <= s[j].pos
  }

  lemma SplitSum(s: seq<InflectionPoint>, m: nat, f: InflectionPoint -> int)
    requires m <= |s|
    ensures Sum(s, f) == Sum(s[..m], f) + Sum(s[m..], f)
  {
    assert s == s[..m] + s[m..];
    SumConcat(s[..m], s[m..], f);
  }

  lemma PrefixAtMost(s: seq<InflectionPoint>, m: nat, q: int)
    requires m <= |s|
    requires forall i :: 0 <= i < m ==> s[i].pos <= q
    requires forall i :: m <= i < |s| ==> q <= s[i].pos
    ensures Sum(s[..m], Score()) <= Sum(s, AtBest(q))
  {
    SplitSum(s, m, AtBest(q));
    SumAtMost(s[..m], Score(), AtBest(q));
    Zero(s[m..]);
    SumAtMost(s[m..], (p: InflectionPoint) => 0, AtBest(q));
  }

  lemma PrefixSum(s: seq<InflectionPoint>, m: nat, q: int)
    requires m <= |s|
    requires forall i :: 0 <= i < m ==> s[i].pos <= q
    requires forall i :: m <= i < |s| ==> q < s[i].pos
    ensures Sum(s[..m], Score()) == Sum(s, UpTo(q))
  {
    SplitSum(s, m, UpTo(q));
    SumSame(s[..m], Score(), UpTo(q));
    SumSame(s[m..], UpTo(q), (p: InflectionPoint) => 0);
    Zero(s[m..]);
  }

  lemma {:induction false} Zero(s: seq<InflectionPoint>)
    ensures Sum(s, (p: InflectionPoint) => 0) == 0
  {
    if s != [] {
      Zero(s[1..]);
    }
  }

  lemma {:induction false} SumSame(s: seq<InflectionPoint>, f: InflectionPoint -> int, g: InflectionPoint -> int)
    requires forall i :: 0 <= i < |s| ==> f(s[i]) == g(s[i])
    ensures Sum(s, f) == Sum(s, g)
  {
    if s != [] {
      SumSame(s[1..], f, g);
    }
  }

  // The points at or before q form a prefix.
  lemma {:induction false} PrefixUpTo(s: seq<InflectionPoint>, q: int) returns (m: nat)
    requires Sorted(s)
    ensures m <= |s|
    ensures forall i :: 0 <= i < m ==> s[i].pos <= q
    ensures forall i :: m <= i < |s| ==> q < s[i].pos
    ensures Sum(s[..m], Score()) == Sum(s, UpTo(q))
  {
    m := 0;
    while m < |s| && s[m].pos <= q
      invariant m <= |s| && forall i :: 0 <= i < m ==> s[i].pos <= q
    {
      m := m + 1;
    }
    PrefixSum(s, m, q);
  }

  // ------------------------------------------------------------------
  // The algorithm
  // ------------------------------------------------------------------

  method AddContent(infections: seq<InflectionPoint>, img: Image, content: Rect, ratio: nat)
    returns (r: seq<InflectionPoint>)
    ensures r == infections + PointsOf(Project(img, content, ratio), Window(img))
  {
    var window := Window(img);
    var score := Max(ratio * content.width * content.height, 1);
    r := infections + [InflectionPoint(
      (if img.cols > img.rows then content.x + content.width else content.y + content.height) - window, score, 0)];
    r := r + [InflectionPoint(if img.cols > img.rows then content.x else content.y, -score, 0)];
  }

  method Collect(img: Image) returns (r: seq<InflectionPoint>)
    ensures r == Points(Contents(img), Window(img))
  {
    ghost var all := Contents(img);
    var w := Window(img);
    r := [];
    for i := 0 to |img.faces|
      invariant r == Points(all[..i], w)
    {
      r := AddContent(r, img, img.faces[i], 1);
      assert all[..i + 1] == all[..i] + [Project(img, img.faces[i], 1)];
      PointsSnoc(all[..i], Project(img, img.faces[i], 1), w);
    }
    ghost var n := |img.faces|;
    for i := 0 to |img.features|
      invariant r == Points(all[..n + i], w)
    {
      r := AddContent(r, img, img.features[i], 0);
      assert all[..n + i + 1] == all[..n + i] + [Project(img, img.features[i], 0)];
      PointsSnoc(all[..n + i], Project(img, img.features[i], 0), w);
    }
    assert all == all[..n + |img.features|];
  }

  method Insert(s: seq<InflectionPoint>, p: InflectionPoint) returns (r: seq<InflectionPoint>)
    requires Sorted(s)
    ensures Sorted(r) && multiset(r) == multiset(s) + multiset{p}
  {
    var k := 0;
    while k < |s| && s[k].pos < p.pos
      invariant 0 <= k <= |s| && forall j :: 0 <= j < k ==> s[j].pos < p.pos
    {
      k := k + 1;
    }
    InsertedInOrder(s, p, k);
    InsertedOnce(s, p, k);
    r := s[..k] + [p] + s[k..];
  }

  lemma InsertedInOrder(s: seq<InflectionPoint>, p: InflectionPoint, k: nat)
    requires Sorted(s) && k <= |s|
    requires (forall j :: 0 <= j < k ==> s[j].pos <= p.pos) && (k < |s| ==> p.pos <= s[k].pos)
    ensures Sorted(s[..k] + [p] + s[k..])
  {}

  lemma InsertedOnce<T>(s: seq<T>, x: T, k: nat)
    requires k <= |s|
    ensures multiset(s[..k] + [x] + s[k..]) == multiset(s) + multiset{x}
  {
    assert s == s[..k] + s[k..];
  }

  method SortByPosition(points: seq<InflectionPoint>) returns (r: seq<InflectionPoint>)
    ensures Sorted(r) && multiset(r) == multiset(points)
  {
    r := [];
    for i := 0 to |points|
      invariant Sorted(r) && multiset(r) == multiset(points[..i])
    {
      r := Insert(r, points[i]);
      assert points[..i + 1] == points[..i] + [points[i]];
    }
    assert points[..|points|] == points;
  }

  // Prefix sums: totals only, positions and scores stay.
  ghost predicate Accumulated(s: seq<InflectionPoint>, r: seq<InflectionPoint>) {
    && |r| == |s|
    && forall i :: 0 <= i < |s| ==> r[i] == s[i].(total := Sum(s[..i + 1], Score()))
  }

  method Accumulate(s: seq<InflectionPoint>) returns (r: seq<InflectionPoint>)
    ensures Accumulated(s, r)
  {
    r := s;
    var score := 0;
    for i := 0 to |s|
      invariant |r| == |s| && score == Sum(s[..i], Score())
      invariant forall j :: 0 <= j < i ==> r[j] == s[j].(total := Sum(s[..j + 1], Score()))
      invariant forall j :: i <= j < |s| ==> r[j] == s[j]
    {
      assert s[..i + 1] == s[..i] + [s[i]];
      SumConcat(s[..i], [s[i]], Score());
      score := score + r[i].score;
      r := r[i := r[i].(total := score)];
    }
  }

  // The points outside the image collapse into one at position 0.
  ghost predicate Clamped(s: seq<InflectionPoint>, from: nat, r: seq<InflectionPoint>) {
    && from <= |s| && |r| == |s| - from
    && (forall i :: 0 <= i < from ==> s[i].pos < 0)
    && (forall i :: 1 <= i < |r| ==> r[i] == s[from + i] && r[i].pos >= 0)
    && (r != [] ==> r[0] == s[from].(pos := Max(s[from].pos, 0)))
    && (r != [] && s[from].pos >= 0 ==> from == 0)
    && (r != [] && s[from].pos < 0 ==> from + 1 < |s| && s[from + 1].pos >= 0)
  }

  method Clamp(s: seq<InflectionPoint>) returns (r: seq<InflectionPoint>, ghost from: nat)
    requires Sorted(s)
    ensures Clamped(s, from, r)
  {
    var start := 0;
    while start < |s| && s[start].pos < 0
      invariant 0 <= start <= |s| && forall i :: 0 <= i < start ==> s[i].pos < 0
    {
      start := start + 1;
    }
    r := s;
    if start != 0 && start != |s| {
      start := start - 1;
      if r[start].pos < 0 {
        r := r[start := r[start].(pos := 0)];
      }
    }
    r := r[start..];
    from := start;
  }

  // std::max_element() returns the first maximum.
  ghost predicate FirstBest(r: seq<InflectionPoint>, best: nat) {
    && best < |r| && (forall i :: 0 <= i < |r| ==> r[i].total <= r[best].total)
    && forall i :: 0 <= i < best ==> r[i].total < r[best].total
  }

  method MaxTotal(s: seq<InflectionPoint>) returns (best: nat)
    requires s != []
    ensures FirstBest(s, best)
  {
    best := 0;
    for i := 1 to |s|
      invariant best < i && forall j :: 0 <= j < i ==> s[j].total <= s[best].total
      invariant forall j :: 0 <= j < best ==> s[j].total < s[best].total
    {
      if s[best].total < s[i].total {
        best := i;
      }
    }
  }

  // ------------------------------------------------------------------
  // Why the chosen point is right
  // ------------------------------------------------------------------

  // Everything the algorithm knows about its list when it picks the maximum.
  ghost predicate Swept(cs: seq<Content>, w: int, s: seq<InflectionPoint>, from: nat, r: seq<InflectionPoint>) {
    && Scored(cs)
    && multiset(s) == multiset(Points(cs, w)) && Sorted(s)
    && exists acc :: Accumulated(s, acc) && Clamped(acc, from, r)
  }

  lemma SweptTotals(cs: seq<Content>, w: int, s: seq<InflectionPoint>, from: nat, r: seq<InflectionPoint>, i: nat)
    requires Swept(cs, w, s, from, r) && i < |r|
    ensures |s| == from + |r| && r[i].total == Sum(s[..from + i + 1], Score())
    ensures r[i].pos == Max(s[from + i].pos, 0) && r[i].score == s[from + i].score
    ensures s[from + i].pos < 0 ==> i == 0 && from + 1 < |s| && s[from + 1].pos >= 0
    ensures s[from].pos >= 0 ==> from == 0
  {}

  // A total never promises more than the window really covers there.
  lemma {:induction false} TotalIsHonest(cs: seq<Content>, w: int, s: seq<InflectionPoint>, from: nat, r: seq<InflectionPoint>, i: nat)
    requires Swept(cs, w, s, from, r) && i < |r| && Narrow(cs, w)
    ensures r[i].total <= Covered(cs, w, r[i].pos)
  {
    var q := r[i].pos;
    SweptTotals(cs, w, s, from, r, i);
    PrefixCovered(cs, w, s, from + i + 1, q);
  }

  lemma PrefixCovered(cs: seq<Content>, w: int, s: seq<InflectionPoint>, m: nat, q: int)
    requires Scored(cs) && Narrow(cs, w) && multiset(s) == multiset(Points(cs, w)) && m <= |s|
    requires forall i :: 0 <= i < m ==> s[i].pos <= q
    requires forall i :: m <= i < |s| ==> q <= s[i].pos
    ensures Sum(s[..m], Score()) <= Covered(cs, w, q)
  {
    PrefixAtMost(s, m, q);
    PrefixMeasure(cs, w, s, q);
  }

  // Every position is matched by some total, no later than where it is.
  lemma {:induction false} SomeTotalReaches(cs: seq<Content>, w: int, s: seq<InflectionPoint>, from: nat, r: seq<InflectionPoint>, q: int)
    returns (i: nat)
    requires Swept(cs, w, s, from, r) && Narrow(cs, w) && r != [] && -1 <= q
    ensures i < |r| && r[i].total == CoveredAhead(cs, w, q)
    ensures r[i].pos <= Max(q, 0) || (r[i].total == 0 && forall j :: 0 <= j < |s| ==> q < s[j].pos)
  {
    var m := PrefixUpTo(s, q);
    if m == 0 {
      i := |r| - 1;
      ReachedAtLast(cs, w, s, from, r, q);
    } else {
      i := PrefixIndex(cs, w, s, from, r, q, m);
      SweptTotals(cs, w, s, from, r, i);
      PrefixMeasure(cs, w, s, q);
    }
  }

  lemma {:induction false} ReachedAtLast(cs: seq<Content>, w: int, s: seq<InflectionPoint>, from: nat, r: seq<InflectionPoint>, q: int)
    requires Swept(cs, w, s, from, r) && Narrow(cs, w) && r != [] && forall j :: 0 <= j < |s| ==> q < s[j].pos
    ensures r[|r| - 1].total == 0 && CoveredAhead(cs, w, q) == 0
  {
    var last := |r| - 1;
    SweptTotals(cs, w, s, from, r, last);
    assert s[..from + last + 1] == s;
    PrefixSum(s, 0, q);
    PrefixMeasure(cs, w, s, q);
  }

  lemma PrefixMeasure(cs: seq<Content>, w: int, s: seq<InflectionPoint>, q: int)
    requires Scored(cs) && Narrow(cs, w) && multiset(s) == multiset(Points(cs, w))
    ensures Sum(s, UpTo(q)) == CoveredAhead(cs, w, q) && Sum(s, AtBest(q)) == Covered(cs, w, q) && Sum(s, Score()) == 0
  {
    PointsMeasure(cs, w, q);
    SumPermuted(s, Points(cs, w), UpTo(q));
    SumPermuted(s, Points(cs, w), AtBest(q));
    SumPermuted(s, Points(cs, w), Score());
  }

  // Where the swept list keeps the end of the points up to q.
  function PrefixIndex(cs: seq<Content>, w: int, s: seq<InflectionPoint>, from: nat, r: seq<InflectionPoint>, q: int, m: nat): (i: nat)
    requires Swept(cs, w, s, from, r) && r != [] && -1 <= q && 0 < m <= |s|
    requires (forall i :: 0 <= i < m ==> s[i].pos <= q) && (forall i :: m <= i < |s| ==> q < s[i].pos)
    ensures i < |r| && from + i == m - 1
  {
    m - 1 - from
  }

  // Content inside the image enters no later than the last window position.
  ghost predicate EntersInTime(s: seq<InflectionPoint>, limit: int) {
    && (forall i :: 0 <= i < |s| ==> s[i].pos <= limit || s[i].score < 0)
    && (s != [] ==> exists i :: 0 <= i < |s| && s[i].pos <= limit)
  }

  lemma {:induction false} PointsEnterInTime(cs: seq<Content>, w: int, limit: int)
    requires Scored(cs) && forall i :: 0 <= i < |cs| ==> cs[i].start + cs[i].extent - w <= limit
    ensures EntersInTime(Points(cs, w), limit)
  {
    if cs != [] {
      PointsEnterInTime(cs[1..], w, limit);
      assert Points(cs, w)[0].pos <= limit;
      assert forall i :: 2 <= i < |Points(cs, w)| ==> Points(cs, w)[i] == Points(cs[1..], w)[i - 2];
    }
  }

  lemma EntersPermuted(a: seq<InflectionPoint>, b: seq<InflectionPoint>, limit: int)
    requires multiset(a) == multiset(b) && EntersInTime(a, limit)
    ensures EntersInTime(b, limit)
  {
    forall i | 0 <= i < |b| ensures b[i].pos <= limit || b[i].score < 0 {
      assert b[i] in multiset(a);
    }
    if b != [] {
      assert b[0] in multiset(a);
      var k :| 0 <= k < |a| && a[k].pos <= limit;
      assert a[k] in multiset(b);
    }
  }

  lemma ChosenInRange(cs: seq<Content>, w: int, s: seq<InflectionPoint>, from: nat, r: seq<InflectionPoint>, best: nat, limit: nat)
    requires Swept(cs, w, s, from, r) && EntersInTime(s, limit)
    requires best < |r| && forall i :: 0 <= i < |r| ==> r[i].total <= r[best].total
    ensures 0 <= r[best].pos <= limit
  {
    SweptTotals(cs, w, s, from, r, best);
    if best > 0 {
      SweptTotals(cs, w, s, from, r, best - 1);
      var e := from + best;
      assert s[..e + 1] == s[..e] + [s[e]];
      SumConcat(s[..e], [s[e]], Score());
      assert r[best].total == r[best - 1].total + s[e].score;
    }
  }

  lemma ContentsScored(img: Image)
    ensures Scored(Contents(img))
    ensures AllInside(img) ==>
      forall i :: 0 <= i < |Contents(img)| ==>
        0 <= Contents(img)[i].start && Contents(img)[i].start + Contents(img)[i].extent <= Length(img)
  {
    var cs := Contents(img);
    forall i | 0 <= i < |cs| ensures cs[i].score > 0
      ensures AllInside(img) ==> 0 <= cs[i].start && cs[i].start + cs[i].extent <= Length(img)
    {
      if i < |img.faces| {
        assert img.faces[i] in img.faces;
      } else {
        assert img.features[i - |img.faces|] in img.features;
      }
    }
  }

  lemma NoContent(img: Image, s: seq<InflectionPoint>)
    requires img.faces == [] && img.features == [] && multiset(s) == multiset(Points(Contents(img), Window(img)))
    ensures s == []
  {}

  method Sweep(img: Image) returns (infections: seq<InflectionPoint>, ghost sorted: seq<InflectionPoint>, ghost from: nat)
    ensures Swept(Contents(img), Window(img), sorted, from, infections)
    ensures AllInside(img) ==> EntersInTime(sorted, Length(img) - Window(img))
    ensures img.faces == [] && img.features == [] ==> infections == []
  {
    ContentsScored(img);
    infections := Collect(img);
    ghost var collected := infections;
    infections := SortByPosition(infections);
    sorted := infections;
    infections := Accumulate(infections);
    infections, from := Clamp(infections);
    if AllInside(img) {
      PointsEnterInTime(Contents(img), Window(img), Length(img) - Window(img));
      EntersPermuted(collected, sorted, Length(img) - Window(img));
    }
    if img.faces == [] && img.features == [] {
      NoContent(img, sorted);
    }
  }

  // ------------------------------------------------------------------
  // Which positions can be chosen
  // ------------------------------------------------------------------

  lemma {:induction false} PointOfContent(cs: seq<Content>, w: int, p: InflectionPoint) returns (i: nat)
    requires p in Points(cs, w) && Scored(cs)
    ensures i < |cs| && p in PointsOf(cs[i], w)
    ensures p.score != 0 && p.pos == if p.score > 0 then cs[i].start + cs[i].extent - w else cs[i].start
  {
    if p in PointsOf(cs[0], w) {
      i := 0;
    } else {
      var k := PointOfContent(cs[1..], w, p);
      i := k + 1;
    }
  }

  lemma SweptPoint(cs: seq<Content>, w: int, s: seq<InflectionPoint>, k: nat) returns (i: nat)
    requires Scored(cs) && multiset(s) == multiset(Points(cs, w)) && k < |s|
    ensures i < |cs| && s[k].score != 0
    ensures s[k].pos == if s[k].score > 0 then cs[i].start + cs[i].extent - w else cs[i].start
  {
    assert s[k] in multiset(Points(cs, w));
    i := PointOfContent(cs, w, s[k]);
  }

  lemma {:induction false} CoveredPositive(cs: seq<Content>, w: int, p: int, i: nat)
    requires Scored(cs) && i < |cs| && p <= cs[i].start && cs[i].start + cs[i].extent <= p + w
    ensures Covered(cs, w, p) > 0
  {
    if i > 0 {
      CoveredPositive(cs[1..], w, p, i - 1);
    } else {
      CoveredNonNegative(cs[1..], w, p);
    }
  }

  lemma {:induction false} PrefixStep(s: seq<InflectionPoint>, m: nat)
    requires m <= |s|
    ensures Sum(s[..m], Score()) == if m == 0 then 0 else Sum(s[..m - 1], Score()) + s[m - 1].score
  {
    if m > 0 {
      assert s[..m] == s[..m - 1] + [s[m - 1]];
      SumConcat(s[..m - 1], [s[m - 1]], Score());
    }
  }

  // Beyond position 0 the chosen point is one where content enters.
  lemma ChosenEnters(cs: seq<Content>, w: int, s: seq<InflectionPoint>, from: nat, r: seq<InflectionPoint>, best: nat)
    requires Swept(cs, w, s, from, r) && Narrow(cs, w) && FirstBest(r, best) && r[best].pos > 0
    ensures Covered(cs, w, r[best].pos) > 0
  {
    var e := from + best;
    SweptTotals(cs, w, s, from, r, best);
    PrefixStep(s, e + 1);
    var i := SweptPoint(cs, w, s, e);
    if best > 0 {
      SweptTotals(cs, w, s, from, r, best - 1);
    } else {
      assert s[..0] == [];
      var last := SomeTotalReaches(cs, w, s, from, r, 0);
      AheadNonNegative(cs, w, 0);
    }
    CoveredPositive(cs, w, s[e].pos, i);
  }

  lemma {:induction false} AheadNonNegative(cs: seq<Content>, w: int, q: int)
    requires Scored(cs)
    ensures 0 <= CoveredAhead(cs, w, q)
  {
    if cs != [] {
      AheadNonNegative(cs[1..], w, q);
    }
  }

  // Whatever the tie order, the chosen position is a possible one.
  lemma ChosenIsPossible(cs: seq<Content>, w: int, s: seq<InflectionPoint>, from: nat, r: seq<InflectionPoint>, best: nat)
    requires Swept(cs, w, s, from, r) && Narrow(cs, w) && FirstBest(r, best)
    ensures Possible(cs, w, r[best].pos)
  {
    var p := r[best].pos;
    TotalIsHonest(cs, w, s, from, r, best);
    forall q | -1 <= q
      ensures CoveredAhead(cs, w, q) <= Covered(cs, w, p)
      ensures p > 0 && q < p ==> CoveredAhead(cs, w, q) < Covered(cs, w, p)
    {
      ReachedBefore(cs, w, s, from, r, best, q);
    }
    ChosenHasContent(cs, w, s, from, r, best);
  }

  lemma ReachedBefore(cs: seq<Content>, w: int, s: seq<InflectionPoint>, from: nat, r: seq<InflectionPoint>, best: nat, q: int)
    requires Swept(cs, w, s, from, r) && Narrow(cs, w) && FirstBest(r, best) && -1 <= q
    ensures CoveredAhead(cs, w, q) <= r[best].total
    ensures r[best].pos > 0 && q < r[best].pos ==>
      CoveredAhead(cs, w, q) < r[best].total || CoveredAhead(cs, w, q) < Covered(cs, w, r[best].pos)
  {
    var i := SomeTotalReaches(cs, w, s, from, r, q);
    SweptTotals(cs, w, s, from, r, i);
    SweptTotals(cs, w, s, from, r, best);
    if r[best].pos > 0 {
      ChosenEnters(cs, w, s, from, r, best);
    }
  }

  lemma ChosenHasContent(cs: seq<Content>, w: int, s: seq<InflectionPoint>, from: nat, r: seq<InflectionPoint>, best: nat)
    requires Swept(cs, w, s, from, r) && Narrow(cs, w) && best < |r|
    ensures Reaches(cs)
    ensures r[best].pos == 0 ==> exists i :: 0 <= i < |cs| && cs[i].start + cs[i].extent - w <= 0
  {
    SweptTotals(cs, w, s, from, r, best);
    var e := from + best;
    var i := SweptPoint(cs, w, s, e);
    if s[e].pos < 0 {
      var j := SweptPoint(cs, w, s, from + 1);
    }
  }

  // Away from ties a window covers, edges included, what some position covers ahead of its edge.
  lemma {:induction false} NothingLeaves(cs: seq<Content>, w: int, q: int)
    requires forall i :: 0 <= i < |cs| ==> cs[i].start != q
    ensures Covered(cs, w, q) == CoveredAhead(cs, w, q)
  {
    if cs != [] {
      NothingLeaves(cs[1..], w, q);
    }
  }

  lemma {:induction false} NothingEnters(cs: seq<Content>, w: int, q: int)
    requires Narrow(cs, w) && forall i :: 0 <= i < |cs| ==> cs[i].start + cs[i].extent - w != q
    ensures Covered(cs, w, q) == CoveredAhead(cs, w, q - 1)
  {
    if cs != [] {
      NothingEnters(cs[1..], w, q);
    }
  }

  // No tie order loses against a position without a tie.
  lemma BeatsTieFree(cs: seq<Content>, w: int, p: int, q: nat)
    requires Narrow(cs, w) && Possible(cs, w, p) && !TieAt(cs, w, q)
    ensures Covered(cs, w, q) <= Covered(cs, w, p)
  {
    if exists i :: 0 <= i < |cs| && cs[i].start == q {
      NothingEnters(cs, w, q);
    } else {
      NothingLeaves(cs, w, q);
    }
  }

  lemma {:induction false} AllBehind(cs: seq<Content>, w: int, q: nat)
    requires forall i :: 0 <= i < |cs| ==> cs[i].start < 0
    ensures Covered(cs, w, q) == 0 && CoveredAhead(cs, w, q) == 0
  {
    if cs != [] {
      AllBehind(cs[1..], w, q);
    }
  }

  // If no point is left, all content lies before the image.
  lemma NothingToCover(cs: seq<Content>, w: int, s: seq<InflectionPoint>, from: nat)
    requires Swept(cs, w, s, from, [])
    ensures forall i :: 0 <= i < |cs| ==> cs[i].start < 0
  {
    forall i | 0 <= i < |cs| ensures cs[i].start < 0 {
      var x := PointsOf(cs[i], w)[1];
      ExitIsPoint(cs, w, i);
      assert x in multiset(s);
      var k :| 0 <= k < |s| && s[k] == x;
    }
  }

  lemma {:induction false} ExitIsPoint(cs: seq<Content>, w: int, i: nat)
    requires i < |cs|
    ensures PointsOf(cs[i], w)[1] in Points(cs, w)
  {
    if i > 0 {
      ExitIsPoint(cs[1..], w, i - 1);
    }
  }

  // What the chosen position is worth.
  lemma ChoiceIsGood(cs: seq<Content>, w: int, s: seq<InflectionPoint>, from: nat, r: seq<InflectionPoint>, best: nat)
    requires Swept(cs, w, s, from, r) && Narrow(cs, w) && FirstBest(r, best)
    ensures Optimal(cs, w, r[best].pos) && BestWithoutTie(cs, w, r[best].pos) && Possible(cs, w, r[best].pos)
  {
    ChosenIsPossible(cs, w, s, from, r, best);
    forall q: nat | !TieAt(cs, w, q) ensures Covered(cs, w, q) <= Covered(cs, w, r[best].pos) {
      BeatsTieFree(cs, w, r[best].pos, q);
    }
  }

  // Without a point to choose, any position will do.
  lemma AnywhereIsGood(cs: seq<Content>, w: int, s: seq<InflectionPoint>, from: nat, p: nat)
    requires Swept(cs, w, s, from, [])
    ensures Optimal(cs, w, p) && BestWithoutTie(cs, w, p) && !Reaches(cs)
  {
    NothingToCover(cs, w, s, from);
    AllBehind(cs, w, p);
    forall q: nat ensures Covered(cs, w, q) == 0 && CoveredAhead(cs, w, q) == 0 {
      AllBehind(cs, w, q);
    }
  }

  // ------------------------------------------------------------------
  // What that means on the image itself
  // ------------------------------------------------------------------

  predicate Within(r: Rect, w: Rect) {
    w.x <= r.x && w.y <= r.y && r.x + r.width <= w.x + w.width && r.y + r.height <= w.y + w.height
  }

  // A square with the length of the shorter side, inside the image.
  predicate IsSquare(img: Image, w: Rect) {
    Inside(img, w) && w.width == w.height && (w.width == img.cols || w.height == img.rows)
  }

  // A face is worth its area, at least 1.
  function FaceWorth(faces: seq<Rect>, w: Rect): int {
    if faces == [] then 0
    else
      (if !Within(faces[0], w) then 0
       else if faces[0].width * faces[0].height < 1 then 1
       else faces[0].width * faces[0].height) + FaceWorth(faces[1..], w)
  }

  // A feature is worth 1, whatever its size.
  function FeatureWorth(features: seq<Rect>, w: Rect): int {
    if features == [] then 0 else (if Within(features[0], w) then 1 else 0) + FeatureWorth(features[1..], w)
  }

  // The faces and features that lie in the window with all their area.
  function Worth(img: Image, w: Rect): int { FaceWorth(img.faces, w) + FeatureWorth(img.features, w) }

  predicate IsContent(img: Image, r: Rect) { r in img.faces || r in img.features }

  // Something in the image starts where the window starts, or ends where it ends.
  ghost predicate TouchesNear(img: Image, w: Rect) {
    exists r :: IsContent(img, r) && if img.cols > img.rows then r.x == w.x else r.y == w.y
  }

  ghost predicate TouchesFar(img: Image, w: Rect) {
    exists r :: IsContent(img, r) && if img.cols > img.rows then r.x + r.width == w.x + w.width else r.y + r.height == w.y + w.height
  }

  // The image without what touches the near edge of the window.
  function Clear(img: Image, rs: seq<Rect>, w: Rect): seq<Rect> {
    if rs == [] then []
    else (if (if img.cols > img.rows then rs[0].x == w.x else rs[0].y == w.y) then [] else [rs[0]]) + Clear(img, rs[1..], w)
  }

  function WithoutNear(img: Image, w: Rect): Image {
    img.(faces := Clear(img, img.faces, w), features := Clear(img, img.features, w))
  }

  ghost predicate SmallEnough(img: Image) {
    forall r :: IsContent(img, r) ==> r.width <= img.cols && r.width <= img.rows && r.height <= img.cols && r.height <= img.rows
  }

  function Projected(img: Image, rs: seq<Rect>, ratio: nat): seq<Content> {
    if rs == [] then [] else [Project(img, rs[0], ratio)] + Projected(img, rs[1..], ratio)
  }

  lemma {:induction false} ProjectedEach(img: Image, rs: seq<Rect>, ratio: nat)
    ensures Projected(img, rs, ratio) == seq(|rs|, i requires 0 <= i < |rs| => Project(img, rs[i], ratio))
  {
    if rs != [] {
      ProjectedEach(img, rs[1..], ratio);
    }
  }

  lemma ContentsAreProjected(img: Image)
    ensures Contents(img) == Projected(img, img.faces, 1) + Projected(img, img.features, 0)
  {
    ProjectedEach(img, img.faces, 1);
    ProjectedEach(img, img.features, 0);
  }

  lemma {:induction false} CoveredConcat(a: seq<Content>, b: seq<Content>, w: int, q: int)
    ensures Covered(a + b, w, q) == Covered(a, w, q) + Covered(b, w, q)
    ensures CoveredAhead(a + b, w, q) == CoveredAhead(a, w, q) + CoveredAhead(b, w, q)
  {
    if a == [] {
      assert a + b == b;
    } else {
      assert (a + b)[1..] == a[1..] + b;
      CoveredConcat(a[1..], b, w, q);
    }
  }

  // Across the image every content fits any window, so only the long side matters.
  lemma WithinAlong(img: Image, r: Rect, ratio: nat, w: Rect)
    requires Inside(img, r) && IsSquare(img, w)
    ensures var c, p := Project(img, r, ratio), Offset(img, w);
            Within(r, w) <==> p <= c.start && c.start + c.extent <= p + Window(img)
  {}

  lemma {:induction false} FacesCovered(img: Image, rs: seq<Rect>, w: Rect)
    requires IsSquare(img, w) && forall i :: 0 <= i < |rs| ==> Inside(img, rs[i])
    ensures Covered(Projected(img, rs, 1), Window(img), Offset(img, w)) == FaceWorth(rs, w)
    ensures CoveredAhead(Projected(img, rs, 1), Window(img), Offset(img, w)) == FaceWorth(Clear(img, rs, w), w)
  {
    if rs != [] {
      FacesCovered(img, rs[1..], w);
      WithinAlong(img, rs[0], 1, w);
      assert 1 * rs[0].width * rs[0].height == rs[0].width * rs[0].height;
      var clear := Clear(img, rs, w);
      assert clear != Clear(img, rs[1..], w) ==> clear == [rs[0]] + Clear(img, rs[1..], w) && clear[1..] == Clear(img, rs[1..], w);
    }
  }

  lemma {:induction false} FeaturesCovered(img: Image, rs: seq<Rect>, w: Rect)
    requires IsSquare(img, w) && forall i :: 0 <= i < |rs| ==> Inside(img, rs[i])
    ensures Covered(Projected(img, rs, 0), Window(img), Offset(img, w)) == FeatureWorth(rs, w)
    ensures CoveredAhead(Projected(img, rs, 0), Window(img), Offset(img, w)) == FeatureWorth(Clear(img, rs, w), w)
  {
    if rs != [] {
      FeaturesCovered(img, rs[1..], w);
      WithinAlong(img, rs[0], 0, w);
      assert 0 * rs[0].width * rs[0].height == 0;
      var clear := Clear(img, rs, w);
      assert clear != Clear(img, rs[1..], w) ==> clear == [rs[0]] + Clear(img, rs[1..], w) && clear[1..] == Clear(img, rs[1..], w);
    }
  }

  // What the sweep maximises is what the square shows of the image.
  lemma WorthIsCovered(img: Image, w: Rect)
    requires AllInside(img) && IsSquare(img, w)
    ensures Covered(Contents(img), Window(img), Offset(img, w)) == Worth(img, w)
    ensures CoveredAhead(Contents(img), Window(img), Offset(img, w)) == Worth(WithoutNear(img, w), w)
  {
    ContentsAreProjected(img);
    CoveredConcat(Projected(img, img.faces, 1), Projected(img, img.features, 0), Window(img), Offset(img, w));
    FacesCovered(img, img.faces, w);
    FeaturesCovered(img, img.features, w);
  }

  lemma ContentAt(img: Image, i: nat) returns (r: Rect)
    requires i < |Contents(img)|
    ensures IsContent(img, r)
    ensures Contents(img)[i].start == (if img.cols > img.rows then r.x else r.y)
    ensures Contents(img)[i].extent == (if img.cols > img.rows then r.width else r.height)
  {
    r := if i < |img.faces| then img.faces[i] else img.features[i - |img.faces|];
  }

  lemma SmallIsNarrow(img: Image)
    requires SmallEnough(img)
    ensures Narrow(Contents(img), Window(img))
  {
    forall i | 0 <= i < |Contents(img)| ensures Contents(img)[i].extent <= Window(img) {
      var r := ContentAt(img, i);
    }
  }

  lemma TieTouches(img: Image, w: Rect)
    requires IsSquare(img, w) && TieAt(Contents(img), Window(img), Offset(img, w))
    ensures TouchesNear(img, w) && TouchesFar(img, w)
  {
    var cs, q := Contents(img), Offset(img, w);
    var i :| 0 <= i < |cs| && cs[i].start == q;
    var j :| 0 <= j < |cs| && cs[j].start + cs[j].extent - Window(img) == q;
    var near := ContentAt(img, i);
    var far := ContentAt(img, j);
  }

  // No square of the image shows more, unless content touches its near edge and its far edge; and
  // none shows more away from its near edge.
  ghost predicate BestSquare(img: Image, roi: Rect) {
    forall w :: IsSquare(img, w) ==>
      && (!(TouchesNear(img, w) && TouchesFar(img, w)) ==> Worth(img, w) <= Worth(img, roi))
      && Worth(WithoutNear(img, w), w) <= Worth(img, roi)
  }

  lemma BestOnImage(img: Image, roi: Rect)
    requires AllInside(img) && IsSquare(img, roi)
    requires Optimal(Contents(img), Window(img), Offset(img, roi)) && BestWithoutTie(Contents(img), Window(img), Offset(img, roi))
    ensures BestSquare(img, roi)
  {
    WorthIsCovered(img, roi);
    forall w | IsSquare(img, w)
      ensures !(TouchesNear(img, w) && TouchesFar(img, w)) ==> Worth(img, w) <= Worth(img, roi)
      ensures Worth(WithoutNear(img, w), w) <= Worth(img, roi)
    {
      WorthIsCovered(img, w);
      if !(TouchesNear(img, w) && TouchesFar(img, w)) && TieAt(Contents(img), Window(img), Offset(img, w)) {
        TieTouches(img, w);
      }
    }
  }

  /**
  The crop is a square with the length of the shorter side. It lies inside the image whenever the
  content does, and is centred when there is none. If no content is larger than the square, it is
  the best square in the sense above; and for its position along the longer side the sharper
  statements about every tie order hold.
   */
  method Crop(img: Image) returns (roi: Rect)
    ensures roi.width == roi.height == if img.cols < img.rows then img.cols else img.rows
    ensures if img.cols > img.rows then roi.y == 0 else roi.x == 0
    ensures AllInside(img) ==> IsSquare(img, roi)
    ensures img.faces == [] && img.features == [] ==>
      if img.cols > img.rows then roi.x == img.cols / 2 - img.rows / 2 else roi.y == img.rows / 2 - img.cols / 2
    ensures AllInside(img) && SmallEnough(img) ==> BestSquare(img, roi)
    ensures var cs, w, p := Contents(img), Window(img), Offset(img, roi);
            Narrow(cs, w) ==> Optimal(cs, w, p) && BestWithoutTie(cs, w, p) && (Reaches(cs) ==> Possible(cs, w, p))
  {
    var w := Window(img);
    ghost var cs := Contents(img);
    var infections, sorted, from := Sweep(img);
    roi := Rect(0, 0, w, w);
    if infections != [] {
      var best := MaxTotal(infections);
      if img.cols > img.rows {
        roi := roi.(x := infections[best].pos);
      } else {
        roi := roi.(y := infections[best].pos);
      }
      if AllInside(img) {
        ChosenInRange(cs, w, sorted, from, infections, best, Length(img) - w);
      }
      if Narrow(cs, w) {
        ChoiceIsGood(cs, w, sorted, from, infections, best);
      }
    } else {
      if img.cols > img.rows {
        roi := roi.(x := img.cols / 2 - w / 2);
      } else {
        roi := roi.(y := img.rows / 2 - w / 2);
      }
      AnywhereIsGood(cs, w, sorted, from, Offset(img, roi));
    }
    if AllInside(img) && SmallEnough(img) {
      SmallIsNarrow(img);
      BestOnImage(img, roi);
    }
  }
}
