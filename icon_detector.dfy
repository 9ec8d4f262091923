/**
 * Template-match post-processing of the icon detector: the centre of each match, greedy
 * non-maximum suppression over equally sized boxes (`_nms`, `_iou`), and the final
 * sort-and-truncate of `find_icons`. Areas are integers; the IoU ratio is exact `real`
 * arithmetic.
 */
module IconDetector {

  /** A template-match location: the top-left corner the matcher reports, and its score. */
  datatype Hit = Hit(x: int, y: int, score: real)

  /** A detected icon as `find_icons` returns it: centre and score. */
  datatype Match = Match(x: int, y: int, score: real)

  /** An axis-aligned box by its corners. */
  datatype Box = Box(x1: int, y1: int, x2: int, y2: int)

  /** An entry of the suppression worklist: a box and its score. */
  datatype Scored = Scored(box: Box, score: real)

  /** Default IoU threshold of `_nms`, the one `find_icons` uses. */
  const IouThresh: real := 0.3

  /** The constant added to the IoU denominator. */
  const Epsilon: real := 0.000001

  function Max(a: int, b: int): int { if a >= b then a else b }

  function Min(a: int, b: int): int { if a <= b then a else b }

  function MatchScore(m: Match): real { m.score }

  function BoxScore(s: Scored): real { s.score }

  // ---------------------------------------------------------------------------------------
  // Intersection over union

  function Area(b: Box): int
  {
    (b.x2 - b.x1) * (b.y2 - b.y1)
  }

  /** The overlap of two boxes; each side is clamped at zero, so the area never goes negative. */
  function InterArea(a: Box, b: Box): (r: int)
    ensures r >= 0
    ensures (Min(a.x2, b.x2) <= Max(a.x1, b.x1) || Min(a.y2, b.y2) <= Max(a.y1, b.y1)) ==> r == 0
  {
    var xA := Max(a.x1, b.x1);
    var yA := Max(a.y1, b.y1);
    var xB := Min(a.x2, b.x2);
    var yB := Min(a.y2, b.y2);
    Max(0, xB - xA) * Max(0, yB - yA)
  }

  /** `_iou`: overlap divided by the union, plus a small constant that keeps the divisor non-zero. */
  function Iou(a: Box, b: Box): (r: real)
    ensures InterArea(a, b) == 0 ==> r == 0.0
  {
    var inter := InterArea(a, b);
    var union := Area(a) + Area(b) - inter;
    assert union as real + Epsilon != 0.0 by {
      if union < 0 {
        assert union as real <= -1.0;
      }
    }
    (inter as real) / (union as real + Epsilon)
  }

  /** The ratio does not depend on the order of its arguments. */
  lemma IouSymmetric(a: Box, b: Box)
    ensures InterArea(a, b) == InterArea(b, a)
    ensures Iou(a, b) == Iou(b, a)
  {
  }

  /** A box whose corners are in order. */
  predicate WellFormed(b: Box)
  {
    b.x1 <= b.x2 && b.y1 <= b.y2
  }

  lemma MulMono(a: int, b: int, c: int, d: int)
    requires 0 <= a <= c && 0 <= b <= d
    ensures a * b <= c * d
  {
    assert a * b <= c * b;
    assert c * b <= c * d;
  }

  /** For boxes with ordered corners the overlap fits inside each box, so IoU lies in [0, 1). */
  lemma IouInUnitInterval(a: Box, b: Box)
    requires WellFormed(a) && WellFormed(b)
    ensures InterArea(a, b) <= Area(a) && InterArea(a, b) <= Area(b)
    ensures 0.0 <= Iou(a, b) < 1.0
  {
    var dx := Max(0, Min(a.x2, b.x2) - Max(a.x1, b.x1));
    var dy := Max(0, Min(a.y2, b.y2) - Max(a.y1, b.y1));
    MulMono(dx, dy, a.x2 - a.x1, a.y2 - a.y1);
    MulMono(dx, dy, b.x2 - b.x1, b.y2 - b.y1);
    var inter := InterArea(a, b);
    RatioBelowOne(inter as real, (Area(a) + Area(b) - inter) as real + Epsilon);
  }

  lemma RatioBelowOne(n: real, d: real)
    requires 0.0 <= n < d
    ensures 0.0 <= n / d < 1.0
  {
  }

  // ---------------------------------------------------------------------------------------
  // Centres and boxes

  /** A box of the template's size around a match: `(x - w//2, y - h//2, x + w//2, y + h//2)`. */
  function ToBox(m: Match, w: nat, h: nat): Scored
  {
    Scored(Box(m.x - w / 2, m.y - h / 2, m.x + w / 2, m.y + h / 2), m.score)
  }

  /**
   * The kept centre `((x1 + x2) // 2, (y1 + y2) // 2)`. Python's `//` floors; so does
   * Dafny's `/` for a positive divisor, negative sums included.
   */
  function CenterOf(s: Scored): Match
  {
    Match((s.box.x1 + s.box.x2) / 2, (s.box.y1 + s.box.y2) / 2, s.score)
  }

  /** The centre survives the box round trip exactly, whatever the template's parity. */
  lemma CenterRoundTrip(m: Match, w: nat, h: nat)
    ensures CenterOf(ToBox(m, w, h)) == m
    ensures WellFormed(ToBox(m, w, h).box)
  {
  }

  function ToBoxes(ms: seq<Match>, w: nat, h: nat): (bs: seq<Scored>)
    ensures |bs| == |ms|
  {
    seq(|ms|, i requires 0 <= i < |ms| => ToBox(ms[i], w, h))
  }

  function Centers(ks: seq<Scored>): (cs: seq<Match>)
    ensures |cs| == |ks|
  {
    seq(|ks|, i requires 0 <= i < |ks| => CenterOf(ks[i]))
  }

  /** The centre of the match found at template corner `hit`. */
  function MatchOf(hit: Hit, w: nat, h: nat): Match
  {
    Match(hit.x + w / 2, hit.y + h / 2, hit.score)
  }

  /**
   * The accumulation loop of `find_icons`: one centre per location, in the matcher's order.
   * Saving a crop of each match to disk is not modelled.
   */
  method CollectMatches(hits: seq<Hit>, w: nat, h: nat) returns (matches: seq<Match>)
    ensures |matches| == |hits|
    ensures forall i :: 0 <= i < |hits| ==> matches[i] == MatchOf(hits[i], w, h)
  {
    matches := [];
    for i := 0 to |hits|
      invariant |matches| == i
      invariant forall j :: 0 <= j < i ==> matches[j] == MatchOf(hits[j], w, h)
    {
      matches := matches + [MatchOf(hits[i], w, h)];
    }
  }

  /**
   * The suppression box of a collected match starts at the location the matcher reported and
   * spans the template, less one pixel on a side of odd length.
   */
  lemma MatchBoxAtHit(hit: Hit, w: nat, h: nat)
    ensures ToBox(MatchOf(hit, w, h), w, h).box ==
      Box(hit.x, hit.y, hit.x + w - w % 2, hit.y + h - h % 2)
    ensures ToBox(MatchOf(hit, w, h), w, h).score == hit.score
  {
  }

  // ---------------------------------------------------------------------------------------
  // Stable descending sort

  /** Scores do not increase along `xs`. */
  predicate SortedDesc<T>(xs: seq<T>, key: T -> real)
  {
    forall i, j :: 0 <= i < j < |xs| ==> key(xs[i]) >= key(xs[j])
  }

  /** Prepending an element at least as large as everything keeps a list descending. */
  lemma ConsSorted<T>(x: T, t: seq<T>, key: T -> real)
    requires SortedDesc(t, key)
    requires forall y :: y in t ==> key(x) >= key(y)
    ensures SortedDesc([x] + t, key)
  {
    var r := [x] + t;
    forall i, j | 0 <= i < j < |r|
      ensures key(r[i]) >= key(r[j])
    {
      assert r[j] == t[j - 1];
      if i > 0 {
        assert r[i] == t[i - 1];
      } else {
        assert t[j - 1] in t;
      }
    }
  }

  /** The tail of a descending list is descending and bounded by its head. */
  lemma TailSorted<T>(xs: seq<T>, key: T -> real)
    requires xs != [] && SortedDesc(xs, key)
    ensures SortedDesc(xs[1..], key)
    ensures forall y :: y in xs ==> key(xs[0]) >= key(y)
  {
    var tail := xs[1..];
    forall i, j | 0 <= i < j < |tail|
      ensures key(tail[i]) >= key(tail[j])
    {
      assert tail[i] == xs[i + 1] && tail[j] == xs[j + 1];
    }
    forall y | y in xs
      ensures key(xs[0]) >= key(y)
    {
      var k :| 0 <= k < |xs| && xs[k] == y;
      if k > 0 {
        assert key(xs[0]) >= key(xs[k]);
      }
    }
  }

  /** Places `x` before the first element whose key is not larger, so earlier ties stay first. */
  function Insert<T(!new)>(x: T, ys: seq<T>, key: T -> real): (r: seq<T>)
    ensures |r| == |ys| + 1
    ensures forall y :: y in r <==> y == x || y in ys
    decreases |ys|
  {
    if ys == [] || key(x) >= key(ys[0]) then [x] + ys
    else [ys[0]] + Insert(x, ys[1..], key)
  }

  /** `sorted(xs, key=lambda e: -score(e))`: descending by key, stable on ties. */
  function SortDesc<T(!new)>(xs: seq<T>, key: T -> real): (r: seq<T>)
    ensures |r| == |xs|
    ensures forall y :: y in r <==> y in xs
    decreases |xs|
  {
    if xs == [] then [] else Insert(xs[0], SortDesc(xs[1..], key), key)
  }

  lemma {:induction false} InsertPermutes<T(!new)>(x: T, ys: seq<T>, key: T -> real)
    ensures multiset(Insert(x, ys, key)) == multiset(ys) + multiset{x}
    decreases |ys|
  {
    if ys != [] && key(x) < key(ys[0]) {
      InsertPermutes(x, ys[1..], key);
      assert ys == [ys[0]] + ys[1..];
    }
  }

  lemma {:induction false} InsertSorted<T(!new)>(x: T, ys: seq<T>, key: T -> real)
    requires SortedDesc(ys, key)
    ensures SortedDesc(Insert(x, ys, key), key)
    decreases |ys|
  {
    if ys == [] {
    } else if key(x) >= key(ys[0]) {
      TailSorted(ys, key);
      ConsSorted(x, ys, key);
    } else {
      TailSorted(ys, key);
      InsertSorted(x, ys[1..], key);
      ConsSorted(ys[0], Insert(x, ys[1..], key), key);
    }
  }

  /** The sort is a permutation of its input and its output is in descending order. */
  lemma {:induction false} SortDescSpec<T(!new)>(xs: seq<T>, key: T -> real)
    ensures multiset(SortDesc(xs, key)) == multiset(xs)
    ensures SortedDesc(SortDesc(xs, key), key)
    decreases |xs|
  {
    if xs != [] {
      SortDescSpec(xs[1..], key);
      InsertPermutes(xs[0], SortDesc(xs[1..], key), key);
      InsertSorted(xs[0], SortDesc(xs[1..], key), key);
      assert xs == [xs[0]] + xs[1..];
    }
  }

  /** Sorting a list that is already in descending order leaves it as it is. */
  lemma {:induction false} SortDescOfSorted<T(!new)>(xs: seq<T>, key: T -> real)
    requires SortedDesc(xs, key)
    ensures SortDesc(xs, key) == xs
    decreases |xs|
  {
    if xs != [] {
      TailSorted(xs, key);
      SortDescOfSorted(xs[1..], key);
      assert xs == [xs[0]] + xs[1..];
    }
  }

  // ---------------------------------------------------------------------------------------
  // Greedy suppression

  /** The elements of `xs` that pass `p`, in order. */
  function Filter<T(!new)>(xs: seq<T>, p: T -> bool): (r: seq<T>)
    ensures |r| <= |xs|
    ensures forall x :: x in r <==> x in xs && p(x)
    decreases |xs|
  {
    if xs == [] then []
    else if p(xs[0]) then [xs[0]] + Filter(xs[1..], p)
    else Filter(xs[1..], p)
  }

  /** Filtering keeps a subsequence, so a descending list stays descending. */
  lemma {:induction false} FilterSorted<T(!new)>(xs: seq<T>, p: T -> bool, key: T -> real)
    requires SortedDesc(xs, key)
    ensures SortedDesc(Filter(xs, p), key)
    decreases |xs|
  {
    if xs != [] {
      TailSorted(xs, key);
      FilterSorted(xs[1..], p, key);
      if p(xs[0]) {
        ConsSorted(xs[0], Filter(xs[1..], p), key);
      }
    }
  }

  /** The test of the comprehension in `_nms`: `_iou(box, b) < thresh`. */
  function Survives(box: Box, thresh: real): Scored -> bool
  {
    (s: Scored) => Iou(box, s.box) < thresh
  }

  /** What the `_nms` loop keeps, box by box: the head, then what survives next to it. */
  function Greedy(bs: seq<Scored>, thresh: real): seq<Scored>
    decreases |bs|
  {
    if bs == [] then []
    else [bs[0]] + Greedy(Filter(bs[1..], Survives(bs[0].box, thresh)), thresh)
  }

  /** `_nms` on matches of one template size: the centres of the greedily kept boxes. */
  function NmsSpec(matches: seq<Match>, w: nat, h: nat, thresh: real): seq<Match>
  {
    Centers(Greedy(SortDesc(ToBoxes(matches, w, h), BoxScore), thresh))
  }

  /**
   * `_nms`: sort the boxes by descending score, then repeatedly pop the head, keep its centre
   * and drop every remaining box that overlaps it by `thresh` or more.
   */
  method Nms(matches: seq<Match>, w: nat, h: nat, thresh: real := IouThresh) returns (keep: seq<Match>)
    ensures keep == NmsSpec(matches, w, h, thresh)
  {
    var boxes := SortDesc(ToBoxes(matches, w, h), BoxScore);
    ghost var all := boxes;
    ghost var kept: seq<Scored> := [];
    keep := [];
    while boxes != []
      invariant kept + Greedy(boxes, thresh) == Greedy(all, thresh)
      invariant keep == Centers(kept)
      decreases |boxes|
    {
      var b := boxes[0];
      boxes := boxes[1..];
      keep := keep + [CenterOf(b)];
      kept := kept + [b];
      boxes := Filter(boxes, Survives(b.box, thresh));
    }
  }

  /** Every kept box comes from the worklist, and no more are kept than were given. */
  lemma {:induction false} GreedyFromInput(bs: seq<Scored>, thresh: real)
    ensures |Greedy(bs, thresh)| <= |bs|
    ensures forall s :: s in Greedy(bs, thresh) ==> s in bs
    decreases |bs|
  {
    if bs != [] {
      var rest := Filter(bs[1..], Survives(bs[0].box, thresh));
      GreedyFromInput(rest, thresh);
      assert Greedy(bs, thresh) == [bs[0]] + Greedy(rest, thresh);
    }
  }

  /** Kept boxes come out in the worklist's descending score order. */
  lemma {:induction false} GreedySorted(bs: seq<Scored>, thresh: real)
    requires SortedDesc(bs, BoxScore)
    ensures SortedDesc(Greedy(bs, thresh), BoxScore)
    decreases |bs|
  {
    if bs != [] {
      TailSorted(bs, BoxScore);
      var rest := Filter(bs[1..], Survives(bs[0].box, thresh));
      FilterSorted(bs[1..], Survives(bs[0].box, thresh), BoxScore);
      GreedySorted(rest, thresh);
      GreedyFromInput(rest, thresh);
      ConsSorted(bs[0], Greedy(rest, thresh), BoxScore);
    }
  }

  /** Any two kept boxes overlap by less than the threshold, the earlier one measured first. */
  lemma {:induction false} GreedySeparated(bs: seq<Scored>, thresh: real)
    ensures var g := Greedy(bs, thresh);
      forall i, j :: 0 <= i < j < |g| ==> Iou(g[i].box, g[j].box) < thresh
    decreases |bs|
  {
    if bs != [] {
      var rest := Filter(bs[1..], Survives(bs[0].box, thresh));
      GreedySeparated(rest, thresh);
      GreedyFromInput(rest, thresh);
      var g := Greedy(bs, thresh);
      var gr := Greedy(rest, thresh);
      assert g == [bs[0]] + gr;
      forall i, j | 0 <= i < j < |g|
        ensures Iou(g[i].box, g[j].box) < thresh
      {
        assert g[j] == gr[j - 1];
        if i > 0 {
          assert g[i] == gr[i - 1];
        } else {
          assert gr[j - 1] in rest;
          assert Survives(bs[0].box, thresh)(gr[j - 1]);
        }
      }
    }
  }

  /** `s` was kept, or a kept box scoring at least as high overlaps it by the threshold or more. */
  predicate Covered(s: Scored, g: seq<Scored>, thresh: real)
  {
    s in g || exists k :: k in g && Iou(k.box, s.box) >= thresh && k.score >= s.score
  }

  /** Every box of a descending worklist is covered by what the greedy pass keeps. */
  lemma {:induction false} GreedyCovers(bs: seq<Scored>, thresh: real)
    requires SortedDesc(bs, BoxScore)
    ensures forall s :: s in bs ==> Covered(s, Greedy(bs, thresh), thresh)
    decreases |bs|
  {
    if bs != [] {
      TailSorted(bs, BoxScore);
      var p := Survives(bs[0].box, thresh);
      var rest := Filter(bs[1..], p);
      FilterSorted(bs[1..], p, BoxScore);
      GreedyCovers(rest, thresh);
      var g := Greedy(bs, thresh);
      var gr := Greedy(rest, thresh);
      assert g == [bs[0]] + gr;
      forall s | s in bs
        ensures Covered(s, g, thresh)
      {
        if s == bs[0] {
        } else if !p(s) {
          assert bs[0] in g;
        } else {
          assert s in bs[1..];
          assert s in rest;
          assert Covered(s, gr, thresh);
          if s !in gr {
            var k :| k in gr && Iou(k.box, s.box) >= thresh && k.score >= s.score;
            assert k in g;
          }
        }
      }
    }
  }

  // ---------------------------------------------------------------------------------------
  // The suppression result in terms of matches

  /** A box of the sorted worklist is the box of one of the matches, centred on that match. */
  lemma WorklistFromMatches(matches: seq<Match>, w: nat, h: nat, s: Scored)
    requires s in SortDesc(ToBoxes(matches, w, h), BoxScore)
    ensures CenterOf(s) in matches && ToBox(CenterOf(s), w, h) == s
  {
    var bs := ToBoxes(matches, w, h);
    var j :| 0 <= j < |bs| && bs[j] == s;
    CenterRoundTrip(matches[j], w, h);
  }

  /** `_nms` keeps no more entries than it is given, and each kept centre is one of the matches. */
  lemma NmsFromInput(matches: seq<Match>, w: nat, h: nat, thresh: real)
    ensures |NmsSpec(matches, w, h, thresh)| <= |matches|
    ensures forall m :: m in NmsSpec(matches, w, h, thresh) ==> m in matches
  {
    var sorted := SortDesc(ToBoxes(matches, w, h), BoxScore);
    var g := Greedy(sorted, thresh);
    GreedyFromInput(sorted, thresh);
    forall m | m in NmsSpec(matches, w, h, thresh)
      ensures m in matches
    {
      var keep := NmsSpec(matches, w, h, thresh);
      var i :| 0 <= i < |keep| && keep[i] == m;
      assert g[i] in sorted;
      WorklistFromMatches(matches, w, h, g[i]);
    }
  }

  /** `_nms` returns its centres by non-increasing score. */
  lemma NmsSorted(matches: seq<Match>, w: nat, h: nat, thresh: real)
    ensures SortedDesc(NmsSpec(matches, w, h, thresh), MatchScore)
  {
    var sorted := SortDesc(ToBoxes(matches, w, h), BoxScore);
    SortDescSpec(ToBoxes(matches, w, h), BoxScore);
    GreedySorted(sorted, thresh);
    var g := Greedy(sorted, thresh);
    var keep := NmsSpec(matches, w, h, thresh);
    forall i, j | 0 <= i < j < |keep|
      ensures MatchScore(keep[i]) >= MatchScore(keep[j])
    {
      assert keep[i].score == g[i].score && keep[j].score == g[j].score;
    }
  }

  /** The template-sized boxes of any two kept centres overlap by less than the threshold. */
  lemma NmsSeparated(matches: seq<Match>, w: nat, h: nat, thresh: real)
    ensures var keep := NmsSpec(matches, w, h, thresh);
      forall i, j :: 0 <= i < j < |keep| ==>
        Iou(ToBox(keep[i], w, h).box, ToBox(keep[j], w, h).box) < thresh
  {
    var sorted := SortDesc(ToBoxes(matches, w, h), BoxScore);
    var g := Greedy(sorted, thresh);
    GreedySeparated(sorted, thresh);
    GreedyFromInput(sorted, thresh);
    var keep := NmsSpec(matches, w, h, thresh);
    forall i, j | 0 <= i < j < |keep|
      ensures Iou(ToBox(keep[i], w, h).box, ToBox(keep[j], w, h).box) < thresh
    {
      WorklistFromMatches(matches, w, h, g[i]);
      WorklistFromMatches(matches, w, h, g[j]);
    }
  }

  /** A match was kept, or a kept centre scoring at least as high overlaps its box enough. */
  predicate MatchCovered(m: Match, keep: seq<Match>, w: nat, h: nat, thresh: real)
  {
    m in keep ||
    exists k :: k in keep && Iou(ToBox(k, w, h).box, ToBox(m, w, h).box) >= thresh && k.score >= m.score
  }

  /** A covered box lifts to a covered match when every kept box is the box of its own centre. */
  lemma LiftCovered(g: seq<Scored>, keep: seq<Match>, w: nat, h: nat, thresh: real, m: Match, s: Scored)
    requires keep == Centers(g)
    requires s == ToBox(m, w, h)
    requires forall k :: k in g ==> ToBox(CenterOf(k), w, h) == k
    requires Covered(s, g, thresh)
    ensures MatchCovered(m, keep, w, h, thresh)
  {
    CenterRoundTrip(m, w, h);
    if s in g {
      var i :| 0 <= i < |g| && g[i] == s;
      assert keep[i] == m;
    } else {
      var k :| k in g && Iou(k.box, s.box) >= thresh && k.score >= s.score;
      var i :| 0 <= i < |g| && g[i] == k;
      var kept := keep[i];
      assert kept == CenterOf(k) && ToBox(kept, w, h) == k;
      assert kept in keep;
    }
  }

  lemma CoveredMatch(matches: seq<Match>, w: nat, h: nat, thresh: real, m: Match)
    requires m in matches
    requires forall s :: s in SortDesc(ToBoxes(matches, w, h), BoxScore) ==>
      Covered(s, Greedy(SortDesc(ToBoxes(matches, w, h), BoxScore), thresh), thresh)
    ensures MatchCovered(m, NmsSpec(matches, w, h, thresh), w, h, thresh)
  {
    var bs := ToBoxes(matches, w, h);
    var sorted := SortDesc(bs, BoxScore);
    var g := Greedy(sorted, thresh);
    GreedyFromInput(sorted, thresh);
    forall k | k in g
      ensures ToBox(CenterOf(k), w, h) == k
    {
      WorklistFromMatches(matches, w, h, k);
    }
    var n :| 0 <= n < |matches| && matches[n] == m;
    assert bs[n] in sorted;
    LiftCovered(g, NmsSpec(matches, w, h, thresh), w, h, thresh, m, bs[n]);
  }

  /** Every match is kept, or suppressed by a kept centre that overlaps it and scores as high. */
  lemma NmsCovers(matches: seq<Match>, w: nat, h: nat, thresh: real)
    ensures forall m :: m in matches ==> MatchCovered(m, NmsSpec(matches, w, h, thresh), w, h, thresh)
  {
    var sorted := SortDesc(ToBoxes(matches, w, h), BoxScore);
    SortDescSpec(ToBoxes(matches, w, h), BoxScore);
    GreedyCovers(sorted, thresh);
    forall m | m in matches
      ensures MatchCovered(m, NmsSpec(matches, w, h, thresh), w, h, thresh)
    {
      CoveredMatch(matches, w, h, thresh, m);
    }
  }

  // ---------------------------------------------------------------------------------------
  // The end of find_icons

  /** Python's `s[:n]`: a negative `n` counts from the end. */
  function Take<T>(s: seq<T>, n: int): (r: seq<T>)
    ensures |r| <= |s| && r == s[..|r|]
    ensures n >= 0 ==> |r| == Min(n, |s|)
    ensures n < 0 ==> |r| == Max(0, |s| + n)
  {
    if n >= |s| then s
    else if n >= 0 then s[..n]
    else if |s| + n >= 0 then s[..|s| + n]
    else []
  }

  function FindIconsSpec(hits: seq<Hit>, w: nat, h: nat, maxResults: int): seq<Match>
  {
    var matches := seq(|hits|, i requires 0 <= i < |hits| => MatchOf(hits[i], w, h));
    Take(SortDesc(NmsSpec(matches, w, h, IouThresh), MatchScore), maxResults)
  }

  /**
   * The part of `find_icons` after template matching: centre every location, suppress
   * overlaps, sort by descending score and keep the first `maxResults`.
   */
  method FindIcons(hits: seq<Hit>, w: nat, h: nat, maxResults: int := 5) returns (icons: seq<Match>)
    ensures icons == FindIconsSpec(hits, w, h, maxResults)
  {
    var matches := CollectMatches(hits, w, h);
    assert matches == seq(|hits|, i requires 0 <= i < |hits| => MatchOf(hits[i], w, h));
    var kept := Nms(matches, w, h, IouThresh);
    icons := Take(SortDesc(kept, MatchScore), maxResults);
  }

  /**
   * `find_icons` returns at most `maxResults` icons (for a non-negative bound), in descending
   * score order: a prefix of what suppression kept, since that is already in order.
   */
  lemma FindIconsBounds(hits: seq<Hit>, w: nat, h: nat, maxResults: int)
    ensures var icons := FindIconsSpec(hits, w, h, maxResults);
      var matches := seq(|hits|, i requires 0 <= i < |hits| => MatchOf(hits[i], w, h));
      var kept := NmsSpec(matches, w, h, IouThresh);
      (maxResults >= 0 ==> |icons| <= maxResults) &&
      |icons| <= |hits| &&
      icons == kept[..|icons|] &&
      SortedDesc(icons, MatchScore)
  {
    var matches := seq(|hits|, i requires 0 <= i < |hits| => MatchOf(hits[i], w, h));
    var kept := NmsSpec(matches, w, h, IouThresh);
    NmsSorted(matches, w, h, IouThresh);
    NmsFromInput(matches, w, h, IouThresh);
    SortDescOfSorted(kept, MatchScore);
    var icons := FindIconsSpec(hits, w, h, maxResults);
    assert icons == Take(kept, maxResults);
    forall i, j | 0 <= i < j < |icons|
      ensures MatchScore(icons[i]) >= MatchScore(icons[j])
    {
      assert icons[i] == kept[i] && icons[j] == kept[j];
    }
  }
}
