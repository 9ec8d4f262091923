/**
 * Locating a target string among OCR detections: the Levenshtein distance computed
 * row by row, the match test (substring either way, or distance at most 2 when fuzzy),
 * and the choice of the most confident match. The OCR engine and the screenshot are
 * replaced by the list of detections it returns.
 */
module OcrTool {
  import opened Wrappers
  import opened Text

  datatype Point = Point(x: int, y: int)

  /**
   * One OCR detection: the centre of its bounding box (the truncated mean of the four
   * corners, computed outside this model), the recognised text and its confidence.
   */
  datatype Detection = Detection(center: Point, text: string, confidence: real)

  function Min3(a: nat, b: nat, c: nat): nat
  {
    if a <= b && a <= c then a else if b <= c then b else c
  }

  function Max(a: nat, b: nat): nat
  {
    if a >= b then a else b
  }

  /** The cost of matching `a[i - 1]` against `b[j - 1]`: nothing if equal, one substitution otherwise. */
  function Cost(a: string, b: string, i: nat, j: nat): nat
    requires 0 < i <= |a| && 0 < j <= |b|
  {
    if a[i - 1] == b[j - 1] then 0 else 1
  }

  /**
   * The edit distance between the prefixes `a[..i]` and `b[..j]`: the least number of
   * single-character insertions, deletions and substitutions turning one into the other,
   * by the usual recurrence.
   */
  function PrefixDist(a: string, b: string, i: nat, j: nat): nat
    requires i <= |a| && j <= |b|
    decreases i + j
  {
    if i == 0 then j
    else if j == 0 then i
    else
      Min3(PrefixDist(a, b, i - 1, j) + 1,
           PrefixDist(a, b, i, j - 1) + 1,
           PrefixDist(a, b, i - 1, j - 1) + Cost(a, b, i, j))
  }

  /** The edit distance between `a` and `b`. */
  function Dist(a: string, b: string): nat
  {
    PrefixDist(a, b, |a|, |b|)
  }

  /** One cell of the table does not change when the insertion and deletion neighbours swap. */
  lemma CellSwap(up: nat, left: nat, diag: nat, c: nat, c': nat)
    requires c == c'
    ensures Min3(up + 1, left + 1, diag + c) == Min3(left + 1, up + 1, diag + c')
  {
  }

  /** The distance does not depend on which string comes first. */
  lemma {:induction false} PrefixDistSymmetric(a: string, b: string, i: nat, j: nat)
    requires i <= |a| && j <= |b|
    ensures PrefixDist(a, b, i, j) == PrefixDist(b, a, j, i)
    decreases i + j
  {
    if i == 0 || j == 0 {
    } else {
      PrefixDistSymmetric(a, b, i - 1, j);
      PrefixDistSymmetric(a, b, i, j - 1);
      PrefixDistSymmetric(a, b, i - 1, j - 1);
      CellSwap(PrefixDist(a, b, i - 1, j), PrefixDist(a, b, i, j - 1), PrefixDist(a, b, i - 1, j - 1),
               Cost(a, b, i, j), Cost(b, a, j, i));
    }
  }

  lemma DistSymmetric(a: string, b: string)
    ensures Dist(a, b) == Dist(b, a)
  {
    PrefixDistSymmetric(a, b, |a|, |b|);
  }

  /** Prefixes are at distance zero exactly when they are equal. */
  lemma {:induction false} PrefixDistZeroIffEqual(a: string, b: string, i: nat, j: nat)
    requires i <= |a| && j <= |b|
    ensures PrefixDist(a, b, i, j) == 0 <==> a[..i] == b[..j]
    decreases i + j
  {
    if i > 0 && j > 0 {
      PrefixDistZeroIffEqual(a, b, i - 1, j - 1);
      assert a[..i] == a[..i - 1] + [a[i - 1]] && b[..j] == b[..j - 1] + [b[j - 1]];
    }
  }

  /** A string is at distance zero from itself, and only from itself. */
  lemma DistZeroIffEqual(a: string, b: string)
    ensures Dist(a, b) == 0 <==> a == b
  {
    PrefixDistZeroIffEqual(a, b, |a|, |b|);
    assert a[..|a|] == a && b[..|b|] == b;
  }

  /** A prefix distance is at most the longer prefix length: substitute, then insert or delete. */
  lemma {:induction false} PrefixDistUpper(a: string, b: string, i: nat, j: nat)
    requires i <= |a| && j <= |b|
    ensures PrefixDist(a, b, i, j) <= Max(i, j)
    decreases i + j
  {
    if i > 0 && j > 0 {
      PrefixDistUpper(a, b, i - 1, j - 1);
    }
  }

  /** A prefix distance is at least the difference in prefix lengths. */
  lemma {:induction false} PrefixDistLower(a: string, b: string, i: nat, j: nat)
    requires i <= |a| && j <= |b|
    ensures i - j <= PrefixDist(a, b, i, j) && j - i <= PrefixDist(a, b, i, j)
    decreases i + j
  {
    if i > 0 && j > 0 {
      PrefixDistLower(a, b, i - 1, j);
      PrefixDistLower(a, b, i, j - 1);
      PrefixDistLower(a, b, i - 1, j - 1);
    }
  }

  /** The distance is at least the difference in length and at most the longer length. */
  lemma DistBounds(a: string, b: string)
    ensures |a| - |b| <= Dist(a, b) <= Max(|a|, |b|)
    ensures |b| - |a| <= Dist(a, b)
    ensures Dist(a, "") == |a| && Dist("", b) == |b|
  {
    PrefixDistUpper(a, b, |a|, |b|);
    PrefixDistLower(a, b, |a|, |b|);
  }

  /** The inner loop: the row for `a[..i + 1]` computed from the row for `a[..i]`. */
  method NextRow(a: string, b: string, i: nat, previous: seq<nat>) returns (current: seq<nat>)
    requires i < |a|
    requires |previous| == |b| + 1
    requires forall j :: 0 <= j <= |b| ==> previous[j] == PrefixDist(a, b, i, j)
    ensures |current| == |b| + 1
    ensures forall j :: 0 <= j <= |b| ==> current[j] == PrefixDist(a, b, i + 1, j)
  {
    current := [i + 1];
    for j := 0 to |b|
      invariant |current| == j + 1
      invariant forall k :: 0 <= k <= j ==> current[k] == PrefixDist(a, b, i + 1, k)
    {
      var insertions := previous[j + 1] + 1;
      var deletions := current[j] + 1;
      var substitutions := previous[j] + (if a[i] != b[j] then 1 else 0);
      current := current + [Min3(insertions, deletions, substitutions)];
    }
  }

  /**
   * `levenshtein`: swap so that `a` is the longer string, answer `len(a)` when `b` is
   * empty, otherwise fill the table one row per character of `a`.
   */
  method Levenshtein(a0: string, b0: string) returns (d: nat)
    ensures d == Dist(a0, b0)
  {
    var a, b := a0, b0;
    if |a| < |b| {
      a, b := b, a;
      DistSymmetric(a0, b0);
    }
    if |b| == 0 {
      return |a|;
    }
    var previous: seq<nat> := seq(|b| + 1, j requires 0 <= j <= |b| => j);
    for i := 0 to |a|
      invariant |previous| == |b| + 1
      invariant forall j :: 0 <= j <= |b| ==> previous[j] == PrefixDist(a, b, i, j)
    {
      previous := NextRow(a, b, i, previous);
    }
    d := previous[|b|];
  }

  /**
   * The match test: the lower-cased, stripped text contains or is contained in the
   * lower-cased target, or (only when `fuzzy`) is within edit distance 2 of it.
   */
  predicate Matches(target: string, text: string, fuzzy: bool)
  {
    var targetLower := Lower(target);
    var textLower := Lower(Strip(text));
    Contains(textLower, targetLower) || Contains(targetLower, textLower)
    || (fuzzy && Dist(targetLower, textLower) <= 2)
  }

  /** A detection whose text is blank always matches: the empty string is in every target. */
  lemma BlankTextMatches(target: string, text: string, fuzzy: bool)
    requires Strip(text) == ""
    ensures Matches(target, text, fuzzy)
  {
    assert Lower(Strip(text)) == "";
    EmptyContained(Lower(target));
  }

  /** Without `fuzzy`, a text that neither contains nor is contained in the target never matches. */
  lemma StrictMatchIsContainment(target: string, text: string)
    ensures Matches(target, text, false) <==>
      Contains(Lower(Strip(text)), Lower(target)) || Contains(Lower(target), Lower(Strip(text)))
  {
  }

  /** The per-detection test of the loop body, with the distance computed by `Levenshtein`. */
  method IsMatch(target: string, text: string, fuzzy: bool) returns (m: bool)
    ensures m == Matches(target, text, fuzzy)
  {
    var targetLower := Lower(target);
    var textLower := Lower(Strip(text));
    if Contains(textLower, targetLower) || Contains(targetLower, textLower) {
      m := true;
    } else if fuzzy {
      var d := Levenshtein(targetLower, textLower);
      m := d <= 2;
    } else {
      m := false;
    }
  }

  /** The detections `keep` accepts, in OCR order. */
  function Filter(rs: seq<Detection>, keep: Detection -> bool): (cs: seq<Detection>)
    ensures forall c :: c in cs ==> c in rs && keep(c)
    ensures forall i :: 0 <= i < |rs| && keep(rs[i]) ==> rs[i] in cs
    ensures cs == [] <==> forall i :: 0 <= i < |rs| ==> !keep(rs[i])
    decreases |rs|
  {
    if rs == [] then []
    else
      var init := Filter(rs[..|rs| - 1], keep);
      var last := rs[|rs| - 1];
      assert forall i :: 0 <= i < |rs| - 1 ==> rs[i] == rs[..|rs| - 1][i];
      if keep(last) then init + [last] else init
  }

  /** The matching detections, in OCR order: the list `candidates` collects. */
  function Candidates(target: string, rs: seq<Detection>, fuzzy: bool): seq<Detection>
  {
    Filter(rs, (d: Detection) => Matches(target, d.text, fuzzy))
  }

  /**
   * `max(candidates, key=confidence)`: the index of the first candidate whose confidence
   * no other candidate exceeds.
   */
  function FirstBest(cs: seq<Detection>): (k: nat)
    requires cs != []
    ensures k < |cs|
    ensures forall j :: 0 <= j < |cs| ==> cs[j].confidence <= cs[k].confidence
    ensures forall j :: 0 <= j < k ==> cs[j].confidence < cs[k].confidence
    decreases |cs|
  {
    if |cs| == 1 then 0
    else
      var k := FirstBest(cs[..|cs| - 1]);
      assert forall j :: 0 <= j < |cs| - 1 ==> cs[j] == cs[..|cs| - 1][j];
      if cs[|cs| - 1].confidence > cs[k].confidence then |cs| - 1 else k
  }

  /** Accepting one more detection extends the accepted list by it, or leaves the list alone. */
  lemma FilterSnoc(rs: seq<Detection>, i: nat, keep: Detection -> bool)
    requires i < |rs|
    ensures Filter(rs[..i + 1], keep) == if keep(rs[i]) then Filter(rs[..i], keep) + [rs[i]] else Filter(rs[..i], keep)
  {
    assert rs[..i + 1][..i] == rs[..i];
  }

  /** The loop of `find_text_position`: collects the matching detections in OCR order. */
  method CollectMatches(target: string, results: seq<Detection>, fuzzy: bool) returns (candidates: seq<Detection>)
    ensures candidates == Candidates(target, results, fuzzy)
  {
    var keep := (d: Detection) => Matches(target, d.text, fuzzy);
    candidates := [];
    for i := 0 to |results|
      invariant candidates == Filter(results[..i], keep)
    {
      var m := IsMatch(target, results[i].text, fuzzy);
      FilterSnoc(results, i, keep);
      if m {
        candidates := candidates + [results[i]];
      }
    }
    assert results[..|results|] == results;
  }

  /**
   * `find_text_position` after the OCR call: `None` exactly when nothing matches, otherwise
   * the centre of the first most confident matching detection.
   */
  method FindTextPosition(target: string, results: seq<Detection>, fuzzy: bool := true) returns (pos: Option<Point>)
    ensures pos.None? <==> forall i :: 0 <= i < |results| ==> !Matches(target, results[i].text, fuzzy)
    ensures pos.Some? ==>
      var cs := Candidates(target, results, fuzzy);
      cs != [] && pos.value == cs[FirstBest(cs)].center
  {
    var candidates := CollectMatches(target, results, fuzzy);
    if candidates == [] {
      return None;
    }
    var best := FirstBest(candidates);
    pos := Some(candidates[best].center);
  }

  /** The first most confident accepted detection is accepted, and no accepted detection beats it. */
  lemma FilterBest(rs: seq<Detection>, keep: Detection -> bool)
    requires Filter(rs, keep) != []
    ensures var cs := Filter(rs, keep);
      var best := cs[FirstBest(cs)];
      best in rs && keep(best) &&
      forall i :: 0 <= i < |rs| && keep(rs[i]) ==> rs[i].confidence <= best.confidence
  {
    var cs := Filter(rs, keep);
    forall i | 0 <= i < |rs| && keep(rs[i])
      ensures rs[i].confidence <= cs[FirstBest(cs)].confidence
    {
      var j :| 0 <= j < |cs| && cs[j] == rs[i];
    }
  }

  /** The chosen position belongs to a matching detection no other matching detection beats. */
  lemma ChosenIsMostConfident(target: string, results: seq<Detection>, fuzzy: bool)
    requires Candidates(target, results, fuzzy) != []
    ensures var cs := Candidates(target, results, fuzzy);
      var best := cs[FirstBest(cs)];
      best in results && Matches(target, best.text, fuzzy) &&
      forall i :: 0 <= i < |results| && Matches(target, results[i].text, fuzzy) ==>
        results[i].confidence <= best.confidence
  {
    FilterBest(results, (d: Detection) => Matches(target, d.text, fuzzy));
  }
}
