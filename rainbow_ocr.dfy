/**
 * The three-strategy text locator of the launcher script: a case-sensitive containment
 * match wins at once; otherwise case-insensitive containment (score 1.0) and
 * all-words containment (score 0.8) collect candidates, and the best by
 * (score, confidence) is chosen.
 */
module RainbowOcr {
  import opened Wrappers
  import opened Text
  import opened OcrTool

  /** A collected candidate: the detection and the score of the strategy that found it. */
  datatype Candidate = Candidate(detection: Detection, score: real)

  const FullScore: real := 1.0
  const WordsScore: real := 0.8

  /** Strategy 1: the stripped text contains, or is contained in, the target, case-sensitively. */
  predicate ExactMatch(target: string, text: string)
    ensures Strip(text) == target ==> ExactMatch(target, text)
  {
    ContainsSelf(target);
    Contains(Strip(text), target) || Contains(target, Strip(text))
  }

  /** Strategy 2: the same containment test after lower-casing both sides. */
  predicate LooseMatch(target: string, text: string)
    ensures ExactMatch(target, text) ==> LooseMatch(target, text)
  {
    ContainsLower(Strip(text), target);
    ContainsLower(target, Strip(text));
    Contains(Lower(Strip(text)), Lower(target)) || Contains(Lower(target), Lower(Strip(text)))
  }

  /** Strategy 3: every whitespace-separated word of the target occurs, lower-cased, in the text. */
  predicate AllWordsMatch(target: string, text: string)
  {
    var words := Words(target);
    forall k :: 0 <= k < |words| ==> Contains(Lower(Strip(text)), Lower(words[k]))
  }

  /** The score a detection earns; the words strategy is tried only when strategy 2 fails. */
  function Score(target: string, text: string): (r: Option<real>)
    ensures r.None? <==> !LooseMatch(target, text) && !AllWordsMatch(target, text)
    ensures ExactMatch(target, text) ==> r == Some(FullScore)
  {
    if LooseMatch(target, text) then Some(FullScore)
    else if AllWordsMatch(target, text) then Some(WordsScore)
    else None
  }

  /** Strategy 1 as a test on texts. */
  function ExactOf(target: string): string -> bool
  {
    (text: string) => ExactMatch(target, text)
  }

  /** Strategies 2 and 3 as a scoring of texts. */
  function ScoreOf(target: string): string -> Option<real>
  {
    (text: string) => Score(target, text)
  }

  /** The index of the first detection whose text passes `p`. */
  function FirstWhere(rs: seq<Detection>, p: string -> bool): (k: Option<nat>)
    ensures k.Some? ==> k.value < |rs| && p(rs[k.value].text)
    ensures forall j :: 0 <= j < |rs| && (k.None? || j < k.value) ==> !p(rs[j].text)
  {
    if rs == [] then None
    else if p(rs[0].text) then Some(0)
    else match FirstWhere(rs[1..], p)
      case None => None
      case Some(k) => Some(k + 1)
  }

  /** The detections `score` gives a score to, with that score, in OCR order. */
  function Collect(rs: seq<Detection>, score: string -> Option<real>): (cs: seq<Candidate>)
    ensures forall c :: c in cs ==> c.detection in rs && score(c.detection.text) == Some(c.score)
    ensures forall i :: 0 <= i < |rs| && score(rs[i].text).Some? ==>
      Candidate(rs[i], score(rs[i].text).value) in cs
    ensures cs == [] <==> forall i :: 0 <= i < |rs| ==> score(rs[i].text).None?
    decreases |rs|
  {
    if rs == [] then []
    else
      var init := Collect(rs[..|rs| - 1], score);
      var last := rs[|rs| - 1];
      assert forall i :: 0 <= i < |rs| - 1 ==> rs[i] == rs[..|rs| - 1][i];
      match score(last.text)
      case Some(s) => init + [Candidate(last, s)]
      case None => init
  }

  /** Python's tuple order on `(score, confidence)`: `a` is strictly greater than `b`. */
  predicate Beats(a: Candidate, b: Candidate)
  {
    a.score > b.score || (a.score == b.score && a.detection.confidence > b.detection.confidence)
  }

  /** `max(candidates, key=(score, confidence))`: the first candidate nothing beats. */
  function FirstBest(cs: seq<Candidate>): (k: nat)
    requires cs != []
    ensures k < |cs|
    ensures forall j :: 0 <= j < |cs| ==> !Beats(cs[j], cs[k])
    ensures forall j :: 0 <= j < k ==> Beats(cs[k], cs[j])
    decreases |cs|
  {
    if |cs| == 1 then 0
    else
      var k := FirstBest(cs[..|cs| - 1]);
      assert forall j :: 0 <= j < |cs| - 1 ==> cs[j] == cs[..|cs| - 1][j];
      if Beats(cs[|cs| - 1], cs[k]) then |cs| - 1 else k
  }

  /** What the locator answers for a list of OCR detections. */
  function Locate(target: string, rs: seq<Detection>): Option<Point>
  {
    match FirstWhere(rs, ExactOf(target))
    case Some(k) => Some(rs[k].center)
    case None =>
      var cs := Collect(rs, ScoreOf(target));
      if cs == [] then None else Some(cs[FirstBest(cs)].detection.center)
  }

  /** Scoring one more detection extends the collected list by it, or leaves the list alone. */
  lemma CollectSnoc(rs: seq<Detection>, i: nat, score: string -> Option<real>)
    requires i < |rs|
    ensures Collect(rs[..i + 1], score) ==
      match score(rs[i].text)
      case Some(s) => Collect(rs[..i], score) + [Candidate(rs[i], s)]
      case None => Collect(rs[..i], score)
  {
    assert rs[..i + 1][..i] == rs[..i];
  }

  /**
   * The loop of `find_text_position`, over any strategy-1 test and any scoring: it stops at
   * the first detection `exact` accepts, and otherwise collects what `score` scores.
   */
  method Scan(rs: seq<Detection>, exact: string -> bool, score: string -> Option<real>)
    returns (hit: Option<nat>, candidates: seq<Candidate>)
    ensures hit == FirstWhere(rs, exact)
    ensures hit.None? ==> candidates == Collect(rs, score)
  {
    candidates := [];
    var i := 0;
    while i < |rs| && !exact(rs[i].text)
      invariant 0 <= i <= |rs|
      invariant candidates == Collect(rs[..i], score)
      invariant forall j :: 0 <= j < i ==> !exact(rs[j].text)
    {
      CollectSnoc(rs, i, score);
      var s := score(rs[i].text);
      if s.Some? {
        candidates := candidates + [Candidate(rs[i], s.value)];
      }
      assert forall j :: 0 <= j < i + 1 ==> !exact(rs[j].text) by {
        assert !exact(rs[i].text);
      }
      i := i + 1;
    }
    if i < |rs| {
      FirstWhereIs(rs, exact, i);
      hit := Some(i);
    } else {
      assert rs[..i] == rs;
      hit := None;
    }
  }

  /**
   * `find_text_position`. `reading` is the OCR outcome: `None` when the engine could not
   * be initialised or raised, which the source turns into `None`.
   */
  method FindTextPosition(target: string, reading: Option<seq<Detection>>) returns (pos: Option<Point>)
    ensures reading.None? ==> pos.None?
    ensures reading.Some? ==> pos == Locate(target, reading.value)
  {
    if reading.None? {
      return None;
    }
    var results := reading.value;
    var hit, candidates := Scan(results, ExactOf(target), ScoreOf(target));
    if hit.Some? {
      return Some(results[hit.value].center);
    }
    if candidates == [] {
      return None;
    }
    var best := FirstBest(candidates);
    pos := Some(candidates[best].detection.center);
  }

  /** The first detection passing `p` is the one `FirstWhere` names. */
  lemma FirstWhereIs(rs: seq<Detection>, p: string -> bool, i: nat)
    requires i < |rs| && p(rs[i].text)
    requires forall j :: 0 <= j < i ==> !p(rs[j].text)
    ensures FirstWhere(rs, p) == Some(i)
  {
  }

  /** A strategy-1 match is answered at once: later detections, however confident, are ignored. */
  lemma ExactMatchWins(target: string, rs: seq<Detection>, k: nat, later: seq<Detection>)
    requires k < |rs| && ExactMatch(target, rs[k].text)
    requires forall j :: 0 <= j < k ==> !ExactMatch(target, rs[j].text)
    ensures Locate(target, rs + later) == Some(rs[k].center)
  {
    FirstWhereIs(rs + later, ExactOf(target), k);
  }

  /** An empty target is contained in every text, so the first detection is answered. */
  lemma EmptyTargetTakesFirst(rs: seq<Detection>)
    requires rs != []
    ensures Locate("", rs) == Some(rs[0].center)
  {
    EmptyContained(Strip(rs[0].text));
    FirstWhereIs(rs, ExactOf(""), 0);
  }

  /** The answer is `None` exactly when no strategy matched any detection. */
  lemma NoneIffNothingMatches(target: string, rs: seq<Detection>)
    ensures Locate(target, rs).None? <==>
      forall i :: 0 <= i < |rs| ==> !ExactMatch(target, rs[i].text) && Score(target, rs[i].text).None?
  {
  }

  /** Generic form of `ChosenIsBest`, over any scoring. */
  lemma {:induction false} CollectBest(rs: seq<Detection>, score: string -> Option<real>)
    requires Collect(rs, score) != []
    ensures var cs := Collect(rs, score);
      var best := cs[FirstBest(cs)];
      best.detection in rs && score(best.detection.text) == Some(best.score) &&
      forall i :: 0 <= i < |rs| && score(rs[i].text).Some? ==>
        !Beats(Candidate(rs[i], score(rs[i].text).value), best)
  {
    var cs := Collect(rs, score);
    var best := cs[FirstBest(cs)];
    forall i | 0 <= i < |rs| && score(rs[i].text).Some?
      ensures !Beats(Candidate(rs[i], score(rs[i].text).value), best)
    {
      var c := Candidate(rs[i], score(rs[i].text).value);
      var j :| 0 <= j < |cs| && cs[j] == c;
    }
  }

  /** Without a strategy-1 match, the chosen candidate is one nothing beats on (score, confidence). */
  lemma {:induction false} ChosenIsBest(target: string, rs: seq<Detection>)
    requires FirstWhere(rs, ExactOf(target)).None?
    requires Collect(rs, ScoreOf(target)) != []
    ensures var cs := Collect(rs, ScoreOf(target));
      var best := cs[FirstBest(cs)];
      Locate(target, rs) == Some(best.detection.center) &&
      best.detection in rs && Score(target, best.detection.text) == Some(best.score) &&
      forall i :: 0 <= i < |rs| && Score(target, rs[i].text).Some? ==>
        !Beats(Candidate(rs[i], Score(target, rs[i].text).value), best)
  {
    CollectBest(rs, ScoreOf(target));
  }

  /** Generic form of `FullScoreWins`: when some detection earns the top score, so does the choice. */
  lemma {:induction false} CollectTop(rs: seq<Detection>, score: string -> Option<real>, top: real, k: nat)
    requires forall i :: 0 <= i < |rs| && score(rs[i].text).Some? ==> score(rs[i].text).value <= top
    requires k < |rs| && score(rs[k].text) == Some(top)
    ensures Collect(rs, score) != []
    ensures var cs := Collect(rs, score); cs[FirstBest(cs)].score == top
  {
    CollectBest(rs, score);
    var cs := Collect(rs, score);
    assert !Beats(Candidate(rs[k], top), cs[FirstBest(cs)]);
  }

  /** No text scores above `FullScore`, and a case-insensitive containment match scores exactly that. */
  lemma ScoreAtMostFull(target: string, text: string)
    ensures Score(target, text).Some? ==> Score(target, text).value <= FullScore
    ensures LooseMatch(target, text) ==> Score(target, text) == Some(FullScore)
  {
  }

  /** A case-insensitive containment match anywhere outranks every words-only match. */
  lemma {:induction false} FullScoreWins(target: string, rs: seq<Detection>, k: nat)
    requires k < |rs| && LooseMatch(target, rs[k].text)
    ensures Collect(rs, ScoreOf(target)) != []
    ensures var cs := Collect(rs, ScoreOf(target)); cs[FirstBest(cs)].score == FullScore
  {
    var score := ScoreOf(target);
    forall i | 0 <= i < |rs| && score(rs[i].text).Some?
      ensures score(rs[i].text).value <= FullScore
    {
      ScoreAtMostFull(target, rs[i].text);
    }
    ScoreAtMostFull(target, rs[k].text);
    CollectTop(rs, score, FullScore, k);
  }

  /** The words strategy scores a detection only when case-insensitive containment failed for it. */
  lemma WordsOnlyWhenLooseFails(target: string, text: string)
    ensures Score(target, text) == Some(WordsScore) <==> !LooseMatch(target, text) && AllWordsMatch(target, text)
  {
  }
}
