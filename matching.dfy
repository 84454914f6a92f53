/** The matching page (fe/src/pages/Matching.tsx): the pairwise
    compatibility score, the greedy roommate pairing, the checks made before a
    run, and the completion statistics shown beside the survey selector. */
module Matching {
  import opened Wrappers
  import opened Surveys

  /** One student's submitted answers; the optional answers are `undefined`
      (None) when not given. */
  datatype SurveyResponse = SurveyResponse(
    studentId: string,
    studentName: string,
    wakeup: string,
    bedtime: string,
    smoking: string,
    sleepHabits: string,
    mbti: Option<string>,
    major: Option<string>,
    specialNotes: Option<string>)

  /** One entry of `matchedPairs`. */
  datatype MatchedPair = MatchedPair(
    studentA: string,
    studentAId: string,
    studentB: string,
    studentBId: string,
    score: int)

  /** Positions of the two students of a pair in the response list. */
  datatype IndexPair = IndexPair(a: nat, b: nat)

  /** The smallest score the greedy pass accepts for a pair. */
  const Threshold: int := 50

  /** JavaScript truthiness of an optional string. */
  predicate Truthy(o: Option<string>) {
    o.Some? && o.value != ""
  }

  /** Weighted exact-match compatibility of two responses. */
  function Score(x: SurveyResponse, y: SurveyResponse): (r: int)
    ensures 0 <= r <= 100
  {
    (if x.wakeup == y.wakeup then 25 else 0)
    + (if x.bedtime == y.bedtime then 25 else 0)
    + (if x.smoking == y.smoking then 20 else 0)
    + (if x.sleepHabits == y.sleepHabits then 15 else 0)
    + (if Truthy(x.mbti) && Truthy(y.mbti) && x.mbti.value == y.mbti.value then 15 else 0)
  }

  /** The score does not depend on the order of the two students. */
  lemma ScoreSymmetric(x: SurveyResponse, y: SurveyResponse)
    ensures Score(x, y) == Score(y, x)
  {
  }

  /** Two responses with the same four required answers and the same
      non-empty MBTI score 100; without a shared MBTI the most is 85. */
  lemma ScoreExtremes(x: SurveyResponse, y: SurveyResponse)
    ensures Score(x, y) == 100 <==>
      x.wakeup == y.wakeup && x.bedtime == y.bedtime && x.smoking == y.smoking
      && x.sleepHabits == y.sleepHabits && Truthy(x.mbti) && Truthy(y.mbti) && x.mbti.value == y.mbti.value
    ensures !(Truthy(x.mbti) && Truthy(y.mbti) && x.mbti.value == y.mbti.value) ==> Score(x, y) <= 85
  {
  }

  // ---------------------------------------------------------------------
  // Specification of the greedy pass

  /** `j` is examined by the inner scan on turn `i`: it comes later and its
      student id is not yet used. */
  ghost predicate Candidate(rs: seq<SurveyResponse>, i: nat, used: set<string>, j: int) {
    i < j < |rs| && rs[j].studentId !in used
  }

  /** `j` is the partner the scan settles on: its score is positive (the scan
      starts from 0 with a strict comparison), no candidate scores more, and
      every earlier candidate scores strictly less. */
  ghost predicate IsBest(rs: seq<SurveyResponse>, i: nat, used: set<string>, j: int)
    requires i < |rs|
  {
    && Candidate(rs, i, used, j)
    && Score(rs[i], rs[j]) > 0
    && (forall k :: Candidate(rs, i, used, k) ==> Score(rs[i], rs[k]) <= Score(rs[i], rs[j]))
    && (forall k :: Candidate(rs, i, used, k) && k < j ==> Score(rs[i], rs[k]) < Score(rs[i], rs[j]))
  }

  /** There is at most one best partner. */
  lemma BestUnique(rs: seq<SurveyResponse>, i: nat, used: set<string>, j1: int, j2: int)
    requires i < |rs| && IsBest(rs, i, used, j1) && IsBest(rs, i, used, j2)
    ensures j1 == j2
  {
    assert Score(rs[i], rs[j1]) <= Score(rs[i], rs[j2]) && Score(rs[i], rs[j2]) <= Score(rs[i], rs[j1]);
  }

  ghost function BestPartner(rs: seq<SurveyResponse>, i: nat, used: set<string>): (r: Option<nat>)
    requires i < |rs|
    ensures r.Some? ==> IsBest(rs, i, used, r.value)
    ensures r.None? ==> forall j :: !IsBest(rs, i, used, j)
  {
    if exists j :: IsBest(rs, i, used, j) then
      var j :| IsBest(rs, i, used, j); Some(j)
    else None
  }

  /** The pairs the greedy pass records from turn `i` on, given the ids
      already used: a still-unused student is paired with its best partner
      when that partner's score reaches the threshold. */
  ghost function GreedyFrom(rs: seq<SurveyResponse>, i: nat, used: set<string>): (r: seq<IndexPair>)
    ensures forall p :: p in r ==> i <= p.a < p.b < |rs|
    decreases |rs| - i
  {
    if i >= |rs| then []
    else if rs[i].studentId in used then GreedyFrom(rs, i + 1, used)
    else match BestPartner(rs, i, used)
      case Some(j) =>
        if Score(rs[i], rs[j]) >= Threshold then
          [IndexPair(i, j)] + GreedyFrom(rs, i + 1, used + {rs[i].studentId, rs[j].studentId})
        else GreedyFrom(rs, i + 1, used)
      case None => GreedyFrom(rs, i + 1, used)
  }

  /** The pairs the whole pass records. */
  ghost function Greedy(rs: seq<SurveyResponse>): seq<IndexPair> {
    GreedyFrom(rs, 0, {})
  }

  function ToMatchedPair(rs: seq<SurveyResponse>, p: IndexPair): MatchedPair
    requires p.a < |rs| && p.b < |rs|
  {
    MatchedPair(rs[p.a].studentName, rs[p.a].studentId, rs[p.b].studentName, rs[p.b].studentId,
      Score(rs[p.a], rs[p.b]))
  }

  ghost predicate InRange(rs: seq<SurveyResponse>, ps: seq<IndexPair>) {
    forall k :: 0 <= k < |ps| ==> ps[k].a < |rs| && ps[k].b < |rs|
  }

  ghost function Render(rs: seq<SurveyResponse>, ps: seq<IndexPair>): (r: seq<MatchedPair>)
    requires InRange(rs, ps)
    ensures |r| == |ps|
    ensures forall k :: 0 <= k < |ps| ==> r[k] == ToMatchedPair(rs, ps[k])
  {
    seq(|ps|, k requires 0 <= k < |ps| && InRange(rs, ps) => ToMatchedPair(rs, ps[k]))
  }

  // ---------------------------------------------------------------------
  // Properties of the specification

  /** Every recorded pair is accepted: both members were unused on that turn
      and the score is at least the threshold. */
  lemma {:induction false} GreedyScores(rs: seq<SurveyResponse>, i: nat, used: set<string>)
    ensures forall p :: p in GreedyFrom(rs, i, used) ==>
      Threshold <= Score(rs[p.a], rs[p.b]) && rs[p.a].studentId !in used && rs[p.b].studentId !in used
    decreases |rs| - i
  {
    if i < |rs| {
      if rs[i].studentId in used {
        GreedyScores(rs, i + 1, used);
      } else {
        match BestPartner(rs, i, used)
        case Some(j) =>
          if Score(rs[i], rs[j]) >= Threshold {
            GreedyScores(rs, i + 1, used + {rs[i].studentId, rs[j].studentId});
          } else {
            GreedyScores(rs, i + 1, used);
          }
        case None =>
          GreedyScores(rs, i + 1, used);
      }
    }
  }

  /** The ids of a pair. */
  function PairIds(rs: seq<SurveyResponse>, p: IndexPair): set<string>
    requires p.a < |rs| && p.b < |rs|
  {
    {rs[p.a].studentId, rs[p.b].studentId}
  }

  /** Pairs in turn order (first members strictly increasing) that share no
      student id. */
  ghost predicate Disjoint(rs: seq<SurveyResponse>, ps: seq<IndexPair>) {
    && InRange(rs, ps)
    && forall k, l :: 0 <= k < l < |ps| ==>
         ps[k].a < ps[l].a && PairIds(rs, ps[k]) !! PairIds(rs, ps[l])
  }

  /** Putting a pair in front of disjoint later pairs that avoid its ids keeps
      them disjoint. */
  lemma DisjointCons(rs: seq<SurveyResponse>, x: IndexPair, rest: seq<IndexPair>)
    requires x.a < |rs| && x.b < |rs| && Disjoint(rs, rest)
    requires forall p :: p in rest ==> x.a < p.a && PairIds(rs, x) !! PairIds(rs, p)
    ensures Disjoint(rs, [x] + rest)
  {
    var ps := [x] + rest;
    forall k, l | 0 <= k < l < |ps|
      ensures ps[k].a < ps[l].a && PairIds(rs, ps[k]) !! PairIds(rs, ps[l])
    {
      assert ps[l] == rest[l - 1];
      if k > 0 {
        assert ps[k] == rest[k - 1];
      }
    }
  }

  /** Pairs come out in turn order, the first member of a pair precedes the
      second, and no student id is shared by two recorded pairs. */
  lemma {:induction false} GreedyDisjoint(rs: seq<SurveyResponse>, i: nat, used: set<string>)
    ensures Disjoint(rs, GreedyFrom(rs, i, used))
    decreases |rs| - i
  {
    if i < |rs| {
      if rs[i].studentId in used {
        GreedyDisjoint(rs, i + 1, used);
      } else {
        match BestPartner(rs, i, used)
        case Some(j) =>
          if Score(rs[i], rs[j]) >= Threshold {
            var used' := used + {rs[i].studentId, rs[j].studentId};
            var rest := GreedyFrom(rs, i + 1, used');
            GreedyDisjoint(rs, i + 1, used');
            GreedyScores(rs, i + 1, used');
            DisjointCons(rs, IndexPair(i, j), rest);
          } else {
            GreedyDisjoint(rs, i + 1, used);
          }
        case None =>
          GreedyDisjoint(rs, i + 1, used);
      }
    }
  }

  /** A student left unpaired on its own turn (already used, no partner, or
      a best score under the threshold) appears in no later pair: every later
      pair has both members after it. */
  lemma UnpairedStaysUnpaired(rs: seq<SurveyResponse>, i: nat, used: set<string>)
    requires i < |rs|
    requires rs[i].studentId in used || BestPartner(rs, i, used).None?
      || Score(rs[i], rs[BestPartner(rs, i, used).value]) < Threshold
    ensures forall p :: p in GreedyFrom(rs, i, used) ==> p.a != i && p.b != i
  {
    GreedySkipStep(rs, i, used);
  }

  /** Indices from `i` on whose student id is not yet used. */
  ghost function Unused(rs: seq<SurveyResponse>, i: nat, used: set<string>): set<nat> {
    set k: nat | i <= k < |rs| && rs[k].studentId !in used
  }

  lemma UnusedShrinks(rs: seq<SurveyResponse>, i: nat, j: nat, used: set<string>)
    requires i < j < |rs| && rs[i].studentId !in used && rs[j].studentId !in used
    ensures |Unused(rs, i + 1, used + {rs[i].studentId, rs[j].studentId})| + 2 <= |Unused(rs, i, used)|
  {
    var after := Unused(rs, i + 1, used + {rs[i].studentId, rs[j].studentId});
    var before := Unused(rs, i, used);
    assert after <= before - {i, j};
    assert i in before && j in before;
    assert |before - {i, j}| == |before| - 2;
    SubsetCard(after, before - {i, j});
  }

  lemma UnusedMonotone(rs: seq<SurveyResponse>, i: nat, used: set<string>)
    ensures |Unused(rs, i + 1, used)| <= |Unused(rs, i, used)|
  {
    SubsetCard(Unused(rs, i + 1, used), Unused(rs, i, used));
  }

  lemma SubsetCard<T>(a: set<T>, b: set<T>)
    requires a <= b
    ensures |a| <= |b|
  {
    assert b == a + (b - a);
  }

  /** Each pair uses up two distinct unused students, so there are at most
      half as many pairs as unused students. */
  lemma {:induction false} GreedyCount(rs: seq<SurveyResponse>, i: nat, used: set<string>)
    ensures 2 * |GreedyFrom(rs, i, used)| <= |Unused(rs, i, used)|
    decreases |rs| - i
  {
    if i < |rs| {
      UnusedMonotone(rs, i, used);
      if rs[i].studentId in used {
        GreedyCount(rs, i + 1, used);
        assert Unused(rs, i + 1, used) == Unused(rs, i, used);
      } else {
        match BestPartner(rs, i, used)
        case Some(j) =>
          if Score(rs[i], rs[j]) >= Threshold {
            GreedyCount(rs, i + 1, used + {rs[i].studentId, rs[j].studentId});
            UnusedShrinks(rs, i, j, used);
          } else {
            GreedyCount(rs, i + 1, used);
          }
        case None =>
          GreedyCount(rs, i + 1, used);
      }
    }
  }

  /** There are no more unused indices from `i` on than indices from `i` on. */
  lemma {:induction false} UnusedBound(rs: seq<SurveyResponse>, i: nat, used: set<string>)
    ensures |Unused(rs, i, used)| <= |rs| - i || i >= |rs|
    decreases |rs| - i
  {
    if i < |rs| {
      UnusedBound(rs, i + 1, used);
      assert Unused(rs, i, used) <= Unused(rs, i + 1, used) + {i};
      SubsetCard(Unused(rs, i, used), Unused(rs, i + 1, used) + {i});
    }
  }

  /** At most half of the responses end up paired. */
  lemma GreedyHalf(rs: seq<SurveyResponse>)
    ensures 2 * |Greedy(rs)| <= |rs|
  {
    GreedyCount(rs, 0, {});
    UnusedBound(rs, 0, {});
    if |rs| == 0 {
      assert Unused(rs, 0, {}) == {};
    }
  }

  /** In the rendered result no student id occurs in two entries. */
  lemma RenderedDisjoint(rs: seq<SurveyResponse>)
    ensures InRange(rs, Greedy(rs))
    ensures var out := Render(rs, Greedy(rs));
      forall k, l :: 0 <= k < l < |out| ==>
        {out[k].studentAId, out[k].studentBId} !! {out[l].studentAId, out[l].studentBId}
  {
    GreedyDisjoint(rs, 0, {});
    var ps := Greedy(rs);
    var out := Render(rs, ps);
    forall k | 0 <= k < |out|
      ensures {out[k].studentAId, out[k].studentBId} == PairIds(rs, ps[k])
    {
    }
  }

  // ---------------------------------------------------------------------
  // The pass itself (the nested loops of handleRunMatching)

  /** What the inner scan knows after looking at every j below `j`. */
  ghost predicate ScanState(rs: seq<SurveyResponse>, i: nat, used: set<string>, j: nat,
                            best: Option<nat>, bestScore: int)
    requires i < |rs|
  {
    && (best.None? ==>
          bestScore == 0 && forall k :: Candidate(rs, i, used, k) && k < j ==> Score(rs[i], rs[k]) == 0)
    && (best.Some? ==>
          && Candidate(rs, i, used, best.value) && best.value < j
          && bestScore == Score(rs[i], rs[best.value]) > 0
          && (forall k :: Candidate(rs, i, used, k) && k < j ==> Score(rs[i], rs[k]) <= bestScore)
          && (forall k :: Candidate(rs, i, used, k) && k < best.value ==> Score(rs[i], rs[k]) < bestScore))
  }

  /** The inner loop: the unused later student with the strictly greatest
      score, first one on ties, none when every candidate scores 0. */
  method FindBestMatch(rs: seq<SurveyResponse>, i: nat, used: set<string>)
    returns (bestMatch: Option<nat>, bestScore: int)
    requires i < |rs|
    ensures bestMatch == BestPartner(rs, i, used)
    ensures bestMatch.Some? ==> bestScore == Score(rs[i], rs[bestMatch.value])
    ensures bestMatch.None? ==> bestScore == 0
  {
    bestMatch, bestScore := None, 0;
    var j := i + 1;
    while j < |rs|
      invariant i + 1 <= j <= |rs|
      invariant ScanState(rs, i, used, j, bestMatch, bestScore)
    {
      if rs[j].studentId !in used {
        var score := Score(rs[i], rs[j]);
        if score > bestScore {
          bestScore := score;
          bestMatch := Some(j);
        }
      }
      j := j + 1;
    }
    if bestMatch.Some? {
      assert IsBest(rs, i, used, bestMatch.value);
      BestUnique(rs, i, used, bestMatch.value, BestPartner(rs, i, used).GetOr(bestMatch.value));
    }
  }

  /** One turn of the specification when student `i` is paired with `j`. */
  lemma GreedyPairStep(rs: seq<SurveyResponse>, i: nat, used: set<string>, j: nat)
    requires i < |rs| && rs[i].studentId !in used
    requires BestPartner(rs, i, used) == Some(j) && Score(rs[i], rs[j]) >= Threshold
    ensures GreedyFrom(rs, i, used) ==
      [IndexPair(i, j)] + GreedyFrom(rs, i + 1, used + {rs[i].studentId, rs[j].studentId})
  {
  }

  /** One turn of the specification when student `i` is skipped or left unpaired. */
  lemma GreedySkipStep(rs: seq<SurveyResponse>, i: nat, used: set<string>)
    requires i < |rs|
    requires rs[i].studentId in used || BestPartner(rs, i, used).None?
      || Score(rs[i], rs[BestPartner(rs, i, used).value]) < Threshold
    ensures GreedyFrom(rs, i, used) == GreedyFrom(rs, i + 1, used)
  {
  }

  /** Rendering one more pair appends its row. */
  lemma RenderSnoc(rs: seq<SurveyResponse>, ps: seq<IndexPair>, p: IndexPair)
    requires InRange(rs, ps) && p.a < |rs| && p.b < |rs|
    ensures InRange(rs, ps + [p])
    ensures Render(rs, ps + [p]) == Render(rs, ps) + [ToMatchedPair(rs, p)]
  {
    var qs := ps + [p];
    assert forall k :: 0 <= k < |ps| ==> qs[k] == ps[k];
  }

  /** The rendered pass: every pair scores between the threshold and 100,
      and there are at most half as many pairs as responses. */
  lemma GreedyRendered(rs: seq<SurveyResponse>)
    ensures InRange(rs, Greedy(rs))
    ensures var pairs := Render(rs, Greedy(rs));
      && (forall k :: 0 <= k < |pairs| ==> Threshold <= pairs[k].score <= 100)
      && 2 * |pairs| <= |rs|
  {
    var ps := Greedy(rs);
    assert forall k :: 0 <= k < |ps| ==> ps[k] in ps;
    GreedyScores(rs, 0, {});
    GreedyHalf(rs);
    forall k | 0 <= k < |ps| ensures Score(rs[ps[k].a], rs[ps[k].b]) <= 100 {
      ScoreExtremes(rs[ps[k].a], rs[ps[k].b]);
    }
  }

  /** The greedy pass: one forward sweep with a `used` id set. */
  method RunGreedy(rs: seq<SurveyResponse>) returns (pairs: seq<MatchedPair>)
    ensures InRange(rs, Greedy(rs)) && pairs == Render(rs, Greedy(rs))
    ensures forall k :: 0 <= k < |pairs| ==> Threshold <= pairs[k].score <= 100
    ensures 2 * |pairs| <= |rs|
  {
    pairs := [];
    var used: set<string> := {};
    ghost var done: seq<IndexPair> := [];
    var i := 0;
    while i < |rs|
      invariant 0 <= i <= |rs|
      invariant InRange(rs, done)
      invariant done + GreedyFrom(rs, i, used) == Greedy(rs)
      invariant pairs == Render(rs, done)
    {
      if rs[i].studentId in used {
        GreedySkipStep(rs, i, used);
        i := i + 1;
        continue;
      }
      var bestMatch, bestScore := FindBestMatch(rs, i, used);
      if bestMatch.Some? && bestScore >= Threshold {
        var j := bestMatch.value;
        GreedyPairStep(rs, i, used, j);
        var used' := used + {rs[i].studentId, rs[j].studentId};
        assert (done + [IndexPair(i, j)]) + GreedyFrom(rs, i + 1, used') == done + GreedyFrom(rs, i, used);
        RenderSnoc(rs, done, IndexPair(i, j));
        pairs := pairs + [MatchedPair(rs[i].studentName, rs[i].studentId, rs[j].studentName,
                                      rs[j].studentId, bestScore)];
        done := done + [IndexPair(i, j)];
        used := used';
      } else {
        GreedySkipStep(rs, i, used);
      }
      i := i + 1;
    }
    assert done == Greedy(rs);
    GreedyRendered(rs);
  }

  // ---------------------------------------------------------------------
  // Running a match and the statistics card

  /** The roster size: the student records when present, else the id list. */
  function StudentCount(s: Survey): nat {
    if s.students.Some? then |s.students.value| else |s.studentIds|
  }

  datatype RunError = NoSurveySelected | SurveyNotFound | TooFewStudents | TooFewResponses

  /** `handleRunMatching`: the checks in order, then the greedy pass over the
      responses the data source returned for the selected survey. */
  method HandleRunMatching(selected: Option<int>, surveys: seq<Survey>, responses: seq<SurveyResponse>)
    returns (r: Result<seq<MatchedPair>, RunError>)
    ensures !IsSelected(selected) <==> r == Err(NoSurveySelected)
    ensures IsSelected(selected) && FindSurvey(surveys, selected.value).None? <==> r == Err(SurveyNotFound)
    ensures r == Err(TooFewStudents) <==>
      IsSelected(selected) && FindSurvey(surveys, selected.value).Some?
      && StudentCount(FindSurvey(surveys, selected.value).value) < 2
    ensures r == Err(TooFewResponses) <==>
      IsSelected(selected) && FindSurvey(surveys, selected.value).Some?
      && StudentCount(FindSurvey(surveys, selected.value).value) >= 2 && |responses| < 2
    ensures r.Ok? ==> InRange(responses, Greedy(responses)) && r.value == Render(responses, Greedy(responses))
  {
    if !IsSelected(selected) {
      return Err(NoSurveySelected);
    }
    var survey := FindSurvey(surveys, selected.value);
    if survey.None? {
      return Err(SurveyNotFound);
    }
    if StudentCount(survey.value) < 2 {
      return Err(TooFewStudents);
    }
    if |responses| < 2 {
      return Err(TooFewResponses);
    }
    var pairs := RunGreedy(responses);
    return Ok(pairs);
  }

  /** `surveys.filter((s) => s.status === "active")`. */
  function ActiveSurveys(surveys: seq<Survey>): (r: seq<Survey>)
    ensures forall s :: s in r <==> s in surveys && s.status == Active
    ensures |r| <= |surveys|
  {
    if surveys == [] then []
    else (if surveys[0].status == Active then [surveys[0]] else []) + ActiveSurveys(surveys[1..])
  }

  /** Filtering goes survey by survey, in order: the active surveys of two
      lists joined are those of the first followed by those of the second. */
  lemma {:induction false} ActiveSurveysAppend(a: seq<Survey>, b: seq<Survey>)
    ensures ActiveSurveys(a + b) == ActiveSurveys(a) + ActiveSurveys(b)
    decreases |a|
  {
    if a == [] {
      assert a + b == b;
    } else {
      assert (a + b)[0] == a[0];
      assert (a + b)[1..] == a[1..] + b;
      ActiveSurveysAppend(a[1..], b);
    }
  }

  datatype Stats = Stats(total: nat, completed: nat, rate: int)

  /** `Math.round(100 * completed / total)` on exact rationals: half rounds up. */
  function RoundedPercent(completed: nat, total: nat): (r: int)
    requires total > 0
    ensures 2 * r * total <= 200 * completed + total < 2 * (r + 1) * total
    ensures completed <= total ==> 0 <= r <= 100
  {
    var q := (200 * completed + total) / (2 * total);
    DivBounds(200 * completed + total, 2 * total);
    RoundedPercentRange(completed, total, q);
    q
  }

  lemma DivBounds(x: nat, d: nat)
    requires d > 0
    ensures (x / d) * d <= x < (x / d + 1) * d
  {
  }

  lemma RoundedPercentRange(completed: nat, total: nat, q: int)
    requires total > 0
    requires q * (2 * total) <= 200 * completed + total < (q + 1) * (2 * total)
    ensures 2 * q * total <= 200 * completed + total < 2 * (q + 1) * total
    ensures completed <= total ==> 0 <= q <= 100
  {
    MulMonotone(101, q, 2 * total);
    MulMonotone(q + 1, 0, 2 * total);
  }

  lemma MulMonotone(a: int, b: int, d: nat)
    ensures a <= b ==> a * d <= b * d
  {
    if a <= b {
      assert b * d == a * d + (b - a) * d;
    }
  }

  /** `getSurveyStats`: the roster size, the response count and the rounded
      completion percentage (0 for an empty roster or an unknown survey). */
  function SurveyStats(surveys: seq<Survey>, surveyId: int, responses: seq<SurveyResponse>): (r: Stats)
    ensures FindSurvey(surveys, surveyId).None? ==> r == Stats(0, 0, 0)
    ensures FindSurvey(surveys, surveyId).Some? ==>
      r.total == StudentCount(FindSurvey(surveys, surveyId).value) && r.completed == |responses|
    ensures r.total == 0 ==> r.rate == 0
    ensures r.total > 0 ==> 2 * r.rate * r.total <= 200 * r.completed + r.total < 2 * (r.rate + 1) * r.total
  {
    match FindSurvey(surveys, surveyId)
    case None => Stats(0, 0, 0)
    case Some(s) =>
      var total := StudentCount(s);
      var completed := |responses|;
      Stats(total, completed, if total > 0 then RoundedPercent(completed, total) else 0)
  }

  /** The card shown for the current selection. */
  function SelectedStats(selected: Option<int>, surveys: seq<Survey>, responses: seq<SurveyResponse>): (r: Stats)
    ensures !IsSelected(selected) ==> r == Stats(0, 0, 0)
    ensures IsSelected(selected) ==> r == SurveyStats(surveys, selected.value, responses)
  {
    if IsSelected(selected) then SurveyStats(surveys, selected.value, responses) else Stats(0, 0, 0)
  }

  /** The card predicts the run button: the selection shows at least two
      students and two responses exactly when `handleRunMatching` passes all
      its checks; with no more responses than students the rate is a
      percentage. */
  lemma StatsPredictRun(selected: Option<int>, surveys: seq<Survey>, responses: seq<SurveyResponse>)
    ensures var st := SelectedStats(selected, surveys, responses);
      st.total >= 2 && st.completed >= 2 <==>
        IsSelected(selected) && FindSurvey(surveys, selected.value).Some?
        && StudentCount(FindSurvey(surveys, selected.value).value) >= 2 && |responses| >= 2
    ensures var st := SelectedStats(selected, surveys, responses);
      st.completed <= st.total ==> 0 <= st.rate <= 100
  {
    var st := SelectedStats(selected, surveys, responses);
    if st.total > 0 {
      assert IsSelected(selected) && FindSurvey(surveys, selected.value).Some?;
      assert st.rate == RoundedPercent(st.completed, st.total);
    }
  }
}
