/** The random root plan: candidates per face, the density mask, the exclusions and the guide association. */
module RootPlan {
  import opened Bytes
  import opened Geometry
  import opened Wrappers

  const LAST_SAMPLE: nat := 622592

  datatype Uv = Uv(u: real, v: real)

  /** A face: its id, its area, and its surface compensation ratio. */
  datatype Face = Face(id: word32, area: real, ratio: real)

  datatype Influence = Influence(guide: nat, weight: real)

  datatype Root = Root(face: word32, ordinal: nat, at: Uv)

  /**
   What the plan asks of the world around it: the sample sequence and the rounding threshold of a face,
   the mask (which may fail), the authored exclusions, and the guides that influence a point.
   */
  datatype World = World(sample: (word32, nat) -> Uv, threshold: word32 -> real, mask: (word32, Uv) -> Option<real>,
                         excluded: (word32, nat) -> bool, hasGuides: bool,
                         gather: (word32, Uv) -> Option<seq<Influence>>)

  datatype Limits = Limits(candidates: nat, roots: nat)

  /** What becomes of one candidate. */
  datatype Outcome = MaskRejected | PatchCulled | GuideRejected | Accepted(root: Root, influences: seq<Influence>)

  // ---------------------------------------------------------------- the candidates of a face

  /** The expected number of candidates: rounded up by chance, then to five decimals. */
  function Expected(w: World, density: real, f: Face): real {
    var raw := f.area * density;
    var fractional := raw - raw.Floor as real;
    var rounded := if fractional > w.threshold(f.id) then raw + 1.0 else raw;
    (rounded * 100000.0 + 0.5).Floor as real / 100000.0
  }

  const LARGEST: nat := 0xffff_ffff

  /** Whether area times density is a count that the plan accepts. */
  predicate Countable(density: real, f: Face) {
    0.0 <= f.area * density <= LARGEST as real
  }

  /** A sample after compensation, unless it falls off the face. */
  function Compensated(f: Face, p: Uv): Option<Uv>
    requires f.ratio > 0.0
  {
    if f.ratio < 1.0 then (if p.u / f.ratio > 1.0 then None else Some(Uv(p.u / f.ratio, p.v)))
    else if f.ratio > 1.0 then (if p.v * f.ratio > 1.0 then None else Some(Uv(p.u, p.v * f.ratio)))
    else Some(p)
  }

  /** The next sample that stays on the face, and the index after it; the samples may run out. */
  function NextCandidate(w: World, f: Face, from: nat): (r: Option<(Uv, nat)>)
    requires f.ratio > 0.0
    ensures r.Some? ==> from < r.value.1 <= LAST_SAMPLE + 1
    decreases if from <= LAST_SAMPLE then LAST_SAMPLE + 1 - from else 0
  {
    if from > LAST_SAMPLE then None
    else
      var p := Compensated(f, w.sample(f.id, from));
      if p.Some? then Some((p.value, from + 1)) else NextCandidate(w, f, from + 1)
  }

  /** The first n candidates of a face, and the sample index after them. */
  function Candidates(w: World, f: Face, n: nat): (r: Option<(seq<Uv>, nat)>)
    requires f.ratio > 0.0
    ensures r.Some? ==> |r.value.0| == n
  {
    if n == 0 then Some(([], 0))
    else
      var (before, at) :- Candidates(w, f, n - 1);
      var (p, next) :- NextCandidate(w, f, at);
      Some((before + [p], next))
  }

  function Clamped(x: real): real {
    if x < 0.0 then 0.0 else if x > 1.0 then 1.0 else x
  }

  /** Candidate j's place on the mask ramp. */
  function Ramp(expected: real, j: nat): real
    requires expected > 0.0
  {
    j as real * (1.0 / expected)
  }

  /** The fate of candidate j of a face. */
  function OutcomeOf(w: World, f: Face, expected: real, j: nat, p: Uv): (r: Option<Outcome>)
    requires expected > 0.0
    ensures r.Some? && r.value.Accepted? && w.hasGuides ==> r.value.influences != []
    ensures r.Some? && r.value.Accepted? && !w.hasGuides ==> r.value.influences == []
  {
    var value :- w.mask(f.id, p);
    if Ramp(expected, j) >= Clamped(value) then Some(MaskRejected)
    else if w.excluded(f.id, j + 1) then Some(PatchCulled)
    else if !w.hasGuides then Some(Accepted(Root(f.id, j + 1, p), []))
    else
      var influences :- w.gather(f.id, p);
      Some(if influences == [] then GuideRejected else Accepted(Root(f.id, j + 1, p), influences))
  }

  function Outcomes(w: World, f: Face, expected: real, points: seq<Uv>): (r: Option<seq<Outcome>>)
    requires expected > 0.0
    ensures r.Some? ==> |r.value| == |points|
    ensures r.Some? ==> forall j | 0 <= j < |points| :: OutcomeOf(w, f, expected, j, points[j]) == Some(r.value[j])
  {
    if points == [] then Some([])
    else
      var n := |points| - 1;
      var init :- Outcomes(w, f, expected, points[..n]);
      var last :- OutcomeOf(w, f, expected, n, points[n]);
      Some(init + [last])
  }

  /** All outcomes of a face, unless its count is out of range, its samples run out, or a candidate fails. */
  function FaceOutcomes(w: World, density: real, f: Face): (r: Option<seq<Outcome>>)
    requires f.ratio > 0.0
  {
    var expected := Expected(w, density, f);
    if !Countable(density, f) then None
    else if expected.Floor <= 0 then Some([])
    else
      var (points, _) :- Candidates(w, f, expected.Floor);
      Outcomes(w, f, expected, points)
  }

  // ---------------------------------------------------------------- counting outcomes

  function CountMask(log: seq<Outcome>): nat {
    if log == [] then 0 else CountMask(log[..|log| - 1]) + if log[|log| - 1].MaskRejected? then 1 else 0
  }

  function CountCulled(log: seq<Outcome>): nat {
    if log == [] then 0 else CountCulled(log[..|log| - 1]) + if log[|log| - 1].PatchCulled? then 1 else 0
  }

  function CountUnguided(log: seq<Outcome>): nat {
    if log == [] then 0 else CountUnguided(log[..|log| - 1]) + if log[|log| - 1].GuideRejected? then 1 else 0
  }

  function RootsOf(log: seq<Outcome>): seq<Root> {
    if log == [] then []
    else RootsOf(log[..|log| - 1]) + if log[|log| - 1].Accepted? then [log[|log| - 1].root] else []
  }

  function InfluencesOf(log: seq<Outcome>): seq<Influence> {
    if log == [] then []
    else InfluencesOf(log[..|log| - 1]) + if log[|log| - 1].Accepted? then log[|log| - 1].influences else []
  }

  /** The offset table: zero, and the running number of influences after each root. */
  function OffsetsOf(log: seq<Outcome>): (r: seq<nat>)
    ensures r != []
  {
    if log == [] then [0]
    else OffsetsOf(log[..|log| - 1]) + if log[|log| - 1].Accepted? then [|InfluencesOf(log)|] else []
  }

  /** Every candidate is counted exactly once. */
  lemma {:induction false} Accounted(log: seq<Outcome>)
    ensures |log| == |RootsOf(log)| + CountMask(log) + CountCulled(log) + CountUnguided(log)
  {
    if log != [] { Accounted(log[..|log| - 1]); }
  }

  /** With guides every accepted candidate has influences, and the offsets are a valid table over the roots. */
  lemma {:induction false} OffsetTable(log: seq<Outcome>)
    requires forall k | 0 <= k < |log| :: log[k].Accepted? ==> log[k].influences != []
    ensures var t := OffsetsOf(log);
      && |t| == |RootsOf(log)| + 1 && t[0] == 0 && t[|t| - 1] == |InfluencesOf(log)|
      && forall i, k | 0 <= i < k < |t| :: t[i] < t[k]
  {
    if log != [] {
      var init := log[..|log| - 1];
      OffsetTable(init);
      assert InfluencesOf(log) == InfluencesOf(init) + if log[|log| - 1].Accepted? then log[|log| - 1].influences else [];
    }
  }

  // ---------------------------------------------------------------- the density mask

  /** Two worlds that differ at most in their masks, the second mask being nowhere lower. */
  ghost predicate Raised(a: World, b: World) {
    && a.sample == b.sample && a.threshold == b.threshold && a.excluded == b.excluded
    && a.hasGuides == b.hasGuides && a.gather == b.gather
    && forall f, p :: a.mask(f, p).Some? ==> b.mask(f, p).Some? && a.mask(f, p).value <= b.mask(f, p).value
  }

  /** The candidates do not depend on the mask. */
  lemma {:induction false} SameNext(a: World, b: World, f: Face, from: nat)
    requires a.sample == b.sample && f.ratio > 0.0
    ensures NextCandidate(a, f, from) == NextCandidate(b, f, from)
    decreases if from <= LAST_SAMPLE then LAST_SAMPLE + 1 - from else 0
  {
    if from <= LAST_SAMPLE { SameNext(a, b, f, from + 1); }
  }

  lemma {:induction false} SameCandidates(a: World, b: World, f: Face, n: nat)
    requires a.sample == b.sample && f.ratio > 0.0
    ensures Candidates(a, f, n) == Candidates(b, f, n)
  {
    if n > 0 {
      SameCandidates(a, b, f, n - 1);
      var before := Candidates(a, f, n - 1);
      if before.Some? { SameNext(a, b, f, before.value.1); }
    }
  }

  /** Raising the mask never removes a candidate that the mask accepted, and its fate stays what it was. */
  lemma RaisingMaskKeeps(a: World, b: World, density: real, f: Face, j: nat)
    requires Raised(a, b) && f.ratio > 0.0
    requires FaceOutcomes(a, density, f).Some? && FaceOutcomes(b, density, f).Some?
    requires j < |FaceOutcomes(a, density, f).value|
    ensures |FaceOutcomes(b, density, f).value| == |FaceOutcomes(a, density, f).value|
    ensures !FaceOutcomes(a, density, f).value[j].MaskRejected? ==>
      FaceOutcomes(b, density, f).value[j] == FaceOutcomes(a, density, f).value[j]
  {
    hide Candidates, Expected;
    var expected := Expected(a, density, f);
    SameExpected(a, b, density, f);
    SameCandidates(a, b, f, expected.Floor);
    var points := Candidates(a, f, expected.Floor).value.0;
    assert OutcomeOf(a, f, expected, j, points[j]) == Some(FaceOutcomes(a, density, f).value[j]);
    assert OutcomeOf(b, f, expected, j, points[j]) == Some(FaceOutcomes(b, density, f).value[j]);
    hide Outcomes;
    assert a.mask(f.id, points[j]).Some?;
  }

  lemma SameExpected(a: World, b: World, density: real, f: Face)
    requires a.threshold == b.threshold
    ensures Expected(a, density, f) == Expected(b, density, f)
  {
  }

  /** The smallest whole number not below a share p of the expected count. */
  function ShareOf(p: real, expected: real): int { -((-(p * expected)).Floor) }

  /** How many of the first n ramp values lie below p. */
  function BelowRamp(expected: real, p: real, n: nat): nat
    requires expected > 0.0
  {
    if n == 0 then 0 else BelowRamp(expected, p, n - 1) + if Ramp(expected, n - 1) < p then 1 else 0
  }

  lemma RampBelow(expected: real, p: real, j: nat)
    requires expected > 0.0
    ensures Ramp(expected, j) < p <==> j < ShareOf(p, expected)
  {
    var step := 1.0 / expected;
    QuotientProduct(1.0, expected);
    ScaledOrder(Ramp(expected, j), p, expected);
    assert Ramp(expected, j) * expected == j as real * (step * expected);
    assert j as real < p * expected <==> j < ShareOf(p, expected);
  }

  lemma {:induction false} BelowRampCount(expected: real, p: real, n: nat, all: int)
    requires expected > 0.0 && all >= 0 && forall j: nat :: Ramp(expected, j) < p <==> j < all
    ensures BelowRamp(expected, p, n) == if all < n then all else n
  {
    hide Ramp;
    if n > 0 { BelowRampCount(expected, p, n - 1, all); }
  }

  lemma {:induction false} MaskAccepted(w: World, f: Face, expected: real, points: seq<Uv>, p: real)
    requires expected > 0.0 && Outcomes(w, f, expected, points).Some?
    requires forall q :: w.mask(f.id, q) == Some(p)
    ensures |points| - CountMask(Outcomes(w, f, expected, points).value) == BelowRamp(expected, Clamped(p), |points|)
  {
    hide Ramp, Clamped;
    if points != [] {
      var n := |points| - 1;
      MaskAccepted(w, f, expected, points[..n], p);
      var log := Outcomes(w, f, expected, points).value;
      assert log[..n] == Outcomes(w, f, expected, points[..n]).value;
      assert OutcomeOf(w, f, expected, n, points[n]) == Some(log[n]);
    }
  }

  /** A constant mask p lets through the smaller of all candidates and p times the expected count, rounded up. */
  lemma ConstantMask(w: World, density: real, f: Face, p: real)
    requires f.ratio > 0.0 && FaceOutcomes(w, density, f).Some? && forall q :: w.mask(f.id, q) == Some(p)
    ensures var log, expected := FaceOutcomes(w, density, f).value, Expected(w, density, f);
      var all := ShareOf(Clamped(p), expected);
      expected.Floor >= 1 ==> |log| == expected.Floor && |log| - CountMask(log) == if all < |log| then all else |log|
  {
    hide Candidates, Expected, Outcomes, ShareOf, CountMask, Ramp, Clamped;
    var expected := Expected(w, density, f);
    if expected.Floor >= 1 {
      var points := Candidates(w, f, expected.Floor).value.0;
      MaskAccepted(w, f, expected, points, p);
      ClampedInside(p);
      ShareNonNegative(Clamped(p), expected);
      forall j: nat ensures Ramp(expected, j) < Clamped(p) <==> j < ShareOf(Clamped(p), expected) {
        RampBelow(expected, Clamped(p), j);
      }
      BelowRampCount(expected, Clamped(p), |points|, ShareOf(Clamped(p), expected));
    }
  }

  lemma ClampedInside(x: real)
    ensures 0.0 <= Clamped(x) <= 1.0
  {
  }

  lemma ShareNonNegative(p: real, e: real)
    requires p >= 0.0 && e >= 0.0
    ensures ShareOf(p, e) >= 0
  {
    NonNegativeProduct(p, e);
  }

  // ---------------------------------------------------------------- building the plan

  datatype FaceStats = FaceStats(face: word32, candidates: nat, accepted: nat, roots: nat)

  /** The whole log of a plan, face after face, with each face's statistics. */
  function PlanLog(w: World, density: real, faces: seq<Face>): (r: Option<(seq<Outcome>, seq<FaceStats>)>)
    requires forall k | 0 <= k < |faces| :: faces[k].ratio > 0.0
  {
    if faces == [] then Some(([], []))
    else
      var f := faces[|faces| - 1];
      var (log, stats) :- PlanLog(w, density, faces[..|faces| - 1]);
      var more :- FaceOutcomes(w, density, f);
      Some((log + more, stats + [StatsOf(f, more)]))
  }

  function StatsOf(f: Face, log: seq<Outcome>): FaceStats {
    MaskAtMost(log);
    FaceStats(f.id, |log|, |log| - CountMask(log), |RootsOf(log)|)
  }

  lemma {:induction false} MaskAtMost(log: seq<Outcome>)
    ensures CountMask(log) <= |log|
  {
    if log != [] { MaskAtMost(log[..|log| - 1]); }
  }

  /** A log within the limits on candidates and roots, whose influences can be numbered with 32 bits. */
  ghost predicate Within(limits: Limits, hasGuides: bool, log: seq<Outcome>) {
    && |log| <= limits.candidates && |RootsOf(log)| <= limits.roots
    && (hasGuides ==> |InfluencesOf(log)| <= LARGEST)
  }

  /** When a plan succeeds: there are limits and faces, every face can be planned, and the whole log is within the limits. */
  ghost predicate PlanFits(w: World, limits: Limits, density: real, faces: seq<Face>)
    requires forall k | 0 <= k < |faces| :: faces[k].ratio > 0.0
  {
    && limits.candidates > 0 && limits.roots > 0 && faces != []
    && PlanLog(w, density, faces).Some? && Within(limits, w.hasGuides, PlanLog(w, density, faces).value.0)
  }

  class Plan {
    var roots: seq<Root>
    var influences: seq<Influence>
    var offsets: seq<nat>
    var candidates: nat
    var maskRejected: nat
    var patchCulled: nat
    var guideRejected: nat
    var faceStats: seq<FaceStats>
    ghost var log: seq<Outcome>

    constructor (hasGuides: bool)
      ensures Valid(hasGuides) && log == [] && faceStats == []
    {
      roots, influences, offsets := [], [], if hasGuides then [0] else [];
      candidates, maskRejected, patchCulled, guideRejected := 0, 0, 0, 0;
      faceStats, log := [], [];
    }

    /** The counters and tables are those of the log. */
    ghost predicate Valid(hasGuides: bool)
      reads this
    {
      && roots == RootsOf(log) && influences == InfluencesOf(log) && candidates == |log|
      && offsets == (if hasGuides then OffsetsOf(log) else [])
      && maskRejected == CountMask(log) && patchCulled == CountCulled(log) && guideRejected == CountUnguided(log)
      && forall k | 0 <= k < |log| && log[k].Accepted? && hasGuides :: log[k].influences != []
    }

    /** What a valid plan promises: every candidate is accounted for, and the offsets are a valid table. */
    lemma PlanAccounting(hasGuides: bool)
      requires Valid(hasGuides)
      ensures candidates == |roots| + maskRejected + patchCulled + guideRejected
      ensures hasGuides ==> |offsets| == |roots| + 1 && offsets[0] == 0 && offsets[|roots|] == |influences|
      ensures hasGuides ==> forall i, k | 0 <= i < k < |offsets| :: offsets[i] < offsets[k]
    {
      Accounted(log);
      if hasGuides { OffsetTable(log); }
    }

    /** Counts one candidate's outcome; only the limits on roots and influences can stop it. */
    method Record(hasGuides: bool, limits: Limits, o: Outcome) returns (ok: bool)
      requires Valid(hasGuides) && (o.Accepted? && hasGuides ==> o.influences != [])
      requires o.Accepted? && !hasGuides ==> o.influences == []
      requires Within(limits, hasGuides, log) && |log| < limits.candidates
      modifies this
      ensures faceStats == old(faceStats)
      ensures ok <==> Within(limits, hasGuides, old(log) + [o])
      ensures ok ==> log == old(log) + [o] && Valid(hasGuides)
    {
      assert (log + [o])[..|log|] == log;
      ok := true;
      match o {
        case MaskRejected => maskRejected := maskRejected + 1;
        case PatchCulled => patchCulled := patchCulled + 1;
        case GuideRejected => guideRejected := guideRejected + 1;
        case Accepted(root, more) =>
          if |roots| >= limits.roots { return false; }
          roots := roots + [root];
          if hasGuides {
            if |more| > LARGEST - |influences| { return false; }
            influences := influences + more;
            offsets := offsets + [|influences|];
          }
      }
      candidates := candidates + 1;
      log := log + [o];
    }

    /** Finds the next candidate of a face, decides its fate and records it. */
    method TakeCandidate(w: World, limits: Limits, ghost density: real, f: Face, expected: real, threshold: real, j: nat,
                         from: nat, ghost points: seq<Uv>, ghost done: seq<Outcome>, ghost before: seq<Outcome>)
      returns (ok: bool, o: Outcome, p: Uv, next: nat)
      requires f.ratio > 0.0 && Countable(density, f) && Valid(w.hasGuides) && log == before + done
      requires expected == Expected(w, density, f) && expected > 0.0 && j < expected.Floor && threshold == Ramp(expected, j)
      requires Planned(w, f, expected, j, from, points, done)
      requires Within(limits, w.hasGuides, log) && |log| < limits.candidates
      modifies this
      ensures faceStats == old(faceStats)
      ensures !ok ==> Stopped(w, limits, density, f, before)
      ensures ok ==> Valid(w.hasGuides) && log == before + (done + [o]) && Within(limits, w.hasGuides, log)
      ensures ok ==> Planned(w, f, expected, j + 1, next, points + [p], done + [o])
      ensures ok ==> CountMask(done + [o]) == CountMask(done) + if o.MaskRejected? then 1 else 0
      ensures ok ==> |RootsOf(done + [o])| == |RootsOf(done)| + if o.Accepted? then 1 else 0
    {
      hide *;
      ok, o, p, next := false, MaskRejected, Uv(0.0, 0.0), from;
      var found := FindCandidate(w, f, from);
      if found.None? {
        SamplesRunOut(w, limits, density, f, j, from, points, done, before);
        return;
      }
      p, next := found.value.0, found.value.1;
      var decided := Decide(w, f, expected, threshold, j, p);
      if decided.None? {
        CandidateFails(w, limits, density, f, j, from, points, done, before);
        return;
      }
      o := decided.value;
      ValidSize(w.hasGuides);
      ok := Record(w.hasGuides, limits, o);
      LoopStep(w, f, expected, j, from, points, done, before, o);
      if !ok {
        LimitExceeded(w, limits, density, f, j, from, points, done, before, o);
      }
    }

    /** The candidate loop of a face: candidate after candidate, until enough have landed on it. */
    method CandidateLoop(w: World, limits: Limits, density: real, f: Face, expected: real, n: nat)
      returns (ok: bool, stats: FaceStats)
      requires f.ratio > 0.0 && Countable(density, f) && Valid(w.hasGuides)
      requires expected == Expected(w, density, f) && n == expected.Floor >= 1
      requires Within(limits, w.hasGuides, log) && |log| + n <= limits.candidates
      modifies this
      ensures faceStats == old(faceStats)
      ensures ok ==> FaceOutcomes(w, density, f).Some? && Valid(w.hasGuides) && Within(limits, w.hasGuides, log)
      ensures ok ==> log == old(log) + FaceOutcomes(w, density, f).value
      ensures ok ==> stats == StatsOf(f, FaceOutcomes(w, density, f).value)
      ensures !ok ==> Stopped(w, limits, density, f, old(log))
    {
      var step := 1.0 / expected;
      var threshold, from: nat, accepted: nat, passed: nat, placed: nat := 0.0, 0, 0, 0, 0;
      ghost var before := log;
      ghost var points: seq<Uv>, done: seq<Outcome> := [], [];
      stats := FaceStats(f.id, 0, 0, 0);
      LoopStart(w, f, expected, before);
      ok := true;
      hide *;
      while accepted < n
        invariant Planned(w, f, expected, accepted, from, points, done)
        invariant log == before + done && Valid(w.hasGuides) && faceStats == old(faceStats)
        invariant Within(limits, w.hasGuides, log) && |done| == accepted
        invariant threshold == Ramp(expected, accepted) && accepted <= n
        invariant passed == |done| - CountMask(done) && placed == |RootsOf(done)|
      {
        var o, p;
        ok, o, p, from := TakeCandidate(w, limits, density, f, expected, threshold, accepted, from, points, done, before);
        if !ok { return; }
        RampStep(expected, accepted);
        points, done := points + [p], done + [o];
        accepted := accepted + 1;
        threshold := threshold + step;
        if !o.MaskRejected? { passed := passed + 1; }
        if o.Accepted? { placed := placed + 1; }
      }
      LoopEnd(w, density, f, expected, n, from, points, done);
      ok, stats := true, FaceStats(f.id, n, passed, placed);
    }

    /** The number of candidates and of roots so far. */
    lemma ValidSize(hasGuides: bool)
      requires Valid(hasGuides)
      ensures candidates == |log| && roots == RootsOf(log)
    {
    }

    method AddStats(hasGuides: bool, stats: FaceStats)
      requires Valid(hasGuides)
      modifies `faceStats
      ensures Valid(hasGuides) && faceStats == old(faceStats) + [stats]
    {
      faceStats := faceStats + [stats];
    }

    /** Plans one face. */
    method PlanFace(w: World, limits: Limits, density: real, f: Face) returns (ok: bool)
      requires f.ratio > 0.0 && Valid(w.hasGuides) && Within(limits, w.hasGuides, log)
      modifies this
      ensures ok ==> FaceOutcomes(w, density, f).Some? && Valid(w.hasGuides) && Within(limits, w.hasGuides, log)
      ensures ok ==> log == old(log) + FaceOutcomes(w, density, f).value
      ensures ok ==> faceStats == old(faceStats) + [StatsOf(f, FaceOutcomes(w, density, f).value)]
      ensures !ok ==> Stopped(w, limits, density, f, old(log))
    {
      hide Expected, Valid, RootsOf, CountMask, Stopped, Within;
      if !Countable(density, f) {
        NotCountable(w, limits, density, f, log);
        return false;
      }
      var expected := Expected(w, density, f);
      var n := if expected.Floor <= 0 then 0 else expected.Floor;
      ValidSize(w.hasGuides);
      if n > limits.candidates || candidates > limits.candidates - n {
        TooManyCandidates(w, limits, density, f, log);
        return false;
      }
      if n == 0 {
        NoCandidates(w, density, f, log);
        AddStats(w.hasGuides, FaceStats(f.id, 0, 0, 0));
        return true;
      }
      var stats;
      ok, stats := CandidateLoop(w, limits, density, f, expected, n);
      if ok { AddStats(w.hasGuides, stats); }
    }

    /**
     Builds the plan face by face. It succeeds exactly when the plan fits. Then its log is that of all faces,
     its counters account for every candidate, and its offsets are a valid table.
     */
    method Build(w: World, limits: Limits, density: real, faces: seq<Face>) returns (ok: bool)
      requires forall k | 0 <= k < |faces| :: faces[k].ratio > 0.0
      requires Valid(w.hasGuides) && log == [] && faceStats == []
      modifies this
      ensures ok <==> PlanFits(w, limits, density, faces)
      ensures ok ==> Valid(w.hasGuides) && PlanLog(w, density, faces) == Some((log, faceStats))
    {
      hide Valid, FaceOutcomes, Stopped, StatsOf, Within;
      if limits.candidates == 0 || limits.roots == 0 { return false; }
      if faces == [] { return false; }
      NothingWithin(limits, w.hasGuides);
      for k := 0 to |faces|
        invariant Valid(w.hasGuides) && PlanLog(w, density, faces[..k]) == Some((log, faceStats))
        invariant Within(limits, w.hasGuides, log)
      {
        assert faces[..k + 1][..k] == faces[..k];
        ghost var before := log;
        var planned := PlanFace(w, limits, density, faces[k]);
        if !planned {
          PlanStops(w, limits, density, faces, k, before);
          return false;
        }
      }
      assert faces[..|faces|] == faces;
      ok := true;
    }
  }

  // ---------------------------------------------------------------- the candidate loop's reasoning

  /** Why a face's plan stops: something fails, or a limit is exceeded. */
  ghost predicate Stopped(w: World, limits: Limits, density: real, f: Face, before: seq<Outcome>)
    requires f.ratio > 0.0
  {
    FaceOutcomes(w, density, f).None?
    || !Within(limits, w.hasGuides, before + FaceOutcomes(w, density, f).value)
  }

  lemma NothingWithin(limits: Limits, hasGuides: bool)
    ensures Within(limits, hasGuides, [])
  {
  }

  /** What is within the limits was so all along. */
  lemma WithinPrefix(limits: Limits, hasGuides: bool, a: seq<Outcome>, b: seq<Outcome>)
    requires Within(limits, hasGuides, a + b)
    ensures Within(limits, hasGuides, a)
  {
    RootsGrow(a, b);
    InfluencesGrow(a, b);
  }

  lemma {:induction false} InfluencesGrow(a: seq<Outcome>, b: seq<Outcome>)
    ensures |InfluencesOf(a + b)| >= |InfluencesOf(a)|
  {
    if b == [] {
      assert a + b == a;
    } else {
      assert (a + b)[..|a + b| - 1] == a + b[..|b| - 1];
      InfluencesGrow(a, b[..|b| - 1]);
    }
  }

  /** The log of all faces begins with that of the first ones. */
  lemma {:induction false} PlanPrefix(w: World, density: real, faces: seq<Face>, k: nat) returns (rest: seq<Outcome>)
    requires forall i | 0 <= i < |faces| :: faces[i].ratio > 0.0
    requires k <= |faces| && PlanLog(w, density, faces).Some?
    ensures PlanLog(w, density, faces[..k]).Some?
    ensures PlanLog(w, density, faces).value.0 == PlanLog(w, density, faces[..k]).value.0 + rest
  {
    hide FaceOutcomes, StatsOf;
    if k == |faces| {
      assert faces[..k] == faces;
      rest := [];
    } else {
      var n := |faces| - 1;
      rest := PlanPrefix(w, density, faces[..n], k);
      assert faces[..n][..k] == faces[..k];
      rest := rest + FaceOutcomes(w, density, faces[n]).value;
    }
  }

  /** A plan that stops at a face does not fit. */
  lemma PlanStops(w: World, limits: Limits, density: real, faces: seq<Face>, k: nat, before: seq<Outcome>)
    requires forall i | 0 <= i < |faces| :: faces[i].ratio > 0.0
    requires k < |faces| && PlanLog(w, density, faces[..k]).Some? && PlanLog(w, density, faces[..k]).value.0 == before
    requires Stopped(w, limits, density, faces[k], before)
    ensures !PlanFits(w, limits, density, faces)
  {
    hide FaceOutcomes, StatsOf, Within;
    if PlanLog(w, density, faces).Some? {
      var rest := PlanPrefix(w, density, faces, k + 1);
      assert faces[..k + 1][..k] == faces[..k];
      if Within(limits, w.hasGuides, PlanLog(w, density, faces).value.0) {
        WithinPrefix(limits, w.hasGuides, PlanLog(w, density, faces[..k + 1]).value.0, rest);
      }
    }
  }

  /** The first candidates of a face and their outcomes. */
  ghost predicate Planned(w: World, f: Face, expected: real, n: nat, from: nat, points: seq<Uv>, done: seq<Outcome>) {
    && f.ratio > 0.0 && expected > 0.0
    && Candidates(w, f, n) == Some((points, from)) && Outcomes(w, f, expected, points) == Some(done)
  }

  /** The skipping of samples that fall off the face. */
  method FindCandidate(w: World, f: Face, start: nat) returns (r: Option<(Uv, nat)>)
    requires f.ratio > 0.0
    ensures r == NextCandidate(w, f, start)
  {
    var from := start;
    while from <= LAST_SAMPLE
      invariant NextCandidate(w, f, from) == NextCandidate(w, f, start)
      decreases LAST_SAMPLE + 1 - from
    {
      var p := Compensated(f, w.sample(f.id, from));
      from := from + 1;
      if p.Some? { return Some((p.value, from)); }
    }
    r := None;
  }

  /** The tests of one candidate, in their order. */
  method Decide(w: World, f: Face, expected: real, threshold: real, j: nat, p: Uv) returns (r: Option<Outcome>)
    requires expected > 0.0 && threshold == Ramp(expected, j)
    ensures r == OutcomeOf(w, f, expected, j, p)
    ensures r.Some? && r.value.Accepted? ==> (w.hasGuides <==> r.value.influences != [])
  {
    var value := w.mask(f.id, p);
    if value.None? { return None; }
    var probability := Clamped(value.value);
    if threshold >= probability { return Some(MaskRejected); }
    if w.excluded(f.id, j + 1) { return Some(PatchCulled); }
    var influences: seq<Influence> := [];
    if w.hasGuides {
      var gathered := w.gather(f.id, p);
      if gathered.None? { return None; }
      influences := gathered.value;
      if influences == [] { return Some(GuideRejected); }
    }
    r := Some(Accepted(Root(f.id, j + 1, p), influences));
  }

  lemma LoopStart(w: World, f: Face, expected: real, before: seq<Outcome>)
    requires f.ratio > 0.0 && expected > 0.0
    ensures Planned(w, f, expected, 0, 0, [], []) && Ramp(expected, 0) == 0.0
    ensures CountMask([]) == 0 && RootsOf([]) == [] && before + [] == before
  {
  }

  lemma LoopStep(w: World, f: Face, expected: real, n: nat, from: nat, points: seq<Uv>, done: seq<Outcome>,
                 before: seq<Outcome>, o: Outcome)
    requires Planned(w, f, expected, n, from, points, done) && NextCandidate(w, f, from).Some?
    requires OutcomeOf(w, f, expected, n, NextCandidate(w, f, from).value.0) == Some(o)
    ensures var (p, next) := NextCandidate(w, f, from).value;
      Planned(w, f, expected, n + 1, next, points + [p], done + [o])
    ensures before + done + [o] == before + (done + [o])
    ensures Ramp(expected, n + 1) == Ramp(expected, n) + 1.0 / expected
    ensures CountMask(done + [o]) == CountMask(done) + if o.MaskRejected? then 1 else 0
    ensures RootsOf(done + [o]) == RootsOf(done) + if o.Accepted? then [o.root] else []
  {
    var (p, next) := NextCandidate(w, f, from).value;
    assert (points + [p])[..|points|] == points && (done + [o])[..|done|] == done;
    RampStep(expected, n);
    hide OutcomeOf, NextCandidate, Ramp;
  }

  lemma RampStep(expected: real, n: nat)
    requires expected > 0.0
    ensures Ramp(expected, n + 1) == Ramp(expected, n) + 1.0 / expected
  {
    DifferenceProduct((n + 1) as real, 1.0, 1.0 / expected);
    assert (n + 1) as real - 1.0 == n as real;
  }

  lemma LoopEnd(w: World, density: real, f: Face, expected: real, n: nat, from: nat, points: seq<Uv>, done: seq<Outcome>)
    requires expected == Expected(w, density, f) && n == expected.Floor >= 1 && Planned(w, f, expected, n, from, points, done)
    requires Countable(density, f)
    ensures FaceOutcomes(w, density, f) == Some(done) && |done| == n
    ensures StatsOf(f, done) == FaceStats(f.id, n, |done| - CountMask(done), |RootsOf(done)|)
  {
    hide Expected;
  }

  lemma {:induction false} CandidatesPrefix(w: World, f: Face, k: nat, n: nat)
    requires f.ratio > 0.0 && k <= n && Candidates(w, f, n).Some?
    ensures Candidates(w, f, k).Some? && Candidates(w, f, k).value.0 == Candidates(w, f, n).value.0[..k]
  {
    hide NextCandidate;
    if k < n { CandidatesPrefix(w, f, k, n - 1); }
  }

  lemma {:induction false} OutcomesPrefix(w: World, f: Face, expected: real, points: seq<Uv>, k: nat)
    requires expected > 0.0 && k <= |points| && Outcomes(w, f, expected, points).Some?
    ensures Outcomes(w, f, expected, points[..k]).Some?
    ensures Outcomes(w, f, expected, points[..k]).value == Outcomes(w, f, expected, points).value[..k]
  {
    hide OutcomeOf;
    if k < |points| {
      OutcomesPrefix(w, f, expected, points[..|points| - 1], k);
      assert points[..|points| - 1][..k] == points[..k];
    } else {
      assert points[..k] == points;
    }
  }

  /** If the face can be planned at all, its candidates begin with those found so far. */
  lemma PlannedPrefix(w: World, density: real, f: Face, expected: real, k: nat, from: nat, points: seq<Uv>, done: seq<Outcome>)
    requires expected == Expected(w, density, f) && k < expected.Floor && Planned(w, f, expected, k, from, points, done)
    requires FaceOutcomes(w, density, f).Some?
    ensures NextCandidate(w, f, from).Some?
    ensures var all := FaceOutcomes(w, density, f).value;
      |all| == expected.Floor && all[..k] == done
      && OutcomeOf(w, f, expected, k, NextCandidate(w, f, from).value.0) == Some(all[k])
  {
    var n := expected.Floor;
    hide Expected, NextCandidate, OutcomeOf;
    CandidatesPrefix(w, f, k, n);
    CandidatesPrefix(w, f, k + 1, n);
    var points1 := Candidates(w, f, n).value.0;
    assert Candidates(w, f, k + 1).value.0 == points + [NextCandidate(w, f, from).value.0];
    assert points1[..k + 1][k] == points1[k];
    OutcomesPrefix(w, f, expected, points1, k);
    assert OutcomeOf(w, f, expected, k, points1[k]) == Some(FaceOutcomes(w, density, f).value[k]);
  }

  lemma SamplesRunOut(w: World, limits: Limits, density: real, f: Face, k: nat, from: nat, points: seq<Uv>,
                      done: seq<Outcome>, before: seq<Outcome>)
    requires f.ratio > 0.0 && k < Expected(w, density, f).Floor && Planned(w, f, Expected(w, density, f), k, from, points, done)
    requires NextCandidate(w, f, from).None?
    ensures Stopped(w, limits, density, f, before)
  {
    hide Expected, NextCandidate, FaceOutcomes, Planned;
    if FaceOutcomes(w, density, f).Some? {
      PlannedPrefix(w, density, f, Expected(w, density, f), k, from, points, done);
      assert false;
    }
  }

  lemma CandidateFails(w: World, limits: Limits, density: real, f: Face, k: nat, from: nat, points: seq<Uv>,
                       done: seq<Outcome>, before: seq<Outcome>)
    requires f.ratio > 0.0 && k < Expected(w, density, f).Floor && Planned(w, f, Expected(w, density, f), k, from, points, done)
    requires Expected(w, density, f) > 0.0 && NextCandidate(w, f, from).Some?
    requires OutcomeOf(w, f, Expected(w, density, f), k, NextCandidate(w, f, from).value.0).None?
    ensures Stopped(w, limits, density, f, before)
  {
    hide Expected, NextCandidate, FaceOutcomes, Planned, OutcomeOf;
    if FaceOutcomes(w, density, f).Some? {
      PlannedPrefix(w, density, f, Expected(w, density, f), k, from, points, done);
      assert false;
    }
  }

  lemma {:induction false} RootsGrow(a: seq<Outcome>, b: seq<Outcome>)
    ensures |RootsOf(a + b)| >= |RootsOf(a)|
  {
    if b == [] {
      assert a + b == a;
    } else {
      assert (a + b)[..|a + b| - 1] == a + b[..|b| - 1];
      RootsGrow(a, b[..|b| - 1]);
    }
  }

  lemma LimitExceeded(w: World, limits: Limits, density: real, f: Face, k: nat, from: nat, points: seq<Uv>,
                      done: seq<Outcome>, before: seq<Outcome>, o: Outcome)
    requires f.ratio > 0.0 && k < Expected(w, density, f).Floor && Planned(w, f, Expected(w, density, f), k, from, points, done)
    requires Expected(w, density, f) > 0.0 && NextCandidate(w, f, from).Some?
    requires OutcomeOf(w, f, Expected(w, density, f), k, NextCandidate(w, f, from).value.0) == Some(o)
    requires !Within(limits, w.hasGuides, before + done + [o])
    ensures Stopped(w, limits, density, f, before)
  {
    if FaceOutcomes(w, density, f).Some? {
      hide Expected, NextCandidate, FaceOutcomes, Planned, OutcomeOf, Within;
      PlannedPrefix(w, density, f, Expected(w, density, f), k, from, points, done);
      var all := FaceOutcomes(w, density, f).value;
      assert before + all == before + done + [o] + all[k + 1..];
      if Within(limits, w.hasGuides, before + all) {
        WithinPrefix(limits, w.hasGuides, before + done + [o], all[k + 1..]);
      }
    }
  }

  lemma TooManyCandidates(w: World, limits: Limits, density: real, f: Face, before: seq<Outcome>)
    requires f.ratio > 0.0
    requires var e := Expected(w, density, f).Floor; (if e <= 0 then 0 else e) + |before| > limits.candidates
    ensures Stopped(w, limits, density, f, before)
  {
    hide Expected, Candidates, Outcomes;
  }

  lemma NotCountable(w: World, limits: Limits, density: real, f: Face, before: seq<Outcome>)
    requires f.ratio > 0.0 && !Countable(density, f)
    ensures Stopped(w, limits, density, f, before)
  {
  }

  lemma NoCandidates(w: World, density: real, f: Face, before: seq<Outcome>)
    requires f.ratio > 0.0 && Countable(density, f) && Expected(w, density, f).Floor <= 0
    ensures FaceOutcomes(w, density, f) == Some([])
    ensures StatsOf(f, []) == FaceStats(f.id, 0, 0, 0) && before + [] == before
  {
  }
}
