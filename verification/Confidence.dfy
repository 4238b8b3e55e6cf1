/**
 * Confidence of a root cause: temporal order of the causal layers, the evidence-model score,
 * the legacy correlator and the ceiling that combines them
 * (src/core/investigation.py:133-152, 243-364; src/supervisor/investigation.py:268-291).
 */
module Confidence {
  import opened Basics
  import opened EvidenceModel

  datatype Level = Low | Medium | High

  datatype Track = TrackA | TrackB | Insufficient

  datatype Label = Baixa | Media | Alta

  /** The earliest evidence of `sooner` came after the earliest evidence of `later`. */
  datatype Violation = Violation(sooner: Layer, soonerTs: string, later: Layer, laterTs: string)

  // ----- earliest timestamps -----

  function Timed(ev: seq<Evidence>, layer: Layer): seq<Evidence>
  {
    if ev == [] then []
    else
      var e := ev[|ev| - 1];
      Timed(ev[..|ev| - 1], layer) + if e.causalLayer == layer && e.timestamp != "" then [e] else []
  }

  /** The least timestamp of a list. */
  function Earliest(list: seq<Evidence>): Option<string>
  {
    if list == [] then None
    else
      var ts := list[|list| - 1].timestamp;
      match Earliest(list[..|list| - 1])
      case None => Some(ts)
      case Some(best) => if StrLeq(best, ts) then Some(best) else Some(ts)
  }

  predicate IsTimed(e: Evidence, layer: Layer)
  {
    e.causalLayer == layer && e.timestamp != ""
  }

  ghost predicate HasTimed(ev: seq<Evidence>, layer: Layer)
  {
    exists e :: e in ev && IsTimed(e, layer)
  }

  /** `ts` is the timestamp of a record of the layer and no record of the layer is earlier. */
  ghost predicate IsEarliest(ev: seq<Evidence>, layer: Layer, ts: string)
  {
    && (exists e :: e in ev && IsTimed(e, layer) && e.timestamp == ts)
    && (forall e :: e in ev && IsTimed(e, layer) ==> StrLeq(ts, e.timestamp))
  }

  lemma {:induction false} TimedMembers(ev: seq<Evidence>, layer: Layer)
    ensures forall e :: e in Timed(ev, layer) <==> e in ev && IsTimed(e, layer)
  {
    if ev == [] {
    } else {
      TimedMembers(ev[..|ev| - 1], layer);
      assert ev == ev[..|ev| - 1] + [ev[|ev| - 1]];
    }
  }

  lemma {:induction false} EarliestOfList(list: seq<Evidence>)
    ensures Earliest(list).Some? <==> list != []
    ensures list != [] ==> exists e :: e in list && e.timestamp == Earliest(list).value
    ensures forall e :: e in list ==> StrLeq(Earliest(list).value, e.timestamp)
  {
    if list == [] {
    } else {
      var front, e := list[..|list| - 1], list[|list| - 1];
      assert list == front + [e];
      EarliestOfList(front);
      StrLeqTotal(e.timestamp, e.timestamp);
      var best := Earliest(front);
      if best.Some? {
        StrLeqTotal(best.value, e.timestamp);
        forall f | f in front && StrLeq(e.timestamp, best.value)
          ensures StrLeq(e.timestamp, f.timestamp)
        {
          StrLeqTransitive(e.timestamp, best.value, f.timestamp);
        }
      }
    }
  }

  lemma EarliestIsLeast(ev: seq<Evidence>, layer: Layer)
    ensures var t := Earliest(Timed(ev, layer));
      if t.Some? then IsEarliest(ev, layer, t.value) else !HasTimed(ev, layer)
  {
    TimedMembers(ev, layer);
    EarliestOfList(Timed(ev, layer));
  }

  // ----- temporal order -----

  ghost function ViolationOf(ev: seq<Evidence>, sooner: Layer, later: Layer): seq<Violation>
  {
    var a, b := Earliest(Timed(ev, sooner)), Earliest(Timed(ev, later));
    if a.Some? && b.Some? && !StrLeq(a.value, b.value) then [Violation(sooner, a.value, later, b.value)] else []
  }

  ghost function Violations(ev: seq<Evidence>): seq<Violation>
  {
    ViolationOf(ev, Change, Mechanism) + ViolationOf(ev, Mechanism, Impact) + ViolationOf(ev, Change, Impact)
  }

  /** When both layers have timestamps, some record of `sooner` is not later than any record
      of `later`. */
  ghost predicate Precedes(ev: seq<Evidence>, sooner: Layer, later: Layer)
  {
    HasTimed(ev, sooner) && HasTimed(ev, later) ==>
      exists e :: e in ev && IsTimed(e, sooner) && forall f :: f in ev && IsTimed(f, later) ==>
        StrLeq(e.timestamp, f.timestamp)
  }

  ghost predicate Ordered(ev: seq<Evidence>)
  {
    Precedes(ev, Change, Mechanism) && Precedes(ev, Mechanism, Impact) && Precedes(ev, Change, Impact)
  }

  lemma NoViolationMeansPrecedes(ev: seq<Evidence>, sooner: Layer, later: Layer)
    ensures ViolationOf(ev, sooner, later) == [] <==> Precedes(ev, sooner, later)
  {
    EarliestIsLeast(ev, sooner);
    EarliestIsLeast(ev, later);
    var a, b := Earliest(Timed(ev, sooner)), Earliest(Timed(ev, later));
    if a.Some? && b.Some? {
      var x :| x in ev && IsTimed(x, sooner) && x.timestamp == a.value;
      var y :| y in ev && IsTimed(y, later) && y.timestamp == b.value;
      if StrLeq(a.value, b.value) {
        forall f | f in ev && IsTimed(f, later)
          ensures StrLeq(x.timestamp, f.timestamp)
        {
          StrLeqTransitive(a.value, b.value, f.timestamp);
        }
      }
      if Precedes(ev, sooner, later) {
        var e :| e in ev && IsTimed(e, sooner) && forall f :: f in ev && IsTimed(f, later) ==>
          StrLeq(e.timestamp, f.timestamp);
        StrLeqTransitive(a.value, e.timestamp, b.value);
      }
    }
  }

  /** The list of violations is empty exactly when each layer's first sign comes no later than
      every sign of the layers after it. */
  lemma NoViolationsMeansOrdered(ev: seq<Evidence>)
    ensures Violations(ev) == [] <==> Ordered(ev)
  {
    NoViolationMeansPrecedes(ev, Change, Mechanism);
    NoViolationMeansPrecedes(ev, Mechanism, Impact);
    NoViolationMeansPrecedes(ev, Change, Impact);
  }

  /** What order asks for: if two layers both have records with a timestamp, one record of the first
      is not later than any of the second. */
  lemma PrecedesMeans(ev: seq<Evidence>, sooner: Layer, later: Layer, a: Evidence, b: Evidence) returns (e: Evidence)
    requires a in ev && a.causalLayer == sooner && a.timestamp != ""
    requires b in ev && b.causalLayer == later && b.timestamp != "" && Precedes(ev, sooner, later)
    ensures e in ev && e.causalLayer == sooner && e.timestamp != ""
    ensures forall f :: f in ev && f.causalLayer == later && f.timestamp != "" ==> StrLeq(e.timestamp, f.timestamp)
  {
    assert IsTimed(a, sooner) && IsTimed(b, later);
    e :| e in ev && IsTimed(e, sooner) && forall f :: f in ev && IsTimed(f, later) ==>
      StrLeq(e.timestamp, f.timestamp);
    assert forall f :: f in ev && f.causalLayer == later && f.timestamp != "" ==> IsTimed(f, later);
  }

  /** And only then. */
  lemma PrecedesBecause(ev: seq<Evidence>, sooner: Layer, later: Layer, e: Evidence)
    requires
      || (forall f :: f in ev && f.causalLayer == sooner ==> f.timestamp == "")
      || (forall f :: f in ev && f.causalLayer == later ==> f.timestamp == "")
      || (&& e in ev && e.causalLayer == sooner && e.timestamp != ""
          && forall f :: f in ev && f.causalLayer == later && f.timestamp != "" ==> StrLeq(e.timestamp, f.timestamp))
    ensures Precedes(ev, sooner, later)
  {
    if HasTimed(ev, sooner) && HasTimed(ev, later) {
      assert IsTimed(e, sooner);
    }
  }

  /** Of change, mechanism and impact, each to each that comes after it. */
  lemma OrderedMeans(ev: seq<Evidence>)
    ensures Ordered(ev) <==>
      forall p :: p in {(Change, Mechanism), (Mechanism, Impact), (Change, Impact)} ==> Precedes(ev, p.0, p.1)
  {
    var pairs := {(Change, Mechanism), (Mechanism, Impact), (Change, Impact)};
    assert (Change, Mechanism) in pairs && (Mechanism, Impact) in pairs && (Change, Impact) in pairs;
  }

  /** A reported violation names a pair of layers and their earliest timestamps, the first of which
      is later; and every pair out of order is reported. */
  lemma ViolationsAre(ev: seq<Evidence>, sooner: Layer, later: Layer)
    requires (sooner, later) in {(Change, Mechanism), (Mechanism, Impact), (Change, Impact)}
    ensures forall v :: v in Violations(ev) && v.sooner == sooner && v.later == later ==>
      IsEarliest(ev, sooner, v.soonerTs) && IsEarliest(ev, later, v.laterTs) && !StrLeq(v.soonerTs, v.laterTs)
    ensures (exists v :: v in Violations(ev) && v.sooner == sooner && v.later == later) <==>
      !Precedes(ev, sooner, later)
  {
    NoViolationMeansPrecedes(ev, sooner, later);
    EarliestIsLeast(ev, sooner);
    EarliestIsLeast(ev, later);
    var own := ViolationOf(ev, sooner, later);
    assert forall v :: v in Violations(ev) && v.sooner == sooner && v.later == later ==> v in own;
    assert own != [] ==> own[0] in Violations(ev);
  }

  method ValidateTemporalOrder(evidences: seq<Evidence>) returns (violations: seq<Violation>)
    ensures violations == Violations(evidences)
  {
    var layered := map[Change := [], Mechanism := [], Impact := []];
    for i := 0 to |evidences|
      invariant layered.Keys == {Change, Mechanism, Impact}
      invariant forall l :: l in layered ==> layered[l] == Timed(evidences[..i], l)
    {
      var e := evidences[i];
      assert evidences[..i + 1][..i] == evidences[..i];
      if e.causalLayer in layered && e.timestamp != "" {
        layered := layered[e.causalLayer := layered[e.causalLayer] + [e]];
      }
    }
    assert evidences[..|evidences|] == evidences;
    var change := Earliest(layered[Change]);
    var mechanism := Earliest(layered[Mechanism]);
    var impact := Earliest(layered[Impact]);
    violations := [];
    if change.Some? && mechanism.Some? && !StrLeq(change.value, mechanism.value) {
      violations := violations + [Violation(Change, change.value, Mechanism, mechanism.value)];
    }
    if mechanism.Some? && impact.Some? && !StrLeq(mechanism.value, impact.value) {
      violations := violations + [Violation(Mechanism, mechanism.value, Impact, impact.value)];
    }
    if change.Some? && impact.Some? && !StrLeq(change.value, impact.value) {
      violations := violations + [Violation(Change, change.value, Impact, impact.value)];
    }
  }

  // ----- the evidence-model score -----

  ghost function LayerIndices(ev: seq<Evidence>, layer: Layer): set<nat>
  {
    set i: nat | i < |ev| && ev[i].causalLayer == layer
  }

  ghost predicate Has(ev: seq<Evidence>, layer: Layer)
  {
    exists e :: e in ev && e.causalLayer == layer
  }

  ghost predicate Contradicted(ev: seq<Evidence>)
  {
    exists e :: e in ev && e.contradictsHypothesis && !e.contradictionExplained
  }

  /** Nothing blocks the score: some evidence, in temporal order, every contradiction explained. */
  ghost predicate Admissible(ev: seq<Evidence>)
  {
    ev != [] && Ordered(ev) && !Contradicted(ev)
  }

  /** How many of the three ordered layers have evidence. */
  ghost function Coverage(ev: seq<Evidence>): nat
  {
    (if Has(ev, Change) then 1 else 0) + (if Has(ev, Mechanism) then 1 else 0) + (if Has(ev, Impact) then 1 else 0)
  }

  /** What HIGH asks for: impact, and one of three ways to explain it. */
  ghost predicate Convincing(ev: seq<Evidence>)
  {
    && Has(ev, Impact)
    && if Has(ev, Change)
       then (if Has(ev, Mechanism) then |Components(ev)| >= 3 else Has(ev, Temporal))
       else |LayerIndices(ev, Mechanism)| >= 2
  }

  ghost function Score(ev: seq<Evidence>): (Level, Track)
  {
    if !Admissible(ev) || Coverage(ev) < 2 then (Low, Insufficient)
    else (if Convincing(ev) then High else Medium, if Has(ev, Change) then TrackA else TrackB)
  }

  /** One pass over the evidence: the accumulators `score_confidence` decides on. */
  method Classify(evidences: seq<Evidence>)
    returns (layersPresent: set<Layer>, hasChange: bool, mechanismCount: nat, hasImpact: bool, unexplained: nat)
    ensures forall l :: l in layersPresent <==> l != Unset && Has(evidences, l)
    ensures hasChange == Has(evidences, Change) && hasImpact == Has(evidences, Impact)
    ensures mechanismCount == |LayerIndices(evidences, Mechanism)|
    ensures unexplained > 0 <==> Contradicted(evidences)
  {
    layersPresent := {};
    hasChange, hasImpact := false, false;
    mechanismCount, unexplained := 0, 0;
    for i := 0 to |evidences|
      invariant forall l :: l in layersPresent <==> l != Unset && Has(evidences[..i], l)
      invariant hasChange == Has(evidences[..i], Change) && hasImpact == Has(evidences[..i], Impact)
      invariant mechanismCount == |LayerIndices(evidences[..i], Mechanism)|
      invariant unexplained > 0 <==> Contradicted(evidences[..i])
    {
      var e := evidences[i];
      OneMore(evidences, i);
      if e.causalLayer != Unset {
        layersPresent := layersPresent + {e.causalLayer};
      }
      if e.causalLayer == Change {
        hasChange := true;
      }
      if e.causalLayer == Mechanism {
        mechanismCount := mechanismCount + 1;
      }
      if e.causalLayer == Impact {
        hasImpact := true;
      }
      if e.contradictsHypothesis && !e.contradictionExplained {
        unexplained := unexplained + 1;
      }
    }
    assert evidences[..|evidences|] == evidences;
  }

  lemma OneMore(ev: seq<Evidence>, i: nat)
    requires i < |ev|
    ensures forall l :: Has(ev[..i + 1], l) <==> Has(ev[..i], l) || ev[i].causalLayer == l
    ensures Contradicted(ev[..i + 1]) <==>
      Contradicted(ev[..i]) || (ev[i].contradictsHypothesis && !ev[i].contradictionExplained)
    ensures |LayerIndices(ev[..i + 1], Mechanism)|
      == |LayerIndices(ev[..i], Mechanism)| + if ev[i].causalLayer == Mechanism then 1 else 0
  {
    var a, b := ev[..i], ev[..i + 1];
    assert b == a + [ev[i]];
    assert forall e :: e in b <==> e in a || e == ev[i];
    assert ev[i] in b;
    forall l: Layer
      ensures Has(b, l) <==> Has(a, l) || ev[i].causalLayer == l
    {
      if Has(a, l) {
        var e :| e in a && e.causalLayer == l;
        assert e in b;
      }
    }
    assert LayerIndices(b, Mechanism)
      == LayerIndices(a, Mechanism) + if ev[i].causalLayer == Mechanism then {i} else {};
  }

  /** The whole score by what the evidence holds: which layers, two records of mechanism, an
      unexplained contradiction. */
  lemma ScoreMeans(ev: seq<Evidence>, change: bool, mechanism: bool, impact: bool, temporal: bool, two: bool,
                   contradicted: bool)
    requires change <==> exists e :: e in ev && e.causalLayer == Change
    requires mechanism <==> exists e :: e in ev && e.causalLayer == Mechanism
    requires impact <==> exists e :: e in ev && e.causalLayer == Impact
    requires temporal <==> exists e :: e in ev && e.causalLayer == Temporal
    requires two <==> exists i, k :: 0 <= i < k < |ev| && ev[i].causalLayer == ev[k].causalLayer == Mechanism
    requires contradicted <==> exists e :: e in ev && e.contradictsHypothesis && !e.contradictionExplained
    ensures var sound, score := Ordered(ev) && !contradicted, Score(ev);
      && (score.0 == High <==>
          (&& sound && impact
           && ((change && mechanism && |Components(ev)| >= 3) || (change && !mechanism && temporal)
               || (!change && two))))
      && (score.0 == Low <==> !(sound && ((change && mechanism) || (change && impact) || (mechanism && impact))))
      && score.1 == if score.0 == Low then Insufficient else if change then TrackA else TrackB
  {
    TwoMechanisms(ev);
  }

  lemma TwoMechanisms(ev: seq<Evidence>)
    ensures |LayerIndices(ev, Mechanism)| >= 2 <==>
      exists i, k :: 0 <= i < k < |ev| && ev[i].causalLayer == ev[k].causalLayer == Mechanism
  {
    var all := LayerIndices(ev, Mechanism);
    if |all| >= 2 {
      var i :| i in all;
      assert all == (all - {i}) + {i} && all - {i} != {};
      var k :| k in all - {i};
      assert ev[Min(i, k)].causalLayer == ev[Max(i, k)].causalLayer == Mechanism;
    }
    if i, k :| 0 <= i < k < |ev| && ev[i].causalLayer == ev[k].causalLayer == Mechanism {
      SubsetSize({i, k}, all);
    }
  }

  /** HIGH exactly for admissible, convincing evidence; in particular impact evidence, layers
      in temporal order and no unexplained contradiction. */
  lemma HighMeans(ev: seq<Evidence>)
    ensures Score(ev).0 == High <==> Admissible(ev) && Convincing(ev)
  {
  }

  /** The docstring's "fewer than 3 independent signals gives LOW" holds exactly when the
      evidence is blocked anyway or covers at most one ordered layer. */
  lemma FewSignalsRule(ev: seq<Evidence>)
    requires |Components(ev)| < 3
    ensures Score(ev).0 == Low <==> !(Admissible(ev) && Coverage(ev) >= 2)
    ensures Score(ev).0 == High ==> Has(ev, Change) != Has(ev, Mechanism)
  {
  }

  /** `score_confidence`: the source's cascade of early returns computes Score; what it means for
      HIGH, and for fewer than three signals. */
  method ScoreConfidence(evidences: seq<Evidence>) returns (level: Level, track: Track)
    ensures (level, track) == Score(evidences)
    ensures level == Low <==> track == Insufficient
    ensures level != Low ==> (track == TrackA <==> exists e :: e in evidences && e.causalLayer == Change)
    ensures level == High <==> Admissible(evidences) && Convincing(evidences)
    ensures |Components(evidences)| < 3 ==> (level == Low <==> !(Admissible(evidences) && Coverage(evidences) >= 2))
    ensures |Components(evidences)| < 3 && level == High ==> Has(evidences, Change) != Has(evidences, Mechanism)
  {
    if evidences == [] {
      return Low, Insufficient;
    }
    HighMeans(evidences);
    if |Components(evidences)| < 3 {
      FewSignalsRule(evidences);
    }
    var layersPresent, hasChange, mechanismCount, hasImpact, unexplained := Classify(evidences);
    MechanismCounted(evidences);
    NoViolationsMeansOrdered(evidences);

    var temporalViolations := ValidateTemporalOrder(evidences);
    if temporalViolations != [] {
      return Low, Insufficient;
    }
    if unexplained > 0 {
      return Low, Insufficient;
    }
    var independent := CountIndependent(evidences);
    if hasChange && mechanismCount >= 1 && hasImpact {
      if independent >= 3 {
        return High, TrackA;
      }
      return Medium, TrackA;
    }
    if !hasChange && mechanismCount >= 2 && hasImpact {
      return High, TrackB;
    }
    var hasTemporal := Temporal in layersPresent;
    if hasChange && hasImpact && hasTemporal {
      return High, TrackA;
    }
    var presentOrdered := layersPresent * {Change, Mechanism, Impact};
    CoverageCounted(evidences, presentOrdered);
    if |presentOrdered| >= 2 {
      return Medium, if hasChange then TrackA else TrackB;
    }
    return Low, Insufficient;
  }

  lemma MechanismCounted(ev: seq<Evidence>)
    ensures |LayerIndices(ev, Mechanism)| >= 1 <==> Has(ev, Mechanism)
  {
    if Has(ev, Mechanism) {
      var e :| e in ev && e.causalLayer == Mechanism;
      var i :| 0 <= i < |ev| && ev[i] == e;
      assert i in LayerIndices(ev, Mechanism);
    } else {
      assert forall i :: 0 <= i < |ev| ==> ev[i] in ev;
      assert LayerIndices(ev, Mechanism) == {};
    }
  }

  function With(layers: set<Layer>, layer: Layer, present: bool): set<Layer>
  {
    if present then layers + {layer} else layers
  }

  lemma WithCounts(layers: set<Layer>, layer: Layer, present: bool)
    requires layer !in layers
    ensures |With(layers, layer, present)| == |layers| + if present then 1 else 0
  {
  }

  lemma CoverageCounted(ev: seq<Evidence>, present: set<Layer>)
    requires forall l :: l in present <==> l in {Change, Mechanism, Impact} && Has(ev, l)
    ensures |present| == Coverage(ev)
  {
    var c, m, i := Has(ev, Change), Has(ev, Mechanism), Has(ev, Impact);
    CountThree(present, c, m, i);
  }

  lemma CountThree(present: set<Layer>, c: bool, m: bool, i: bool)
    requires present == With(With(With({}, Change, c), Mechanism, m), Impact, i)
    ensures |present| == (if c then 1 else 0) + (if m then 1 else 0) + (if i then 1 else 0)
  {
    WithCounts({}, Change, c);
    WithCounts(With({}, Change, c), Mechanism, m);
    WithCounts(With(With({}, Change, c), Mechanism, m), Impact, i);
  }

  // ----- what the score promises -----

  function Sample(layer: Layer, trace: Option<string>): Evidence
  {
    Evidence("agent", "log", "", "", layer, "", None, false, false, trace, "")
  }

  /** Records that share a trace are one signal. */
  lemma SharedTraceIsOneSignal(ev: seq<Evidence>)
    requires ev != [] && Truthy(ev[0].traceId)
    requires forall i :: 0 <= i < |ev| ==> ev[i].traceId == ev[0].traceId
    ensures |Components(ev)| == 1
  {
    forall i: nat, j: nat | i < |ev| && j < |ev|
      ensures Connected(ev, i, j)
    {
      ConnectedStep(ev, i, j);
    }
    var all := Component(ev, 0);
    forall i: nat | i < |ev|
      ensures Component(ev, i) == all
    {
    }
    assert Components(ev) == {all};
  }

  /** One signal seen three times, through one trace, already reaches HIGH. */
  lemma OneSignalReachesHigh()
    ensures exists ev :: |Components(ev)| == 1 && Score(ev) == (High, TrackB)
  {
    var m, x := Sample(Mechanism, Some("t")), Sample(Impact, Some("t"));
    var ev := [m, m, x];
    SharedTraceIsOneSignal(ev);
    assert m in ev && x in ev;
    assert LayerIndices(ev, Mechanism) == {0, 1};
    MechanismCounted(ev);
    assert Has(ev, Impact);
    assert !Has(ev, Change) && !Contradicted(ev);
    assert Ordered(ev) by {
      assert forall l :: !HasTimed(ev, l);
    }
  }

  lemma HasMore(ev: seq<Evidence>, e: Evidence, layer: Layer)
    ensures Has(ev + [e], layer) <==> Has(ev, layer) || e.causalLayer == layer
  {
    if x :| x in ev && x.causalLayer == layer {
      assert x in ev + [e];
    }
    assert e in ev + [e];
  }

  /** More mechanism records do not become fewer. */
  lemma MechanismsGrow(ev: seq<Evidence>, e: Evidence)
    ensures |LayerIndices(ev, Mechanism)| <= |LayerIndices(ev + [e], Mechanism)|
  {
    SubsetSize(LayerIndices(ev, Mechanism), LayerIndices(ev + [e], Mechanism));
  }

  /** One more record on top of a HIGH score: it falls to LOW if the evidence is then out of order or
      contradicted, to MEDIUM if it then has change and mechanism but not three signals, and is
      HIGH in every other case. */
  lemma ExtendedHigh(ev: seq<Evidence>, e: Evidence)
    requires Score(ev).0 == High
    ensures var more, layer := ev + [e], e.causalLayer;
      var change, mechanism := Has(ev, Change) || layer == Change, Has(ev, Mechanism) || layer == Mechanism;
      Score(more).0 ==
        if !Admissible(more) then Low else if change && mechanism && |Components(more)| < 3 then Medium else High
  {
    HasMore(ev, e, Change);
    HasMore(ev, e, Mechanism);
    HasMore(ev, e, Impact);
    HasMore(ev, e, Temporal);
    MechanismsGrow(ev, e);
    MechanismCounted(ev);
  }

  lemma UntimedIsAdmissible(ev: seq<Evidence>)
    requires ev != [] && forall e :: e in ev ==> e.timestamp == "" && !e.contradictsHypothesis
    ensures Admissible(ev)
  {
    assert forall l :: !HasTimed(ev, l);
  }

  lemma SampleHas(layers: seq<Layer>, trace: Option<string>, layer: Layer)
    ensures Has(Samples(layers, trace), layer) <==> layer in layers
  {
    var ev := Samples(layers, trace);
    if layer in layers {
      var i :| 0 <= i < |layers| && layers[i] == layer;
      assert ev[i] in ev;
    }
  }

  function Samples(layers: seq<Layer>, trace: Option<string>): seq<Evidence>
  {
    seq(|layers|, i requires 0 <= i < |layers| => Sample(layers[i], trace))
  }

  /** A score of HIGH that one more record of the same trace turns into MEDIUM. */
  lemma OneTraceLowers(layers: seq<Layer>, layer: Layer, t: string)
    requires t != "" && layers != []
    requires Score(Samples(layers, Some(t))).0 == High && Change in layers + [layer] && Mechanism in layers + [layer]
    ensures Score(Samples(layers, Some(t)) + [Sample(layer, Some(t))]).0 == Medium
  {
    var ev, e := Samples(layers, Some(t)), Sample(layer, Some(t));
    SampleHas(layers, Some(t), Change);
    SampleHas(layers, Some(t), Mechanism);
    SharedTraceIsOneSignal(ev + [e]);
    UntimedIsAdmissible(ev + [e]);
    ExtendedHigh(ev, e);
  }

  /** A mechanism lowers the score of a change with impact and rollback timing. */
  lemma MechanismLowers(t: string)
    requires t != ""
    ensures var ev := Samples([Change, Impact, Temporal], Some(t));
      Score(ev).0 == High && Score(ev + [Sample(Mechanism, Some(t))]).0 == Medium
  {
    var layers := [Change, Impact, Temporal];
    SampleHas(layers, Some(t), Change);
    SampleHas(layers, Some(t), Mechanism);
    SampleHas(layers, Some(t), Impact);
    SampleHas(layers, Some(t), Temporal);
    UntimedIsAdmissible(Samples(layers, Some(t)));
    OneTraceLowers(layers, Mechanism, t);
  }

  /** A change lowers the score of two mechanisms with impact. */
  lemma ChangeLowers(t: string)
    requires t != ""
    ensures var ev := Samples([Mechanism, Mechanism, Impact], Some(t));
      Score(ev).0 == High && Score(ev + [Sample(Change, Some(t))]).0 == Medium
  {
    var layers := [Mechanism, Mechanism, Impact];
    SampleHas(layers, Some(t), Change);
    SampleHas(layers, Some(t), Mechanism);
    SampleHas(layers, Some(t), Impact);
    UntimedIsAdmissible(Samples(layers, Some(t)));
    assert LayerIndices(Samples(layers, Some(t)), Mechanism) == {0, 1};
    OneTraceLowers(layers, Change, t);
  }

  /** A record of any layer that joins two of three independent ones lowers the score of a change
      with mechanism and impact. */
  lemma JoiningLowers(a: Evidence, b: Evidence, c: Evidence, e: Evidence)
    requires a.causalLayer == Change && b.causalLayer == Mechanism && c.causalLayer == Impact
    requires !Dependent(a, b) && !Dependent(a, c) && !Dependent(b, c)
    requires Dependent(a, e) && Dependent(b, e) && !Dependent(c, e)
    requires Admissible([a, b, c]) && Admissible([a, b, c, e])
    ensures Score([a, b, c]).0 == High && Score([a, b, c, e]).0 == Medium
  {
    ThreeThenTwo(a, b, c, e);
    var three := [a, b, c];
    assert a in three && b in three && c in three;
    assert three + [e] == [a, b, c, e];
    ExtendedHigh(three, e);
  }

  // ----- order of arrival -----

  lemma SameMembers(a: seq<Evidence>, b: seq<Evidence>)
    requires multiset(a) == multiset(b)
    ensures forall e :: e in a <==> e in b
    ensures |a| == |b|
  {
    assert |a| == |multiset(a)| == |multiset(b)| == |b|;
    forall e
      ensures e in a <==> e in b
    {
      assert e in multiset(a) <==> e in multiset(b);
    }
  }

  lemma PrecedesIgnoresOrder(a: seq<Evidence>, b: seq<Evidence>, sooner: Layer, later: Layer)
    requires forall e :: e in a <==> e in b
    requires Precedes(a, sooner, later)
    ensures Precedes(b, sooner, later)
  {
    if HasTimed(b, sooner) && HasTimed(b, later) {
      var e :| e in a && IsTimed(e, sooner) && forall f :: f in a && IsTimed(f, later) ==>
        StrLeq(e.timestamp, f.timestamp);
      assert e in b;
    }
  }

  lemma AdmissibleIgnoresOrder(a: seq<Evidence>, b: seq<Evidence>)
    requires multiset(a) == multiset(b) && Admissible(a)
    ensures Admissible(b)
  {
    SameMembers(a, b);
    PrecedesIgnoresOrder(a, b, Change, Mechanism);
    PrecedesIgnoresOrder(a, b, Mechanism, Impact);
    PrecedesIgnoresOrder(a, b, Change, Impact);
  }

  lemma MechanismCountIgnoresOrder(a: seq<Evidence>, b: seq<Evidence>, layer: Layer)
    requires multiset(a) == multiset(b)
    ensures |LayerIndices(a, layer)| == |LayerIndices(b, layer)|
  {
    var p, q := ReorderingExists(a, b);
    forall j | j in LayerIndices(b, layer)
      ensures exists i :: i in LayerIndices(a, layer) && q[i] == j
    {
      assert q[p[j]] == j && p[j] in LayerIndices(a, layer);
    }
    forall i | i in LayerIndices(a, layer)
      ensures q[i] in LayerIndices(b, layer)
    {
      assert b[q[i]] == a[p[q[i]]];
    }
    forall x, y | x in LayerIndices(a, layer) && y in LayerIndices(a, layer) && q[x] == q[y]
      ensures x == y
    {
      assert p[q[x]] == x && p[q[y]] == y;
    }
    ImageSize(LayerIndices(a, layer), LayerIndices(b, layer), (i: nat) requires i < |q| => q[i]);
  }

  /** The score depends on the evidence, not on the order in which agents delivered it. */
  lemma ScoreIgnoresOrder(a: seq<Evidence>, b: seq<Evidence>)
    requires multiset(a) == multiset(b)
    ensures Score(a) == Score(b)
  {
    SameMembers(a, b);
    CountIgnoresOrder(a, b);
    MechanismCountIgnoresOrder(a, b, Mechanism);
    if Admissible(a) || Admissible(b) {
      if Admissible(a) {
        AdmissibleIgnoresOrder(a, b);
      } else {
        AdmissibleIgnoresOrder(b, a);
      }
    }
    assert Has(a, Change) == Has(b, Change) && Has(a, Impact) == Has(b, Impact);
    assert Has(a, Mechanism) == Has(b, Mechanism) && Has(a, Temporal) == Has(b, Temporal);
  }

  // ----- the legacy correlator and the ceiling -----

  function Signals(ev: seq<Evidence>): set<(string, string)>
  {
    set e | e in ev :: (e.sourceAgent, e.signalType)
  }

  lemma SignalsAre(ev: seq<Evidence>, agent: string, signal: string)
    ensures (agent, signal) in Signals(ev) <==> exists e :: e in ev && e.sourceAgent == agent && e.signalType == signal
  {
  }

  function Correlate(ev: seq<Evidence>, contradicting: seq<Evidence>): Label
  {
    var n := |Signals(ev)|;
    if n >= 3 then (if contradicting == [] then Alta else Media)
    else if n == 2 then (if contradicting == [] then Media else Baixa)
    else Baixa
  }

  /** The records the language model names as contradicting; indices out of range are dropped. */
  function Selected(ev: seq<Evidence>, indices: seq<int>): seq<Evidence>
  {
    if indices == [] then []
    else (if 0 <= indices[0] < |ev| then [ev[indices[0]]] else []) + Selected(ev, indices[1..])
  }

  function LevelRank(level: Level): int { match level case Low => 0 case Medium => 1 case High => 2 }

  function LabelRank(l: Label): int { match l case Baixa => 0 case Media => 1 case Alta => 2 }

  function RankToLabel(rank: int): Label
    requires 0 <= rank <= 2
  {
    if rank == 0 then Baixa else if rank == 1 then Media else Alta
  }

  ghost function FinalLabel(ev: seq<Evidence>, contradictingIndices: seq<int>): Label
  {
    RankToLabel(Min(LevelRank(Score(ev).0), LabelRank(Correlate(ev, Selected(ev, contradictingIndices)))))
  }

  lemma {:induction false} SelectedIsEmpty(ev: seq<Evidence>, indices: seq<int>)
    ensures Selected(ev, indices) == [] <==> forall k :: 0 <= k < |indices| ==> !(0 <= indices[k] < |ev|)
  {
    if indices == [] {
    } else {
      SelectedIsEmpty(ev, indices[1..]);
      assert forall k :: 0 < k < |indices| ==> indices[k] == indices[1..][k - 1];
    }
  }

  /** "alta" needs the evidence model's HIGH, three distinct (agent, signal) pairs, and no valid
      contradiction from the language model. */
  lemma AltaMeans(ev: seq<Evidence>, indices: seq<int>)
    ensures FinalLabel(ev, indices) == Alta <==>
      && Admissible(ev) && Convincing(ev)
      && |Signals(ev)| >= 3
      && forall k :: 0 <= k < |indices| ==> !(0 <= indices[k] < |ev|)
  {
    HighMeans(ev);
    SelectedIsEmpty(ev, indices);
  }

  /** "baixa" is what a LOW model gives, or fewer than two signals, or two with a contradiction. */
  lemma BaixaMeans(ev: seq<Evidence>, indices: seq<int>)
    ensures FinalLabel(ev, indices) == Baixa <==>
      || Score(ev).0 == Low
      || |Signals(ev)| <= 1
      || (|Signals(ev)| == 2 && exists k :: 0 <= k < |indices| && 0 <= indices[k] < |ev|)
  {
    SelectedIsEmpty(ev, indices);
  }

  /** The language model can only lower the label: naming more contradictions never raises it,
      and no list raises it above the evidence model's level. */
  lemma ContradictionsOnlyLower(ev: seq<Evidence>, indices: seq<int>, more: seq<int>)
    ensures LabelRank(FinalLabel(ev, indices + more)) <= LabelRank(FinalLabel(ev, indices)) <= LevelRank(Score(ev).0)
  {
    SelectedIsEmpty(ev, indices);
    SelectedIsEmpty(ev, indices + more);
    assert forall k :: 0 <= k < |indices| ==> indices[k] == (indices + more)[k];
  }

  /** The final label, too, ignores the order of the evidence. */
  lemma LabelIgnoresOrder(a: seq<Evidence>, b: seq<Evidence>, indices: seq<int>)
    requires multiset(a) == multiset(b)
    ensures FinalLabel(a, indices) == FinalLabel(b, indices)
  {
    SameMembers(a, b);
    ScoreIgnoresOrder(a, b);
    SelectedIsEmpty(a, indices);
    SelectedIsEmpty(b, indices);
    assert Signals(a) == Signals(b);
  }
}
