/** Tier 1 of the detection cascade: the window features that the heuristic scoring reads, its score, and what
    the score means for the cascade. */
module Tier1 {
  import opened Wrappers

  datatype LogEvent = LogEvent(timestamp: real, path: string, httpMethod: string, statusCode: Option<int>)

  // The entropy of the user agents, the Sigma hits and the OWASP coverage come from outside.
  datatype Features = Features(
    rateRps: real, nEvents: nat, uniquePathRatio: real, uaEntropy: real, ratio4xx: real,
    interArrivalMeanMs: real, nDistinctMethods: nat, sigmaHits: nat, owaspCoverage: real)

  datatype Vector = AiRecon | BruteForce | Recon | Injection | Unknown

  // ---- Feature extraction ----

  // The gaps between consecutive timestamps, in milliseconds
  function Gaps(w: seq<LogEvent>): seq<real> {
    if |w| < 2 then []
    else Gaps(w[..|w| - 1]) + [(w[|w| - 1].timestamp - w[|w| - 2].timestamp) * 1000.0]
  }

  function Sum(xs: seq<real>): real {
    if xs == [] then 0.0 else Sum(xs[..|xs| - 1]) + xs[|xs| - 1]
  }

  function Span(w: seq<LogEvent>): real
    requires w != []
  {
    w[|w| - 1].timestamp - w[0].timestamp
  }

  function Max(a: real, b: real): real { if a >= b then a else b }

  function Statuses(w: seq<LogEvent>): seq<int> {
    if w == [] then []
    else
      var front, s := Statuses(w[..|w| - 1]), w[|w| - 1].statusCode;
      if s.Some? then front + [s.value] else front
  }

  function Count4xx(ss: seq<int>): nat {
    if ss == [] then 0 else Count4xx(ss[..|ss| - 1]) + if 400 <= ss[|ss| - 1] < 500 then 1 else 0
  }

  function Mean(xs: seq<real>): real { if xs == [] then 0.0 else Sum(xs) / |xs| as real }

  function ExtractFeatures(w: seq<LogEvent>, sigmaHits: nat, uaEntropy: real, owaspCoverage: real): Features {
    if w == [] then Features(0.0, 0, 0.0, 0.0, 0.0, 0.0, 0, 0, 0.0)
    else
      var n, statuses := |w|, Statuses(w);
      var known := if statuses == [] then 1 else |statuses|;
      Features(
        n as real / Max(Span(w), 0.001), n, |set e | e in w :: e.path| as real / n as real, uaEntropy,
        Count4xx(statuses) as real / known as real, Mean(Gaps(w)), |set e | e in w :: e.httpMethod|,
        sigmaHits, owaspCoverage)
  }

  // ---- The heuristic score, accumulated signal by signal ----

  // A two-band signal
  function Bands(high: bool, highScore: real, low: bool, lowScore: real): real {
    if high then highScore else if low then lowScore else 0.0
  }

  predicate AiPaced(f: Features) { 0.0 < f.interArrivalMeanMs < 1700.0 }

  function VelocitySignal(f: Features): real {
    if f.rateRps > 50.0 then 0.35 else Bands(f.rateRps > 20.0, 0.25, f.rateRps > 5.0, 0.10)
  }

  function TimingSignal(f: Features): real { Bands(AiPaced(f), 0.35, 0.0 < f.interArrivalMeanMs < 3000.0, 0.10) }

  // What all other signals add
  function ContentSignals(f: Features): real {
    Bands(f.ratio4xx > 0.6, 0.20, f.ratio4xx > 0.3, 0.10)
    + Bands(f.sigmaHits >= 5, 0.25, f.sigmaHits > 0, 0.10)
    + Bands(f.uniquePathRatio > 0.8 && f.nEvents >= 5, 0.15, f.uniquePathRatio > 0.6 && f.nEvents >= 5, 0.05)
    + (if f.uaEntropy < 0.5 && f.nEvents >= 3 then 0.10 else 0.0)
    + Bands(f.owaspCoverage >= 0.6, 0.15, f.owaspCoverage >= 0.4, 0.08)
  }

  function Confidence(f: Features): real {
    var score := VelocitySignal(f) + TimingSignal(f) + ContentSignals(f);
    if score <= 1.0 then score else 1.0
  }

  // The signals that look at the content of the requests
  method AddContent(f: Features, base: real) returns (score: real)
    ensures score == base + ContentSignals(f)
  {
    score := base;
    if f.ratio4xx > 0.6 { score := score + 0.20; }
    else if f.ratio4xx > 0.3 { score := score + 0.10; }
    if f.sigmaHits >= 5 { score := score + 0.25; }
    else if f.sigmaHits > 0 { score := score + 0.10; }
    ghost var more := score;
    assert more == base + Bands(f.ratio4xx > 0.6, 0.20, f.ratio4xx > 0.3, 0.10)
        + Bands(f.sigmaHits >= 5, 0.25, f.sigmaHits > 0, 0.10);
    if f.uniquePathRatio > 0.8 && f.nEvents >= 5 { score := score + 0.15; }
    else if f.uniquePathRatio > 0.6 && f.nEvents >= 5 { score := score + 0.05; }
    assert score == more
        + Bands(f.uniquePathRatio > 0.8 && f.nEvents >= 5, 0.15, f.uniquePathRatio > 0.6 && f.nEvents >= 5, 0.05);
    if f.uaEntropy < 0.5 && f.nEvents >= 3 { score := score + 0.10; }
    if f.owaspCoverage >= 0.6 { score := score + 0.15; }
    else if f.owaspCoverage >= 0.4 { score := score + 0.08; }
  }

  method HeuristicScore(f: Features) returns (confidence: real)
    ensures confidence == Confidence(f) && 0.0 <= confidence <= 1.0
  {
    var score := 0.0;
    if f.rateRps > 50.0 { score := score + 0.35; }
    else if f.rateRps > 20.0 { score := score + 0.25; }
    else if f.rateRps > 5.0 { score := score + 0.10; }
    assert score == VelocitySignal(f);
    if 0.0 < f.interArrivalMeanMs < 1700.0 { score := score + 0.35; }
    else if 0.0 < f.interArrivalMeanMs < 3000.0 { score := score + 0.10; }
    assert score == VelocitySignal(f) + TimingSignal(f);
    score := AddContent(f, score);
    confidence := if score <= 1.0 then score else 1.0;
  }

  method HeuristicPredict(f: Features) returns (confidence: real, vector: Vector)
    ensures confidence == Confidence(f) && 0.0 <= confidence <= 1.0
    ensures vector == AiRecon <==> AiPaced(f)
    ensures vector == BruteForce <==> !AiPaced(f) && f.ratio4xx > 0.5 && f.nDistinctMethods <= 1
    ensures vector == Recon <==>
            !AiPaced(f) && !(f.ratio4xx > 0.5 && f.nDistinctMethods <= 1) && f.uniquePathRatio > 0.7
    ensures vector == Injection ==> f.sigmaHits > 0
    ensures vector == Unknown ==> f.sigmaHits == 0
  {
    confidence := HeuristicScore(f);
    if 0.0 < f.interArrivalMeanMs < 1700.0 { vector := AiRecon; }
    else if f.ratio4xx > 0.5 && f.nDistinctMethods <= 1 { vector := BruteForce; }
    else if f.uniquePathRatio > 0.7 { vector := Recon; }
    else if f.sigmaHits > 0 { vector := Injection; }
    else { vector := Unknown; }
  }

  // The confidence of the trained model if one is loaded and answers, else the heuristic's
  function Predicted(f: Features, model: Option<real>): real {
    if model.Some? then model.value else Confidence(f)
  }

  method Predict(f: Features, model: Option<real>) returns (confidence: real)
    ensures confidence == Predicted(f, model)
  {
    if model.Some? { return model.value; }
    confidence := HeuristicScore(f);
  }

  // ---- What the cascade makes of a confidence ----

  datatype Band = High | Ambiguous | Benign

  function BandOf(confidence: real): Band {
    if confidence >= 0.85 then High else if confidence < 0.40 then Benign else Ambiguous
  }

  // ---- Theorems ----

  // The gaps telescope: their sum is the span of the window, in any order of timestamps.
  lemma {:induction false} GapsTelescope(w: seq<LogEvent>)
    requires w != []
    ensures Sum(Gaps(w)) == Span(w) * 1000.0 && |Gaps(w)| == |w| - 1
  {
    if |w| >= 2 {
      var front := w[..|w| - 1];
      GapsTelescope(front);
      var gap := (w[|w| - 1].timestamp - w[|w| - 2].timestamp) * 1000.0;
      assert (Gaps(front) + [gap])[..|Gaps(front)|] == Gaps(front);
    }
  }

  lemma Divide(a: real, b: real, c: real)
    requires b > 0.0
    ensures (a / b > c) <==> a > c * b
  {
    assert a == a / b * b;
  }

  lemma Below(a: real, b: real, c: real)
    requires b > 0.0 && a < c * b
    ensures a / b < c
  {
    assert a == a / b * b;
  }

  lemma FastMeansClose(n: nat, dt: real)
    requires n >= 2 && dt > 0.0 && n as real / Max(dt, 0.001) > 5.0
    ensures 0.0 < dt * 1000.0 / (n - 1) as real < 400.0
  {
    Divide(n as real, Max(dt, 0.001), 5.0);
    assert 200.0 * n as real <= 400.0 * (n - 1) as real;
    Divide(dt * 1000.0, (n - 1) as real, 0.0);
    Below(dt * 1000.0, (n - 1) as real, 400.0);
  }

  // A window of n >= 2 events with a positive span runs faster than 5 requests per second only if its mean gap is
  // under 400 ms; so its timing alone marks it as AI reconnaissance.
  lemma FastWindowIsAiPaced(w: seq<LogEvent>, sigmaHits: nat, uaEntropy: real, owaspCoverage: real)
    requires |w| >= 2 && Span(w) > 0.0
    requires ExtractFeatures(w, sigmaHits, uaEntropy, owaspCoverage).rateRps > 5.0
    ensures 0.0 < ExtractFeatures(w, sigmaHits, uaEntropy, owaspCoverage).interArrivalMeanMs < 400.0
    ensures AiPaced(ExtractFeatures(w, sigmaHits, uaEntropy, owaspCoverage))
  {
    GapsTelescope(w);
    FastMeansClose(|w|, Span(w));
    assert Mean(Gaps(w)) == Span(w) * 1000.0 / (|w| - 1) as real;
  }

  // What a score computed with rounding errors makes of the window
  function Rounded(f: Features, error: real): real {
    var score := VelocitySignal(f) + TimingSignal(f) + ContentSignals(f) + error;
    if score <= 1.0 then score else 1.0
  }

  // The heuristic gives such a window at least 0.45, so the cascade never counts it as benign,
  // however the score is rounded.
  lemma FastWindowIsNeverBenign(w: seq<LogEvent>, sigmaHits: nat, uaEntropy: real, owaspCoverage: real)
    requires |w| >= 2 && Span(w) > 0.0
    requires ExtractFeatures(w, sigmaHits, uaEntropy, owaspCoverage).rateRps > 5.0
    ensures var c := Confidence(ExtractFeatures(w, sigmaHits, uaEntropy, owaspCoverage));
            0.45 <= c <= 1.0 && BandOf(c) != Benign
    ensures forall error | -0.01 < error < 0.01 ::
              BandOf(Rounded(ExtractFeatures(w, sigmaHits, uaEntropy, owaspCoverage), error)) != Benign
  {
    FastWindowIsAiPaced(w, sigmaHits, uaEntropy, owaspCoverage);
  }

  // No signal besides the timing
  predicate NoOtherSignal(f: Features) {
    && f.rateRps <= 5.0 && f.ratio4xx <= 0.3 && f.sigmaHits == 0 && f.owaspCoverage < 0.4
    && (f.nEvents >= 5 ==> f.uniquePathRatio <= 0.6) && (f.nEvents >= 3 ==> f.uaEntropy >= 0.5)
  }

  // The lower band of the path signal, 0.05, and nothing else besides the timing: 0.35 + 0.05 lies on the limit of
  // 0.40, where rounding decides.
  predicate OnTheEdge(f: Features) {
    && f.rateRps <= 5.0 && f.ratio4xx <= 0.3 && f.sigmaHits == 0 && f.owaspCoverage < 0.4
    && f.nEvents >= 5 && 0.6 < f.uniquePathRatio <= 0.8 && f.uaEntropy >= 0.5
  }

  // The other signals add up to nothing, to 0.05, or to at least 0.08.
  lemma OtherSignals(f: Features)
    ensures var others := VelocitySignal(f) + ContentSignals(f);
            if NoOtherSignal(f) then others == 0.0 else if OnTheEdge(f) then others == 0.05 else others >= 0.08
  {}

  // An AI-paced window is benign exactly when it shows no other signal, however its score is rounded; only a window on
  // the edge depends on the rounding, and is benign exactly if it is rounded down.
  lemma AiPacedBenignExactlyWithoutSignals(f: Features, error: real)
    requires AiPaced(f) && -0.01 < error < 0.01
    ensures BandOf(Rounded(f, error)) == Benign <==> NoOtherSignal(f) || (OnTheEdge(f) && error < 0.0)
  {
    var others := VelocitySignal(f) + ContentSignals(f);
    assert TimingSignal(f) == 0.35;
    OtherSignals(f);
    assert others == 0.0 || others == 0.05 || others >= 0.08;
  }

  // ---- What the features are ----

  lemma Count4xxSnoc(ss: seq<int>, s: int)
    ensures Count4xx(ss + [s]) == Count4xx(ss) + if 400 <= s < 500 then 1 else 0
  {
    assert (ss + [s])[..|ss|] == ss;
  }

  function Known(w: seq<LogEvent>): set<nat> { set i | 0 <= i < |w| && w[i].statusCode.Some? }

  function ClientErrors(w: seq<LogEvent>): set<nat> {
    set i | 0 <= i < |w| && w[i].statusCode.Some? && 400 <= w[i].statusCode.value < 500
  }

  lemma KnownSnoc(w: seq<LogEvent>)
    requires w != []
    ensures var front, s := w[..|w| - 1], w[|w| - 1].statusCode;
            && Known(w) == (if s.Some? then Known(front) + {|w| - 1} else Known(front))
            && ClientErrors(w) == if s.Some? && 400 <= s.value < 500 then ClientErrors(front) + {|w| - 1}
                                  else ClientErrors(front)
  {}

  lemma {:induction false} StatusesAreNumbers(w: seq<LogEvent>)
    ensures |Statuses(w)| == |Known(w)| && Count4xx(Statuses(w)) == |ClientErrors(w)|
  {
    if w == [] {
    } else {
      var front, s := w[..|w| - 1], w[|w| - 1].statusCode;
      StatusesAreNumbers(front);
      KnownSnoc(w);
      if s.Some? { Count4xxSnoc(Statuses(front), s.value); }
    }
  }

  // Each feature of a window is the number it is named after; the gaps enter by their sum, which is the span.
  lemma FeaturesAreExact(w: seq<LogEvent>, sigmaHits: nat, uaEntropy: real, owaspCoverage: real)
    requires w != []
    ensures var f := ExtractFeatures(w, sigmaHits, uaEntropy, owaspCoverage);
            var span := w[|w| - 1].timestamp - w[0].timestamp;
            var known, bad := |Known(w)|, |ClientErrors(w)|;
            && f.nEvents == |w| && f.rateRps == |w| as real / (if span >= 0.001 then span else 0.001)
            && f.ratio4xx == (if known == 0 then 0.0 else bad as real / known as real)
            && f.uniquePathRatio == |set e | e in w :: e.path| as real / |w| as real
            && f.nDistinctMethods == |set e | e in w :: e.httpMethod|
            && f.interArrivalMeanMs == (if |w| == 1 then 0.0 else span * 1000.0 / (|w| - 1) as real)
            && f.sigmaHits == sigmaHits && f.uaEntropy == uaEntropy && f.owaspCoverage == owaspCoverage
  {
    StatusesAreNumbers(w);
    GapsTelescope(w);
    if Known(w) == {} { assert ClientErrors(w) <= Known(w); }
  }

  lemma EmptyWindowHasNoFeatures(sigmaHits: nat, uaEntropy: real, owaspCoverage: real)
    ensures ExtractFeatures([], sigmaHits, uaEntropy, owaspCoverage) == Features(0.0, 0, 0.0, 0.0, 0.0, 0.0, 0, 0, 0.0)
  {}

  // ---- How the signals weigh ----

  lemma ContentIsMonotone(f: Features, g: Features)
    requires f.nEvents <= g.nEvents && f.ratio4xx <= g.ratio4xx && f.sigmaHits <= g.sigmaHits
    requires f.uniquePathRatio <= g.uniquePathRatio && g.uaEntropy <= f.uaEntropy && f.owaspCoverage <= g.owaspCoverage
    ensures ContentSignals(f) <= ContentSignals(g)
  {}

  // The weights, signal by signal
  lemma WeightsAre(f: Features)
    ensures var sum :=
              (if f.rateRps > 50.0 then 0.35 else if f.rateRps > 20.0 then 0.25
               else if f.rateRps > 5.0 then 0.10 else 0.0)
              + (if f.interArrivalMeanMs <= 0.0 then 0.0 else if f.interArrivalMeanMs < 1700.0 then 0.35
                 else if f.interArrivalMeanMs < 3000.0 then 0.10 else 0.0)
              + (if f.ratio4xx > 0.6 then 0.20 else if f.ratio4xx > 0.3 then 0.10 else 0.0)
              + (if f.sigmaHits >= 5 then 0.25 else if f.sigmaHits > 0 then 0.10 else 0.0)
              + (if f.nEvents < 5 then 0.0 else if f.uniquePathRatio > 0.8 then 0.15
                 else if f.uniquePathRatio > 0.6 then 0.05 else 0.0)
              + (if f.nEvents >= 3 && f.uaEntropy < 0.5 then 0.10 else 0.0)
              + (if f.owaspCoverage >= 0.6 then 0.15 else if f.owaspCoverage >= 0.4 then 0.08 else 0.0);
            Confidence(f) == if sum <= 1.0 then sum else 1.0
  {}

  // More of any signal never lowers the score: a higher rate, shorter gaps, more errors, Sigma hits, paths and
  // families, and fewer kinds of user agent.
  lemma ScoreIsMonotone(f: Features, g: Features)
    requires f.nEvents <= g.nEvents && f.rateRps <= g.rateRps && f.ratio4xx <= g.ratio4xx && f.sigmaHits <= g.sigmaHits
    requires f.uniquePathRatio <= g.uniquePathRatio && g.uaEntropy <= f.uaEntropy && f.owaspCoverage <= g.owaspCoverage
    requires 0.0 < f.interArrivalMeanMs ==> 0.0 < g.interArrivalMeanMs <= f.interArrivalMeanMs
    ensures Confidence(f) <= Confidence(g)
  {
    assert VelocitySignal(f) <= VelocitySignal(g) && TimingSignal(f) <= TimingSignal(g);
    ContentIsMonotone(f, g);
  }

  // Speed and pace do not trigger by themselves, but with a burst of errors, many Sigma hits, broad coverage or broad
  // enumeration they do; a slow window without pace and Sigma hits never does.
  lemma WhatTriggers(f: Features)
    ensures f.ratio4xx <= 0.3 && f.sigmaHits == 0 && f.owaspCoverage < 0.4
            && (f.nEvents >= 5 ==> f.uniquePathRatio <= 0.6) && (f.nEvents >= 3 ==> f.uaEntropy >= 0.5) ==>
              Confidence(f) <= 0.70
    ensures f.rateRps > 50.0 && AiPaced(f) && (f.ratio4xx > 0.6 || f.sigmaHits >= 5 || f.owaspCoverage >= 0.6) ==>
              Confidence(f) >= 0.85
    ensures f.rateRps > 50.0 && AiPaced(f) && f.uniquePathRatio > 0.8 && f.nEvents >= 5 ==> Confidence(f) >= 0.85
    ensures f.rateRps > 50.0 && AiPaced(f) && f.ratio4xx > 0.6 && f.sigmaHits >= 5 ==> Confidence(f) == 1.0
    ensures f.rateRps <= 5.0 && !(0.0 < f.interArrivalMeanMs < 3000.0) && f.sigmaHits == 0 ==> Confidence(f) <= 0.60
  {}
}