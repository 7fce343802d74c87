/** Node reputation: clamped score updates, and the factor they give to a node's gossip. */
module Reputation {
  import opened Sequences

  const VERIFIED_TRUE := 1.0
  const VERIFIED_FALSE := -2.0
  const ERROR := -1.0
  const ALPHA := 0.3
  const DEFAULT_SCORE := 0.7
  const GOSSIP_FLOOR := 0.3

  /** What a worker reports: an error text, or a result whose `verified` field may be missing. */
  datatype Report = Report(error: Option<string>, verified: Option<bool>)

  function OutcomeWeight(r: Report): real {
    if r.error.Some? && r.error.value != "" then ERROR
    else if r.verified == Some(true) then VERIFIED_TRUE
    else if r.verified == Some(false) then VERIFIED_FALSE
    else 0.0
  }

  function Min(a: real, b: real): real { if a <= b then a else b }

  function Max(a: real, b: real): real { if a >= b then a else b }

  function Clamp(x: real): real { Max(0.0, Min(1.0, x)) }

  function Update(score: real, weight: real): real { Clamp(score + ALPHA * weight) }

  function Factor(score: real): real { if score < GOSSIP_FLOOR then 0.0 else score }

  function ScoreOf(scores: map<string, real>, identity: string): real {
    if identity in scores then scores[identity] else DEFAULT_SCORE
  }

  class ReputationStore {
    var scores: map<string, real>
    var counts: map<string, nat>

    constructor ()
      ensures scores == map[] && counts == map[]
    {
      scores, counts := map[], map[];
    }

    method RecordOutcome(identity: string, weight: real) returns (score: real)
      modifies this
      ensures score == Update(ScoreOf(old(scores), identity), weight)
      ensures scores == old(scores)[identity := score]
      ensures counts == old(counts)[identity := (if identity in old(counts) then old(counts)[identity] else 0) + 1]
    {
      var prev := if identity in scores then scores[identity] else DEFAULT_SCORE;
      score := Max(0.0, Min(1.0, prev + ALPHA * weight));
      scores := scores[identity := score];
      counts := counts[identity := (if identity in counts then counts[identity] else 0) + 1];
    }

    /** The completion endpoint: a neutral report is not recorded at all. */
    method Complete(identity: string, report: Report)
      modifies this
      ensures scores == RecordReport(old(scores), identity, report)
    {
      var weight := OutcomeWeight(report);
      if weight != 0.0 { var _ := RecordOutcome(identity, weight); }
    }

    method DownweightFactor(identity: string) returns (f: real)
      ensures f == Factor(ScoreOf(scores, identity))
    {
      var score := if identity in scores then scores[identity] else DEFAULT_SCORE;
      f := if score < GOSSIP_FLOOR then 0.0 else score;
    }
  }

  function RecordReport(scores: map<string, real>, identity: string, report: Report): map<string, real> {
    if OutcomeWeight(report) == 0.0 then scores
    else scores[identity := Update(ScoreOf(scores, identity), OutcomeWeight(report))]
  }

  // ------------------------------------------------- whole histories

  predicate UnitScores(scores: map<string, real>) {
    forall i :: i in scores ==> 0.0 <= scores[i] <= 1.0
  }

  function RunReports(scores: map<string, real>, rs: seq<(string, Report)>): map<string, real>
    decreases |rs|
  {
    if rs == [] then scores else RunReports(RecordReport(scores, rs[0].0, rs[0].1), rs[1..])
  }

  function Fold(score: real, rs: seq<(string, Report)>): real
    decreases |rs|
  {
    if rs == [] then score else Fold(Update(score, OutcomeWeight(rs[0].1)), rs[1..])
  }

  /** The reports about one identity. */
  function About(identity: string, rs: seq<(string, Report)>): seq<(string, Report)> {
    Filter((r: (string, Report)) => r.0 == identity, rs)
  }

  /** A score depends on the reports about its own identity only, and stays in [0, 1]. */
  lemma {:induction false} IdentitiesAreIndependent(scores: map<string, real>, rs: seq<(string, Report)>, identity: string)
    requires UnitScores(scores)
    ensures UnitScores(RunReports(scores, rs))
    ensures ScoreOf(RunReports(scores, rs), identity) == Fold(ScoreOf(scores, identity), About(identity, rs))
    decreases |rs|
  {
    if rs != [] {
      IdentitiesAreIndependent(RecordReport(scores, rs[0].0, rs[0].1), rs[1..], identity);
      if rs[0].0 == identity {
        assert About(identity, rs) == [rs[0]] + About(identity, rs[1..]);
        assert About(identity, rs)[1..] == About(identity, rs[1..]);
      } else {
        assert About(identity, rs) == About(identity, rs[1..]);
      }
    }
  }

  /** x -> min(hi, max(lo, x + shift)) */
  datatype Window = Window(lo: real, hi: real, shift: real)

  function Apply(w: Window, x: real): real { Min(w.hi, Max(w.lo, x + w.shift)) }

  /** The window of a history, last report applied last. */
  function Summary(rs: seq<(string, Report)>): (w: Window)
    ensures 0.0 <= w.lo <= w.hi <= 1.0
    decreases |rs|
  {
    if rs == [] then Window(0.0, 1.0, 0.0)
    else
      var w := Summary(rs[..|rs| - 1]);
      var d := ALPHA * OutcomeWeight(rs[|rs| - 1].1);
      Window(Clamp(w.lo + d), Clamp(w.hi + d), w.shift + d)
  }

  lemma {:induction false} FoldSnoc(score: real, rs: seq<(string, Report)>, r: (string, Report))
    ensures Fold(score, rs + [r]) == Update(Fold(score, rs), OutcomeWeight(r.1))
    decreases |rs|
  {
    if rs == [] {
      assert ([] + [r])[1..] == [];
    } else {
      assert (rs + [r])[1..] == rs[1..] + [r];
      FoldSnoc(Update(score, OutcomeWeight(rs[0].1)), rs[1..], r);
    }
  }

  /** Any history acts on every starting score as one clamped shift. */
  lemma {:induction false} HistoryIsOneWindow(score: real, rs: seq<(string, Report)>)
    requires 0.0 <= score <= 1.0
    ensures Fold(score, rs) == Apply(Summary(rs), score)
    decreases |rs|
  {
    if rs != [] {
      var init, last := rs[..|rs| - 1], rs[|rs| - 1];
      assert rs == init + [last];
      HistoryIsOneWindow(score, init);
      FoldSnoc(score, init, last);
      ClampCompose(Summary(init), score, ALPHA * OutcomeWeight(last.1));
    }
  }

  lemma ClampCompose(w: Window, x: real, d: real)
    requires 0.0 <= w.lo <= w.hi <= 1.0
    ensures Clamp(Apply(w, x) + d) == Apply(Window(Clamp(w.lo + d), Clamp(w.hi + d), w.shift + d), x)
  {
  }

  /** The worker's result was judged wrong, and it reported no error of its own. */
  predicate Refuted(r: Report) { (r.error == None || r.error == Some("")) && r.verified == Some(false) }

  /** What one report does to a score in [0, 1]: an error takes off 0.3, whatever the verdict; a right result adds 0.3, a
      wrong one takes off 0.6, and one without a verdict changes nothing. */
  lemma ReportMoves(score: real, r: Report)
    requires 0.0 <= score <= 1.0
    ensures
      var after, failed := Update(score, OutcomeWeight(r)), r.error.Some? && r.error.value != "";
      && (failed ==> after == if score <= 0.3 then 0.0 else score - 0.3)
      && (!failed && r.verified == Some(true) ==> after == if score >= 0.7 then 1.0 else score + 0.3)
      && (!failed && r.verified == Some(false) ==> after == if score <= 0.6 then 0.0 else score - 0.6)
      && (!failed && r.verified == None ==> after == score)
  {
  }

  /** Two refutations in a row erase any past, and with it the node's gossip. */
  lemma TwoRefutationsSilence(score: real, rs: seq<(string, Report)>, a: (string, Report), b: (string, Report))
    requires 0.0 <= score <= 1.0 && Refuted(a.1) && Refuted(b.1)
    ensures Fold(score, rs + [a] + [b]) == 0.0 && Factor(Fold(score, rs + [a] + [b])) == 0.0
  {
    HistoryIsOneWindow(score, rs);
    FoldSnoc(score, rs, a);
    FoldSnoc(score, rs + [a], b);
  }

  /** One refutation does not: it takes a full score to 0.4, which still gossips. */
  lemma OneRefutationDoesNot(a: (string, Report))
    requires Refuted(a.1)
    ensures Fold(1.0, [a]) == 0.4 && Factor(Fold(1.0, [a])) == 0.4
  {
    assert [] + [a] == [a];
    FoldSnoc(1.0, [], a);
  }

  /** It does for a node that has only just turned up: that starts at 0.7 and gossips with that weight, and its first
      report silences it if and only if it is a refutation. */
  lemma FirstReportSilencesIff(identity: string, r: Report)
    ensures ScoreOf(map[], identity) == 0.7 && Factor(0.7) == 0.7
    ensures Factor(ScoreOf(RecordReport(map[], identity, r), identity)) == 0.0 <==> Refuted(r)
  {
    ReportMoves(0.7, r);
  }

  /** A node gossips if and only if its score is 0.3 at least, and then with its score for a weight. */
  lemma GossipsIff(score: real)
    requires 0.0 <= score
    ensures Factor(score) > 0.0 <==> score >= 0.3
    ensures Factor(score) > 0.0 ==> Factor(score) == score
  {
  }
}

/** The gossip merge: one stored pattern per id, the weightiest contribution wins. */
module Gossip {
  import opened Sequences
  import opened Reputation

  datatype Pattern = Pattern(payload: string, weight: real)
  datatype Offer = Offer(id: string, payload: string)
  /** One /api/sona/sync call: the sender's factor and the patterns it exports. */
  datatype Sync = Sync(factor: real, offers: seq<Offer>)
  /** One pattern as it reached the coordinator. */
  datatype Contribution = Contribution(id: string, pattern: Pattern)

  function MergeOne(store: map<string, Pattern>, c: Contribution): map<string, Pattern> {
    if c.id == "" || (c.id in store && c.pattern.weight < store[c.id].weight) then store
    else store[c.id := c.pattern]
  }

  function MergeAll(store: map<string, Pattern>, cs: seq<Contribution>): map<string, Pattern> {
    if cs == [] then store else MergeOne(MergeAll(store, cs[..|cs| - 1]), cs[|cs| - 1])
  }

  /** What a call contributes: nothing at factor zero. */
  function Contributions(s: Sync): seq<Contribution> {
    if s.factor <= 0.0 then [] else Map((o: Offer) => Contribution(o.id, Pattern(o.payload, s.factor)), s.offers)
  }

  function AllContributions(syncs: seq<Sync>): seq<Contribution> {
    if syncs == [] then []
    else AllContributions(syncs[..|syncs| - 1]) + Contributions(syncs[|syncs| - 1])
  }

  function Accepted(store: map<string, Pattern>, cs: seq<Contribution>): nat {
    if cs == [] then 0
    else
      var c, rest := cs[|cs| - 1], cs[..|cs| - 1];
      var before := MergeAll(store, rest);
      Accepted(store, rest) + if c.id != "" && !(c.id in before && c.pattern.weight < before[c.id].weight) then 1 else 0
  }

  lemma MergeNext(store: map<string, Pattern>, cs: seq<Contribution>, i: nat)
    requires i < |cs|
    ensures
      var before, c := MergeAll(store, cs[..i]), cs[i];
      && MergeAll(store, cs[..i + 1]) == MergeOne(before, c)
      && Accepted(store, cs[..i + 1]) ==
         Accepted(store, cs[..i]) + if c.id != "" && !(c.id in before && c.pattern.weight < before[c.id].weight) then 1 else 0
  {
    assert cs[..i + 1][..i] == cs[..i];
  }

  class Coordinator {
    const reputation: ReputationStore
    var patterns: map<string, Pattern>

    constructor (reputation: ReputationStore)
      ensures this.reputation == reputation && patterns == map[]
    {
      this.reputation, patterns := reputation, map[];
    }

    /** The sender's reputation weighs what it offers; below the gossip floor nothing is taken. */
    method SonaSync(identity: string, offers: seq<Offer>) returns (imported: nat, skipped: nat)
      modifies this`patterns
      ensures
        var factor := Factor(ScoreOf(reputation.scores, identity));
        && patterns == MergeAll(old(patterns), Contributions(Sync(factor, offers)))
        && (factor <= 0.0 ==> imported == 0 && skipped == |offers|)
        && (factor > 0.0 ==>
              && imported == Accepted(old(patterns), Contributions(Sync(factor, offers)))
              && imported + skipped == |Filter((o: Offer) => o.id != "", offers)|)
    {
      var factor := reputation.DownweightFactor(identity);
      imported, skipped := 0, 0;
      if factor <= 0.0 {
        skipped := |offers|;
        return;
      }
      ghost var cs := Contributions(Sync(factor, offers));
      for i := 0 to |offers|
        invariant patterns == MergeAll(old(patterns), cs[..i])
        invariant imported == Accepted(old(patterns), cs[..i])
        invariant imported + skipped == |Filter((o: Offer) => o.id != "", offers[..i])|
      {
        hide Map, Filter, MergeAll, Accepted;
        var o := offers[i];
        assert cs[i] == Contribution(o.id, Pattern(o.payload, factor));
        MergeNext(old(patterns), cs, i);
        FilterNext((o: Offer) => o.id != "", offers, i);
        if o.id == "" { continue; }
        if o.id in patterns && factor < patterns[o.id].weight {
          skipped := skipped + 1;
          continue;
        }
        patterns := patterns[o.id := Pattern(o.payload, factor)];
        imported := imported + 1;
      }
      assert cs[..|offers|] == cs && offers[..|offers|] == offers;
    }
  }

  function RunSyncs(syncs: seq<Sync>): map<string, Pattern> {
    if syncs == [] then map[]
    else MergeAll(RunSyncs(syncs[..|syncs| - 1]), Contributions(syncs[|syncs| - 1]))
  }

  /** k is the last of the weightiest contributions under id. */
  predicate Wins(cs: seq<Contribution>, id: string, k: nat) {
    && k < |cs| && cs[k].id == id
    && (forall i :: 0 <= i < |cs| && cs[i].id == id ==> cs[i].pattern.weight <= cs[k].pattern.weight)
    && (forall i :: k < i < |cs| && cs[i].id == id ==> cs[i].pattern.weight < cs[k].pattern.weight)
  }

  lemma {:induction false} MergeKeepsWinner(cs: seq<Contribution>, id: string) returns (k: nat)
    ensures id in MergeAll(map[], cs) <==> id != "" && exists i :: 0 <= i < |cs| && cs[i].id == id
    ensures id in MergeAll(map[], cs) ==> Wins(cs, id, k) && MergeAll(map[], cs)[id] == cs[k].pattern
    decreases |cs|
  {
    k := 0;
    if cs != [] {
      var init, last := cs[..|cs| - 1], cs[|cs| - 1];
      k := MergeKeepsWinner(init, id);
      var before := MergeAll(map[], init);
      assert forall i :: 0 <= i < |init| ==> init[i] == cs[i];
      if last.id == id && id != "" {
        assert cs[|cs| - 1].id == id;
        if !(id in before && last.pattern.weight < before[id].weight) { k := |cs| - 1; }
      }
    }
  }

  lemma {:induction false} MergeConcat(store: map<string, Pattern>, a: seq<Contribution>, b: seq<Contribution>)
    ensures MergeAll(store, a + b) == MergeAll(MergeAll(store, a), b)
    decreases |b|
  {
    if b == [] {
      assert a + b == a;
    } else {
      assert (a + b)[..|a + b| - 1] == a + b[..|b| - 1];
      MergeConcat(store, a, b[..|b| - 1]);
    }
  }

  lemma {:induction false} RunIsOneMerge(syncs: seq<Sync>)
    ensures RunSyncs(syncs) == MergeAll(map[], AllContributions(syncs))
    decreases |syncs|
  {
    if syncs != [] {
      var init, last := syncs[..|syncs| - 1], syncs[|syncs| - 1];
      RunIsOneMerge(init);
      MergeConcat(map[], AllContributions(init), Contributions(last));
    }
  }

  /** Over any run of syncs the stored weight of an id is the largest positive factor it was
      ever offered with, and the stored pattern is the last one offered with that factor. */
  lemma StoredPatternIsWeightiest(syncs: seq<Sync>, id: string) returns (k: nat)
    ensures id in RunSyncs(syncs) <==>
      id != "" && exists i :: 0 <= i < |AllContributions(syncs)| && AllContributions(syncs)[i].id == id
    ensures id in RunSyncs(syncs) ==>
      Wins(AllContributions(syncs), id, k) && RunSyncs(syncs)[id] == AllContributions(syncs)[k].pattern
      && RunSyncs(syncs)[id].weight > 0.0
  {
    RunIsOneMerge(syncs);
    k := MergeKeepsWinner(AllContributions(syncs), id);
    ContributionsArePositive(syncs);
  }

  lemma {:induction false} ContributionsArePositive(syncs: seq<Sync>)
    ensures forall i :: 0 <= i < |AllContributions(syncs)| ==> AllContributions(syncs)[i].pattern.weight > 0.0
    decreases |syncs|
  {
    if syncs != [] { ContributionsArePositive(syncs[..|syncs| - 1]); }
  }
}
