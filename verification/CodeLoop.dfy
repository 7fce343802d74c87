/** The verified code loop: tests first, then candidates, then repairs, with every model and
    the sandbox free to answer anything. */
module CodeLoopWorld {
  import opened Sequences
  import opened Text
  import BlockChoice

  datatype Reply = Failed | Wrote(text: string)

  /** What one sandbox run of some code against some tests said. */
  datatype Verdict = Raised | Verdict(verified: bool, error: string)

  datatype Check = Check(code: string, tests: string, verdict: Verdict)

  datatype Sandbox = Absent | Trapped | Ran

  /** The outside world. Each service answers its n-th call with an arbitrary function of n, so the
      functions range over every behaviour, including one that depends on the prompt. */
  datatype World = World(generalist: nat -> Reply, specialist: nat -> Reply, verifier: nat -> Verdict,
                         mutate: string -> Option<string>, parses: string -> bool, lower: string -> string, nonVacuous: string -> bool,
                         sandbox: string -> Sandbox, looksHarmless: string -> bool)

  datatype Outcome = Exception | Result(answer: string, score: real, verified: bool, tests: Option<string>)

  const SANDBOX_SCORE := 0.65
  const STATIC_SCORE := 0.2

  predicate Contains(s: string, part: string) {
    part <= s || (s != "" && Contains(s[1..], part))
  }

  predicate Good(v: Verdict) { v.Verdict? && v.verified }

  predicate TestsBroke(v: Verdict) { v.Verdict? && Contains(v.error, "TEST_ERROR") }

  predicate Repairable(v: Verdict) {
    v.Verdict? && (Contains(v.error, "ASSERTION_FAILED") || Contains(v.error, "IMPORT_ERROR"))
  }

  predicate UsableSpec(w: World, tests: string) {
    tests != "" && Contains(tests, "assert") && w.nonVacuous(tests)
  }

  predicate NoneRepairable(vs: seq<Verdict>) { forall i :: 0 <= i < |vs| ==> !Repairable(vs[i]) }

  /** The code block of the k-th generalist answer. */
  predicate Specified(w: World, asked: nat, tests: string) {
    exists k :: 0 <= k < asked && w.generalist(k).Wrote? && tests == BlockChoice.Extract(w.generalist(k).text, w.parses, w.lower)
  }

  predicate Produced(w: World, drafted: nat, code: string) {
    exists k :: 0 <= k < drafted && w.specialist(k).Wrote? && code == BlockChoice.Extract(w.specialist(k).text, w.parses, w.lower)
  }

  /** The code blocks of the n specialist answers from number k on, failed calls left out. */
  function Drafts(w: World, k: nat, n: nat): (codes: seq<string>)
    ensures |codes| <= n
  {
    if n == 0 then []
    else
      var last := w.specialist(k + n - 1);
      Drafts(w, k, n - 1) + if last.Wrote? then [BlockChoice.Extract(last.text, w.parses, w.lower)] else []
  }

  lemma {:induction false} DraftsAreProduced(w: World, k: nat, n: nat)
    ensures forall i :: 0 <= i < |Drafts(w, k, n)| ==> Produced(w, k + n, Drafts(w, k, n)[i])
  {
    if n > 0 {
      DraftsAreProduced(w, k, n - 1);
      var before, after := Drafts(w, k, n - 1), Drafts(w, k, n);
      forall i | 0 <= i < |after|
        ensures Produced(w, k + n, after[i])
      {
        if i < |before| {
          assert after[i] == before[i] && Produced(w, k + n - 1, before[i]);
        }
      }
    }
  }

  /** The log of sandbox runs holds a run of this code against these tests that passed. */
  predicate Passed(log: seq<Check>, code: string, tests: string) {
    exists j :: 0 <= j < |log| && log[j].code == code && log[j].tests == tests && Good(log[j].verdict)
  }

  /** The code cannot be mutated, or a run of its mutant against these tests did not pass. */
  predicate Distinguished(w: World, log: seq<Check>, code: string, tests: string) {
    w.mutate(code).None?
    || exists j :: 0 <= j < |log| && log[j].code == w.mutate(code).value && log[j].tests == tests && !Good(log[j].verdict)
  }

  /** The tests passed the broken mutant too. */
  predicate Vacuous(w: World, log: seq<Check>, code: string, tests: string) {
    w.mutate(code).Some? && Passed(log, w.mutate(code).value, tests)
  }

  /** How often each service has been called, what the sandbox said, and which tests a mutation check
      has found vacuous. The last is history: the code does not keep it. */
  datatype Net = Net(asked: nat, drafted: nat, log: seq<Check>, flagged: set<string>)

  const NO_CALLS := Net(0, 0, [], {})

  /** What a score of 1.0 stands for. */
  predicate Earned(w: World, n: Net, code: string, tests: string) {
    && Passed(n.log, code, tests) && Distinguished(w, n.log, code, tests)
    && UsableSpec(w, tests) && Specified(w, n.asked, tests) && Produced(w, n.drafted, code)
  }

  /** An outcome claims no more than was earned. A partial score comes without tests only: 0.65 for an answer that
      ran in the sandbox, 0.2 for one that looks harmless where there is no sandbox and that is allowed to count. */
  predicate Honest(w: World, allowStatic: bool, n: Net, r: Outcome) {
    match r
    case Exception => true
    case Result(answer, score, verified, tests) =>
      if verified then score == 1.0 && tests.Some? && Earned(w, n, answer, tests.value)
      else
        || score == 0.0
        || (score == 0.65 && tests.None? && w.sandbox(answer).Ran?)
        || (score == 0.2 && tests.None? && w.sandbox(answer).Absent? && allowStatic && w.looksHarmless(answer))
  }
}

/** The loop as a function of what the world answers. */
module CodeLoopSpec {
  import opened Sequences
  import opened CodeLoopWorld
  import BlockChoice

  datatype Settings = Settings(allowStatic: bool, candidates: nat, maxRepair: nat)

  /** The usable test spec in a generalist's answer, if there is one. */
  function SpecIn(w: World, raw: Reply): Option<string> {
    if raw.Failed? then None
    else
      var tests := BlockChoice.Extract(raw.text, w.parses, w.lower);
      if UsableSpec(w, tests) then Some(tests) else None
  }

  /** One retry when the first answer holds no usable spec, none when the call failed. */
  function AskForTests(w: World, n: Net): (r: (Net, Option<string>)) {
    var once := n.(asked := n.asked + 1);
    if w.generalist(n.asked).Failed? || SpecIn(w, w.generalist(n.asked)).Some? then (once, SpecIn(w, w.generalist(n.asked)))
    else (n.(asked := n.asked + 2), SpecIn(w, w.generalist(n.asked + 1)))
  }

  /** Runs of the codes against the tests, in order. */
  function Checks(w: World, codes: seq<string>, tests: string, n: nat): (cs: seq<Check>)
    ensures |cs| == |codes|
    ensures forall i :: 0 <= i < |codes| ==> cs[i] == Check(codes[i], tests, w.verifier(n + i))
  {
    seq(|codes|, i requires 0 <= i < |codes| => Check(codes[i], tests, w.verifier(n + i)))
  }

  predicate AllRan(vs: seq<Verdict>) { forall i :: 0 <= i < |vs| ==> vs[i].Verdict? }

  /** The answers to k runs from the n-th call on. */
  function Verdicts(w: World, n: nat, k: nat): (vs: seq<Verdict>)
    ensures |vs| == k
    ensures forall i :: 0 <= i < k ==> vs[i] == w.verifier(n + i)
  {
    seq(k, i requires 0 <= i < k => w.verifier(n + i))
  }

  function AfterRuns(w: World, n: Net, codes: seq<string>, tests: string): Net {
    n.(log := n.log + Checks(w, codes, tests, |n.log|))
  }

  /** The run of a code's mutant, when it has one. */
  function MutantRun(w: World, n: Net, code: string, tests: string): Net {
    if w.mutate(code).None? then n
    else
      n.(log := n.log + [Check(w.mutate(code).value, tests, w.verifier(|n.log|))],
         flagged := if Good(w.verifier(|n.log|)) then n.flagged + {tests} else n.flagged)
  }

  /** Would the mutant pass the tests, run now? */
  predicate MutantPasses(w: World, n: Net, code: string) {
    w.mutate(code).Some? && Good(w.verifier(|n.log|))
  }

  /** The first verdict that is a pass, or the number of verdicts. */
  function FirstGood(vs: seq<Verdict>): (p: nat)
    ensures p <= |vs| && (p < |vs| ==> Good(vs[p]))
    ensures forall i :: 0 <= i < p ==> !Good(vs[i])
  {
    if vs == [] || Good(vs[0]) then 0 else 1 + FirstGood(vs[1..])
  }

  datatype Judgement = Judgement(net: Net, accepted: Option<nat>, rewrite: bool)

  /** First rounds: only the first candidate that passed is looked at. If its mutant passes too, or
      if every candidate broke the tests, the tests are to be rewritten. */
  function Judge(w: World, n: Net, codes: seq<string>, vs: seq<Verdict>, tests: string): Judgement
    requires |codes| == |vs|
  {
    var p := FirstGood(vs);
    if p == |vs| then Judgement(n, None, forall i :: 0 <= i < |vs| ==> TestsBroke(vs[i]))
    else
      var vacuous := MutantPasses(w, n, codes[p]);
      Judgement(MutantRun(w, n, codes[p], tests), if vacuous then None else Some(p), vacuous)
  }

  /** Repair rounds, from candidate i on: the first that passed and whose mutant does not. */
  function PickRepaired(w: World, n: Net, codes: seq<string>, vs: seq<Verdict>, tests: string, i: nat): (r: (Net, Option<nat>))
    requires |codes| == |vs| && i <= |vs|
    ensures r.1.Some? ==> i <= r.1.value < |vs|
    decreases |vs| - i
  {
    if i == |vs| then (n, None)
    else if !Good(vs[i]) then PickRepaired(w, n, codes, vs, tests, i + 1)
    else if MutantPasses(w, n, codes[i]) then PickRepaired(w, MutantRun(w, n, codes[i], tests), codes, vs, tests, i + 1)
    else (MutantRun(w, n, codes[i], tests), Some(i))
  }

  /** Where a round leaves the loop. */
  datatype Round = Round(net: Net, done: Option<Outcome>, codes: seq<string>, vs: seq<Verdict>, rewrite: bool)

  function TryCandidates(w: World, s: Settings, n: Net, tests: string): (r: Round)
    ensures r.done.None? ==> r.codes != []
  {
    var codes, drafted := Drafts(w, n.drafted, s.candidates), n.(drafted := n.drafted + s.candidates);
    var vs, ran := Verdicts(w, |n.log|, |codes|), AfterRuns(w, drafted, codes, tests);
    if codes == [] then Round(drafted, Some(Result("", 0.0, false, None)), [], [], false)
    else if !AllRan(vs) then Round(ran, Some(Exception), [], [], false)
    else
      var j := Judge(w, ran, codes, vs, tests);
      Round(j.net, if j.accepted.Some? then Some(Result(codes[j.accepted.value], 1.0, true, Some(tests))) else None,
            codes, vs, j.rewrite)
  }

  /** A repair round in which no call came back leaves the basis as it was. */
  function TryRepairs(w: World, s: Settings, n: Net, tests: string, codes: seq<string>, vs: seq<Verdict>): (r: Round)
    requires codes != []
    ensures r.done.None? ==> r.codes != []
  {
    var next, drafted := Drafts(w, n.drafted, s.candidates), n.(drafted := n.drafted + s.candidates);
    var results, ran := Verdicts(w, |n.log|, |next|), AfterRuns(w, drafted, next, tests);
    if next == [] then Round(drafted, None, codes, vs, false)
    else if !AllRan(results) then Round(ran, Some(Exception), [], [], false)
    else
      var p := PickRepaired(w, ran, next, results, tests, 0);
      Round(p.0, if p.1.Some? then Some(Result(next[p.1.value], 1.0, true, Some(tests))) else None, next, results, false)
  }

  /** At most `left` repair rounds, each only while some candidate has a real code bug. */
  function Repair(w: World, s: Settings, n: Net, tests: string, codes: seq<string>, vs: seq<Verdict>, left: nat): (Net, Outcome)
    requires codes != []
    decreases left
  {
    if left == 0 || NoneRepairable(vs) then (n, Result(codes[0], 0.0, false, Some(tests)))
    else
      var r := TryRepairs(w, s, n, tests, codes, vs);
      if r.done.Some? then (r.net, r.done.value)
      else Repair(w, s, r.net, tests, r.codes, r.vs, left - 1)
  }

  function FallbackScore(w: World, allowStatic: bool, code: string): (score: real)
    ensures score == 0.0 || score == STATIC_SCORE || score == SANDBOX_SCORE
    ensures score == 0.65 <==> w.sandbox(code).Ran?
    ensures score == 0.2 <==> w.sandbox(code).Absent? && allowStatic && w.looksHarmless(code)
  {
    match w.sandbox(code)
    case Ran => SANDBOX_SCORE
    case Trapped => 0.0
    case Absent => if allowStatic && w.looksHarmless(code) then STATIC_SCORE else 0.0
  }

  /** One plain answer without tests; only before the first round is it scored at all. */
  function Plain(w: World, s: Settings, n: Net, scored: bool): (Net, Outcome) {
    var raw := w.specialist(n.drafted);
    (n.(drafted := n.drafted + 1),
     if raw.Failed? then Exception
     else Result(raw.text, if scored then FallbackScore(w, s.allowStatic, raw.text) else 0.0, false, None))
  }

  /** From the given attempt (0 or 1) on, with the tests at hand. */
  function Attempts(w: World, s: Settings, n: Net, tests: string, attempt: nat): (Net, Outcome)
    decreases 1 - attempt
  {
    var r := TryCandidates(w, s, n, tests);
    if r.done.Some? then (r.net, r.done.value)
    else if !r.rewrite || attempt >= 1 then Repair(w, s, r.net, tests, r.codes, r.vs, s.maxRepair)
    else
      var spec := AskForTests(w, r.net);
      if spec.1.None? then Plain(w, s, spec.0, false) else Attempts(w, s, spec.0, spec.1.value, attempt + 1)
  }

  function Loop(w: World, s: Settings, n: Net): (Net, Outcome) {
    var spec := AskForTests(w, n);
    if spec.1.None? then Plain(w, s, spec.0, true) else Attempts(w, s, spec.0, spec.1.value, 0)
  }

  // ------------------------------------------------- soundness

  lemma AskedForTests(w: World, n: Net)
    ensures
      var r := AskForTests(w, n);
      && r.0.drafted == n.drafted && r.0.log == n.log && n.asked < r.0.asked <= n.asked + 2
      && (r.1.Some? ==> UsableSpec(w, r.1.value) && Specified(w, r.0.asked, r.1.value))
  {
    hide UsableSpec;
  }

  /** Code that passed and whose mutant run was not a pass is accepted with reason. */
  lemma AcceptanceIsEarned(w: World, n: Net, at: nat, code: string, tests: string)
    requires at < |n.log| && n.log[at].code == code && n.log[at].tests == tests && Good(n.log[at].verdict)
    requires !MutantPasses(w, n, code)
    requires UsableSpec(w, tests) && Specified(w, n.asked, tests) && Produced(w, n.drafted, code)
    ensures Earned(w, MutantRun(w, n, code, tests), code, tests)
  {
    hide UsableSpec, Specified, Produced;
    var after := MutantRun(w, n, code, tests);
    assert after.log[at] == n.log[at];
    if w.mutate(code).Some? {
      assert after.log[|n.log|] == Check(w.mutate(code).value, tests, w.verifier(|n.log|));
    }
  }

  /** Every code of a round was run, at a known place of the log. */
  ghost predicate Holds(log: seq<Check>, at: nat, codes: seq<string>, vs: seq<Verdict>, tests: string) {
    && |codes| == |vs| && at + |codes| <= |log|
    && forall i :: 0 <= i < |codes| ==> log[at + i] == Check(codes[i], tests, vs[i])
  }

  lemma {:induction false} PickedIsEarned(w: World, n: Net, at: nat, codes: seq<string>, vs: seq<Verdict>, tests: string, i: nat)
    requires Holds(n.log, at, codes, vs, tests) && i <= |vs|
    requires UsableSpec(w, tests) && Specified(w, n.asked, tests)
    requires forall k :: 0 <= k < |codes| ==> Produced(w, n.drafted, codes[k])
    ensures
      var r := PickRepaired(w, n, codes, vs, tests, i);
      && r.0.asked == n.asked && r.0.drafted == n.drafted && |n.log| <= |r.0.log| <= |n.log| + |vs| - i
      && (r.1.Some? ==> Earned(w, r.0, codes[r.1.value], tests))
    decreases |vs| - i
  {
    hide UsableSpec, Specified, Produced, Earned;
    if i < |vs| {
      if !Good(vs[i]) {
        PickedIsEarned(w, n, at, codes, vs, tests, i + 1);
      } else if MutantPasses(w, n, codes[i]) {
        PickedIsEarned(w, MutantRun(w, n, codes[i], tests), at, codes, vs, tests, i + 1);
      } else {
        assert n.log[at + i] == Check(codes[i], tests, vs[i]);
        AcceptanceIsEarned(w, n, at + i, codes[i], tests);
      }
    }
  }

  lemma CandidatesAreHonest(w: World, s: Settings, n: Net, tests: string)
    requires UsableSpec(w, tests) && Specified(w, n.asked, tests)
    ensures
      var r := TryCandidates(w, s, n, tests);
      && r.net.asked == n.asked && r.net.drafted == n.drafted + s.candidates
      && |r.net.log| <= |n.log| + s.candidates + 1
      && (r.done.Some? ==> Honest(w, s.allowStatic, r.net, r.done.value))
  {
    hide UsableSpec, Specified, Produced, Earned, TestsBroke;
    var codes := Drafts(w, n.drafted, s.candidates);
    DraftsAreProduced(w, n.drafted, s.candidates);
    var vs := Verdicts(w, |n.log|, |codes|);
    var ran := AfterRuns(w, n.(drafted := n.drafted + s.candidates), codes, tests);
    var p := FirstGood(vs);
    if p < |vs| && !MutantPasses(w, ran, codes[p]) {
      assert ran.log[|n.log| + p] == Checks(w, codes, tests, |n.log|)[p];
      AcceptanceIsEarned(w, ran, |n.log| + p, codes[p], tests);
    }
  }

  lemma RepairsAreHonest(w: World, s: Settings, n: Net, tests: string, codes: seq<string>, vs: seq<Verdict>)
    requires UsableSpec(w, tests) && Specified(w, n.asked, tests) && codes != []
    ensures
      var r := TryRepairs(w, s, n, tests, codes, vs);
      && r.net.asked == n.asked && r.net.drafted == n.drafted + s.candidates
      && |r.net.log| <= |n.log| + 2 * s.candidates
      && (r.done.Some? ==> Honest(w, s.allowStatic, r.net, r.done.value))
  {
    hide UsableSpec, Specified, Produced, Earned, NoneRepairable;
    var next := Drafts(w, n.drafted, s.candidates);
    DraftsAreProduced(w, n.drafted, s.candidates);
    var results := Verdicts(w, |n.log|, |next|);
    var ran := AfterRuns(w, n.(drafted := n.drafted + s.candidates), next, tests);
    PickedIsEarned(w, ran, |n.log|, next, results, tests, 0);
  }

  lemma {:induction false} RepairIsHonest(w: World, s: Settings, n: Net, tests: string, codes: seq<string>, vs: seq<Verdict>, left: nat)
    requires UsableSpec(w, tests) && Specified(w, n.asked, tests) && codes != []
    ensures
      var r := Repair(w, s, n, tests, codes, vs, left);
      && Honest(w, s.allowStatic, r.0, r.1) && r.0.asked == n.asked
      && r.0.drafted <= n.drafted + left * s.candidates && |r.0.log| <= |n.log| + 2 * (left * s.candidates)
    decreases left
  {
    hide UsableSpec, Specified, Earned, NoneRepairable, TryRepairs;
    if left == 0 {
    } else {
      NextRound(left, s.candidates);
      RepairsAreHonest(w, s, n, tests, codes, vs);
      var r := TryRepairs(w, s, n, tests, codes, vs);
      if r.done.None? { RepairIsHonest(w, s, r.net, tests, r.codes, r.vs, left - 1); }
    }
  }

  lemma NextRound(left: nat, candidates: nat)
    requires left > 0
    ensures left * candidates == (left - 1) * candidates + candidates && 0 <= (left - 1) * candidates
  {
  }

  lemma {:induction false} AttemptsAreHonest(w: World, s: Settings, n: Net, tests: string, attempt: nat)
    requires attempt <= 1 && s.candidates >= 1 && UsableSpec(w, tests) && Specified(w, n.asked, tests)
    ensures
      var r := Attempts(w, s, n, tests, attempt);
      && Honest(w, s.allowStatic, r.0, r.1) && r.0.asked <= n.asked + 2 * (1 - attempt)
      && r.0.drafted <= n.drafted + (2 - attempt) * s.candidates + s.maxRepair * s.candidates
      && |r.0.log| <= |n.log| + (2 - attempt) * (s.candidates + 1) + 2 * (s.maxRepair * s.candidates)
    decreases 1 - attempt
  {
    hide UsableSpec, Specified, Earned, TryCandidates, Repair;
    var r := TryCandidates(w, s, n, tests);
    CandidatesAreHonest(w, s, n, tests);
    RoundsAreNat(s.maxRepair, s.candidates);
    if r.done.None? {
      if !r.rewrite || attempt >= 1 {
        RepairIsHonest(w, s, r.net, tests, r.codes, r.vs, s.maxRepair);
      } else {
        AskedForTests(w, r.net);
        var spec := AskForTests(w, r.net);
        if spec.1.Some? { AttemptsAreHonest(w, s, spec.0, spec.1.value, attempt + 1); }
      }
    }
  }

  lemma RoundsAreNat(rounds: nat, candidates: nat)
    ensures 0 <= rounds * candidates
    ensures (2 + rounds) * candidates == 2 * candidates + rounds * candidates
  {
  }

  /** Whatever the world answers: a score of 1.0 is earned, every other result scores at most 0.65,
      and the calls stay within budget. */
  lemma LoopIsSound(w: World, s: Settings, n: Net)
    requires s.candidates >= 1
    ensures
      var r := Loop(w, s, n);
      && Honest(w, s.allowStatic, r.0, r.1)
      && r.0.asked <= n.asked + 4
      && r.0.drafted <= n.drafted + (2 + s.maxRepair) * s.candidates
      && |r.0.log| <= |n.log| + 2 * (s.candidates + 1) + 2 * (s.maxRepair * s.candidates)
  {
    hide UsableSpec, Specified, Earned, Attempts;
    AskedForTests(w, n);
    RoundsAreNat(s.maxRepair, s.candidates);
    var spec := AskForTests(w, n);
    if spec.1.Some? { AttemptsAreHonest(w, s, spec.0, spec.1.value, 0); }
  }

  // ------------------------------------------------- tests that were found vacuous

  function SpecText(w: World, k: nat): string
    requires w.generalist(k).Wrote?
  {
    BlockChoice.Extract(w.generalist(k).text, w.parses, w.lower)
  }

  /** A run that passes reports no error. */
  ghost predicate CleanPasses(w: World) {
    forall n: nat :: Good(w.verifier(n)) ==> w.verifier(n).error == ""
  }

  /** The generalist never repeats itself. */
  ghost predicate DistinctSpecs(w: World) {
    forall i: nat, j: nat :: i < j && w.generalist(i).Wrote? && w.generalist(j).Wrote? ==> SpecText(w, i) != SpecText(w, j)
  }

  /** The result is verified with tests that a mutation check of the same run found vacuous. */
  predicate AcceptsFlagged(n: Net, r: Outcome) {
    r.Result? && r.verified && r.tests.Some? && r.tests.value in n.flagged
  }

  /** Every flagged spec came from an earlier answer of the generalist. */
  ghost predicate FlaggedAreOld(w: World, n: Net) {
    forall t :: t in n.flagged ==> Specified(w, n.asked, t)
  }

  lemma NewTestsAreUnflagged(w: World, n: Net)
    requires DistinctSpecs(w) && FlaggedAreOld(w, n) && AskForTests(w, n).1.Some?
    ensures AskForTests(w, n).1.value !in n.flagged
    ensures FlaggedAreOld(w, AskForTests(w, n).0)
  {
    hide UsableSpec, BlockChoice.Extract;
    var asked, tests := AskForTests(w, n).0.asked, AskForTests(w, n).1.value;
    var k := if SpecIn(w, w.generalist(n.asked)).Some? then n.asked else n.asked + 1;
    assert tests == SpecText(w, k);
    forall t | t in n.flagged
      ensures t != tests && Specified(w, asked, t)
    {
      assert Specified(w, n.asked, t);
      var j :| 0 <= j < n.asked && w.generalist(j).Wrote? && t == BlockChoice.Extract(w.generalist(j).text, w.parses, w.lower);
      assert t == SpecText(w, j);
    }
  }

  /** Some code and its mutant have both passed the tests. */
  predicate HasCause(w: World, log: seq<Check>, tests: string) {
    exists k :: 0 <= k < |log| && Passed(log, log[k].code, tests) && Vacuous(w, log, log[k].code, tests)
  }

  ghost predicate FlaggedHaveCause(w: World, n: Net) { forall t :: t in n.flagged ==> HasCause(w, n.log, t) }

  lemma PassedLasts(log: seq<Check>, longer: seq<Check>, code: string, tests: string)
    requires log <= longer && Passed(log, code, tests)
    ensures Passed(longer, code, tests)
  {
    var j :| 0 <= j < |log| && log[j].code == code && log[j].tests == tests && Good(log[j].verdict);
    assert longer[j] == log[j];
  }

  lemma CauseLasts(w: World, n: Net, longer: Net)
    requires FlaggedHaveCause(w, n) && n.log <= longer.log && longer.flagged == n.flagged
    ensures FlaggedHaveCause(w, longer)
  {
    hide Passed;
    forall t | t in longer.flagged
      ensures HasCause(w, longer.log, t)
    {
      assert HasCause(w, n.log, t);
      var k :| 0 <= k < |n.log| && Passed(n.log, n.log[k].code, t) && Vacuous(w, n.log, n.log[k].code, t);
      assert longer.log[k] == n.log[k];
      PassedLasts(n.log, longer.log, n.log[k].code, t);
      PassedLasts(n.log, longer.log, w.mutate(n.log[k].code).value, t);
    }
  }

  lemma MutantRunHasCause(w: World, n: Net, at: nat, code: string, tests: string)
    requires FlaggedHaveCause(w, n)
    requires at < |n.log| && n.log[at].code == code && n.log[at].tests == tests && Good(n.log[at].verdict)
    ensures FlaggedHaveCause(w, MutantRun(w, n, code, tests))
  {
    hide FlaggedHaveCause, HasCause, Passed;
    var after := MutantRun(w, n, code, tests);
    CauseLasts(w, n, after.(flagged := n.flagged));
    if MutantPasses(w, n, code) {
      MutantPassIsCause(w, n, at, code, tests);
      OneMoreFlag(w, after.(flagged := n.flagged), tests);
    }
  }

  lemma MutantPassIsCause(w: World, n: Net, at: nat, code: string, tests: string)
    requires at < |n.log| && n.log[at].code == code && n.log[at].tests == tests && Good(n.log[at].verdict)
    requires MutantPasses(w, n, code)
    ensures HasCause(w, MutantRun(w, n, code, tests).log, tests)
  {
    var log := MutantRun(w, n, code, tests).log;
    assert log[at] == n.log[at] && log[|n.log|] == Check(w.mutate(code).value, tests, w.verifier(|n.log|));
    assert Passed(log, log[at].code, tests) && Vacuous(w, log, log[at].code, tests);
  }

  lemma OneMoreFlag(w: World, n: Net, tests: string)
    requires FlaggedHaveCause(w, n) && HasCause(w, n.log, tests)
    ensures FlaggedHaveCause(w, n.(flagged := n.flagged + {tests}))
  {
  }

  lemma {:induction false} PickHasCause(w: World, n: Net, at: nat, codes: seq<string>, vs: seq<Verdict>, tests: string, i: nat)
    requires Holds(n.log, at, codes, vs, tests) && i <= |vs| && FlaggedHaveCause(w, n)
    ensures FlaggedHaveCause(w, PickRepaired(w, n, codes, vs, tests, i).0)
    decreases |vs| - i
  {
    hide FlaggedHaveCause;
    if i < |vs| {
      if Good(vs[i]) {
        assert n.log[at + i] == Check(codes[i], tests, vs[i]);
        MutantRunHasCause(w, n, at + i, codes[i], tests);
        if MutantPasses(w, n, codes[i]) { PickHasCause(w, MutantRun(w, n, codes[i], tests), at, codes, vs, tests, i + 1); }
      } else {
        PickHasCause(w, n, at, codes, vs, tests, i + 1);
      }
    }
  }

  lemma RunsHold(w: World, n: Net, codes: seq<string>, tests: string)
    ensures Holds(AfterRuns(w, n, codes, tests).log, |n.log|, codes, Verdicts(w, |n.log|, |codes|), tests)
    ensures n.log <= AfterRuns(w, n, codes, tests).log
  {
  }

  lemma JudgeHasCause(w: World, n: Net, at: nat, codes: seq<string>, vs: seq<Verdict>, tests: string)
    requires Holds(n.log, at, codes, vs, tests) && FlaggedHaveCause(w, n)
    ensures FlaggedHaveCause(w, Judge(w, n, codes, vs, tests).net)
  {
    hide FlaggedHaveCause, TestsBroke, MutantRun;
    var p := FirstGood(vs);
    if p < |vs| {
      assert n.log[at + p] == Check(codes[p], tests, vs[p]);
      MutantRunHasCause(w, n, at + p, codes[p], tests);
    }
  }

  lemma RunsHaveCause(w: World, n: Net, drafted: nat, codes: seq<string>, tests: string)
    requires FlaggedHaveCause(w, n)
    ensures
      var ran := AfterRuns(w, n.(drafted := drafted), codes, tests);
      && FlaggedHaveCause(w, n.(drafted := drafted)) && FlaggedHaveCause(w, ran)
      && Holds(ran.log, |n.log|, codes, Verdicts(w, |n.log|, |codes|), tests)
  {
    hide FlaggedHaveCause, Holds, Checks, Verdicts;
    var next := n.(drafted := drafted);
    RunsHold(w, next, codes, tests);
    CauseLasts(w, n, next);
    CauseLasts(w, next, AfterRuns(w, next, codes, tests));
  }

  lemma CandidatesHaveCause(w: World, s: Settings, n: Net, tests: string)
    requires FlaggedHaveCause(w, n)
    ensures FlaggedHaveCause(w, TryCandidates(w, s, n, tests).net)
  {
    hide FlaggedHaveCause, Drafts, Holds, Judge, AfterRuns, AllRan;
    var codes := Drafts(w, n.drafted, s.candidates);
    var ran := AfterRuns(w, n.(drafted := n.drafted + s.candidates), codes, tests);
    RunsHaveCause(w, n, n.drafted + s.candidates, codes, tests);
    JudgeHasCause(w, ran, |n.log|, codes, Verdicts(w, |n.log|, |codes|), tests);
  }

  lemma RepairsHaveCause(w: World, s: Settings, n: Net, tests: string, codes: seq<string>, vs: seq<Verdict>)
    requires FlaggedHaveCause(w, n) && codes != []
    ensures FlaggedHaveCause(w, TryRepairs(w, s, n, tests, codes, vs).net)
  {
    hide FlaggedHaveCause, Drafts, Holds, PickRepaired, AfterRuns, AllRan;
    var next := Drafts(w, n.drafted, s.candidates);
    var ran := AfterRuns(w, n.(drafted := n.drafted + s.candidates), next, tests);
    RunsHaveCause(w, n, n.drafted + s.candidates, next, tests);
    PickHasCause(w, ran, |n.log|, next, Verdicts(w, |n.log|, |next|), tests, 0);
  }

  lemma {:induction false} RepairHasCause(w: World, s: Settings, n: Net, tests: string,
                                          codes: seq<string>, vs: seq<Verdict>, left: nat)
    requires FlaggedHaveCause(w, n) && codes != []
    ensures FlaggedHaveCause(w, Repair(w, s, n, tests, codes, vs, left).0)
    decreases left
  {
    hide FlaggedHaveCause, NoneRepairable, TryRepairs;
    if left > 0 {
      RepairsHaveCause(w, s, n, tests, codes, vs);
      var r := TryRepairs(w, s, n, tests, codes, vs);
      if r.done.None? { RepairHasCause(w, s, r.net, tests, r.codes, r.vs, left - 1); }
    }
  }

  lemma {:induction false} AttemptsHaveCause(w: World, s: Settings, n: Net, tests: string, attempt: nat)
    requires attempt <= 1 && FlaggedHaveCause(w, n)
    ensures FlaggedHaveCause(w, Attempts(w, s, n, tests, attempt).0)
    decreases 1 - attempt
  {
    hide FlaggedHaveCause, TryCandidates, Repair;
    CandidatesHaveCause(w, s, n, tests);
    var r := TryCandidates(w, s, n, tests);
    if r.done.None? {
      if !r.rewrite || attempt >= 1 {
        RepairHasCause(w, s, r.net, tests, r.codes, r.vs, s.maxRepair);
      } else {
        var spec := AskForTests(w, r.net);
        CauseLasts(w, r.net, spec.0);
        if spec.1.None? {
          CauseLasts(w, spec.0, Plain(w, s, spec.0, false).0);
        } else {
          AttemptsHaveCause(w, s, spec.0, spec.1.value, attempt + 1);
        }
      }
    }
  }

  /** What is flagged is what the log shows: some code and its mutant have both passed those tests. */
  lemma FlaggedTestsAreVacuous(w: World, s: Settings)
    ensures FlaggedHaveCause(w, Loop(w, s, NO_CALLS).0)
  {
    hide Attempts;
    var spec := AskForTests(w, NO_CALLS);
    if spec.1.Some? { AttemptsHaveCause(w, s, spec.0, spec.1.value, 0); }
  }

  /** What a round adds to the flagged tests, and what follows when it does. */
  lemma CandidatesFlag(w: World, s: Settings, n: Net, tests: string)
    requires CleanPasses(w)
    ensures
      var r := TryCandidates(w, s, n, tests);
      && r.net.asked == n.asked
      && (r.net.flagged == n.flagged || (r.net.flagged == n.flagged + {tests} && r.done.None? && r.rewrite))
      && (r.done.Some? && r.done.value.Result? && r.done.value.verified ==> r.done.value.tests == Some(tests))
      && (r.net.flagged != n.flagged && s.candidates == 1 ==> NoneRepairable(r.vs))
  {
    hide TestsBroke, MutantRun, MutantPasses, Drafts, Repairable, NoneRepairable, CleanPasses, Checks;
    var codes, vs := Drafts(w, n.drafted, s.candidates), Verdicts(w, |n.log|, |Drafts(w, n.drafted, s.candidates)|);
    var ran := AfterRuns(w, n.(drafted := n.drafted + s.candidates), codes, tests);
    var p := FirstGood(vs);
    if p < |vs| {
      MutantRunFlags(w, ran, codes[p], tests);
      if |codes| == 1 { CleanPassIsNotRepairable(w, |n.log|); }
    }
  }

  lemma NothingInNothing()
    ensures !Repairable(Verdict(true, ""))
  {
  }

  /** With one candidate, a repair round that flags the tests has nothing left to repair. */
  lemma PickFromOne(w: World, n: Net, codes: seq<string>, vs: seq<Verdict>, tests: string)
    requires |codes| == |vs| == 1
    ensures
      var p := PickRepaired(w, n, codes, vs, tests, 0);
      if !Good(vs[0]) then p == (n, None)
      else p == (MutantRun(w, n, codes[0], tests), if MutantPasses(w, n, codes[0]) then None else Some(0))
  {
    hide MutantRun, MutantPasses;
    assert PickRepaired(w, MutantRun(w, n, codes[0], tests), codes, vs, tests, 1)
        == (MutantRun(w, n, codes[0], tests), None);
  }

  lemma MutantRunFlags(w: World, n: Net, code: string, tests: string)
    ensures
      var after := MutantRun(w, n, code, tests);
      && after.asked == n.asked && after.drafted == n.drafted
      && after.flagged == if MutantPasses(w, n, code) then n.flagged + {tests} else n.flagged
  {
  }

  lemma CleanPassIsNotRepairable(w: World, n: nat)
    requires CleanPasses(w) && Good(w.verifier(n))
    ensures NoneRepairable(Verdicts(w, n, 1))
  {
    hide Contains;
    NothingInNothing();
    assert w.verifier(n) == Verdict(true, "");
  }

  lemma RepairsFlag(w: World, s: Settings, n: Net, tests: string, codes: seq<string>, vs: seq<Verdict>)
    requires CleanPasses(w) && s.candidates == 1 && codes != []
    ensures
      var r := TryRepairs(w, s, n, tests, codes, vs);
      && r.net.asked == n.asked
      && (r.net.flagged == n.flagged || (r.net.flagged == n.flagged + {tests} && r.done.None? && NoneRepairable(r.vs)))
      && (r.done.Some? && r.done.value.Result? && r.done.value.verified ==> r.done.value.tests == Some(tests))
  {
    hide PickRepaired, MutantRun, MutantPasses, Drafts, Repairable, NoneRepairable, CleanPasses, Checks;
    var next, results := Drafts(w, n.drafted, 1), Verdicts(w, |n.log|, 1);
    if next != [] && AllRan(results) {
      var ran := AfterRuns(w, n.(drafted := n.drafted + 1), next, tests);
      PickFromOne(w, ran, next, results, tests);
      MutantRunFlags(w, ran, next[0], tests);
      if Good(results[0]) { CleanPassIsNotRepairable(w, |n.log|); }
    }
  }

  lemma {:induction false} RepairAcceptsNoFlagged(w: World, s: Settings, n: Net, tests: string,
                                                  codes: seq<string>, vs: seq<Verdict>, left: nat)
    requires CleanPasses(w) && codes != []
    requires left == 0 || (s.candidates == 1 && (tests !in n.flagged || NoneRepairable(vs)))
    ensures
      var r := Repair(w, s, n, tests, codes, vs, left);
      !AcceptsFlagged(r.0, r.1)
    decreases left
  {
    hide NoneRepairable, TryRepairs;
    if left > 0 && !NoneRepairable(vs) {
      RepairsFlag(w, s, n, tests, codes, vs);
      var r := TryRepairs(w, s, n, tests, codes, vs);
      if r.done.None? { RepairAcceptsNoFlagged(w, s, r.net, tests, r.codes, r.vs, left - 1); }
    }
  }

  lemma {:induction false} AttemptsAcceptNoFlagged(w: World, s: Settings, n: Net, tests: string, attempt: nat)
    requires attempt <= 1 && CleanPasses(w) && DistinctSpecs(w) && (s.maxRepair == 0 || s.candidates == 1)
    requires FlaggedAreOld(w, n) && Specified(w, n.asked, tests) && tests !in n.flagged
    ensures
      var r := Attempts(w, s, n, tests, attempt);
      !AcceptsFlagged(r.0, r.1)
    decreases 1 - attempt
  {
    hide NoneRepairable, TryCandidates, Repair, AskForTests, Specified;
    CandidatesFlag(w, s, n, tests);
    var r := TryCandidates(w, s, n, tests);
    if r.done.None? {
      if !r.rewrite || attempt >= 1 {
        RepairAcceptsNoFlagged(w, s, r.net, tests, r.codes, r.vs, s.maxRepair);
      } else {
        var spec := AskForTests(w, r.net);
        if spec.1.Some? {
          NewTestsAreUnflagged(w, r.net);
          AskedForTests(w, r.net);
          assert spec.0.flagged == r.net.flagged by { AskingFlagsNothing(w, r.net); }
          AttemptsAcceptNoFlagged(w, s, spec.0, spec.1.value, attempt + 1);
        }
      }
    }
  }

  lemma AskingFlagsNothing(w: World, n: Net)
    ensures AskForTests(w, n).0.flagged == n.flagged
  {
  }

  lemma LoopAcceptsNoFlagged(w: World, s: Settings)
    requires CleanPasses(w) && DistinctSpecs(w) && (s.maxRepair == 0 || s.candidates == 1)
    ensures
      var r := Loop(w, s, NO_CALLS);
      !AcceptsFlagged(r.0, r.1)
  {
    hide Attempts, AskForTests, Specified, UsableSpec;
    var spec := AskForTests(w, NO_CALLS);
    AskingFlagsNothing(w, NO_CALLS);
    if spec.1.Some? {
      AskedForTests(w, NO_CALLS);
      AttemptsAcceptNoFlagged(w, s, spec.0, spec.1.value, 0);
    }
  }

  // ------------------------------------------------- worlds in which flagged tests are accepted

  /** Every call is answered and every code has a mutant. */
  ghost predicate Responsive(w: World) {
    (forall k: nat :: w.specialist(k).Wrote?) && (forall k: nat :: w.verifier(k).Verdict?) && forall c :: w.mutate(c).Some?
  }

  /** The code block of the k-th specialist answer. */
  function CodeText(w: World, k: nat): string
    requires w.specialist(k).Wrote?
  {
    BlockChoice.Extract(w.specialist(k).text, w.parses, w.lower)
  }

  lemma {:induction false} AllDrafted(w: World, k: nat, n: nat)
    requires Responsive(w)
    ensures |Drafts(w, k, n)| == n && forall i :: 0 <= i < n ==> Drafts(w, k, n)[i] == CodeText(w, k + i)
  {
    hide BlockChoice.Extract;
    if n > 0 { AllDrafted(w, k, n - 1); }
  }

  /** The log after a round that ends with the mutant of its first candidate. */
  function RoundLog(w: World, s: Settings, n: Net, tests: string): seq<Check>
    requires Responsive(w) && s.candidates >= 1 && |Drafts(w, n.drafted, s.candidates)| == s.candidates
  {
    var codes := Drafts(w, n.drafted, s.candidates);
    n.log + Checks(w, codes, tests, |n.log|)
    + [Check(w.mutate(codes[0]).value, tests, w.verifier(|n.log| + s.candidates))]
  }

  /** A round whose first candidate and its mutant both pass. */
  lemma FlaggingRound(w: World, s: Settings, n: Net, tests: string)
    requires Responsive(w) && s.candidates >= 1 && Good(w.verifier(|n.log|)) && Good(w.verifier(|n.log| + s.candidates))
    requires |Drafts(w, n.drafted, s.candidates)| == s.candidates
    ensures
      var r := TryCandidates(w, s, n, tests);
      && r.done.None? && r.rewrite && r.vs == Verdicts(w, |n.log|, s.candidates)
      && r.net == Net(n.asked, n.drafted + s.candidates, RoundLog(w, s, n, tests), n.flagged + {tests})
  {
    hide Drafts, Checks;
  }

  /** A first or a repair round whose first candidate passes and is told from its mutant. */
  lemma AcceptingRound(w: World, s: Settings, n: Net, tests: string, codes: seq<string>, vs: seq<Verdict>)
    requires Responsive(w) && s.candidates >= 1 && codes != []
    requires Good(w.verifier(|n.log|)) && !Good(w.verifier(|n.log| + s.candidates))
    requires |Drafts(w, n.drafted, s.candidates)| == s.candidates
    ensures
      var r, q := TryCandidates(w, s, n, tests), TryRepairs(w, s, n, tests, codes, vs);
      && r.done.Some? && r.done.value.Result? && r.done.value.verified && r.done.value.tests == Some(tests)
      && r.net == Net(n.asked, n.drafted + s.candidates, RoundLog(w, s, n, tests), n.flagged)
      && q.done == r.done && q.net == r.net
  {
    hide Drafts, Checks;
    var next, results := Drafts(w, n.drafted, s.candidates), Verdicts(w, |n.log|, s.candidates);
    var ran := AfterRuns(w, n.(drafted := n.drafted + s.candidates), next, tests);
    assert PickRepaired(w, ran, next, results, tests, 0) == (MutantRun(w, ran, next[0], tests), Some(0));
  }

  /** Runs of the same code give the same verdict. */
  ghost predicate VerdictsFollowCode(log: seq<Check>) {
    forall i, j :: 0 <= i < |log| && 0 <= j < |log| && log[i].code == log[j].code ==> log[i].verdict == log[j].verdict
  }

  /** In the worlds below a, d and the mutant x of a pass; b and the mutant y of d do not. */
  function CodeVerdict(code: string): Verdict {
    if code == "a" || code == "d" || code == "x" then Verdict(true, "") else Verdict(false, "ASSERTION_FAILED")
  }

  function MutantOf(code: string): string { if code == "a" then "x" else "y" }

  ghost predicate Judged(log: seq<Check>) {
    forall k :: 0 <= k < |log| ==> log[k].verdict == CodeVerdict(log[k].code)
  }

  lemma RoundIsJudged(w: World, s: Settings, n: Net, tests: string)
    requires Responsive(w) && s.candidates >= 1 && Judged(n.log) && |Drafts(w, n.drafted, s.candidates)| == s.candidates
    requires forall i :: 0 <= i < s.candidates ==> w.verifier(|n.log| + i) == CodeVerdict(Drafts(w, n.drafted, s.candidates)[i])
    requires w.verifier(|n.log| + s.candidates) == CodeVerdict(w.mutate(Drafts(w, n.drafted, s.candidates)[0]).value)
    ensures Judged(RoundLog(w, s, n, tests)) && |RoundLog(w, s, n, tests)| == |n.log| + s.candidates + 1
  {
    hide Drafts, CodeVerdict, Responsive;
    var codes, log := Drafts(w, n.drafted, s.candidates), RoundLog(w, s, n, tests);
    forall k | 0 <= k < |log|
      ensures log[k].verdict == CodeVerdict(log[k].code)
    {
      if k < |n.log| {
        assert log[k] == n.log[k];
      } else if k < |n.log| + s.candidates {
        assert log[k] == Check(codes[k - |n.log|], tests, w.verifier(k));
        assert w.verifier(|n.log| + (k - |n.log|)) == CodeVerdict(codes[k - |n.log|]);
      }
    }
  }

  lemma JudgedFollowsCode(log: seq<Check>)
    requires Judged(log)
    ensures VerdictsFollowCode(log)
  {
  }

  lemma LettersAreTheirExtract(parses: string -> bool, lower: string -> string)
    ensures BlockChoice.Extract("a", parses, lower) == "a" && BlockChoice.Extract("b", parses, lower) == "b"
    ensures BlockChoice.Extract("d", parses, lower) == "d"
  {
    hide BlockChoice.Extract;
    BlockChoice.PlainLine("a", parses, lower);
    BlockChoice.PlainLine("b", parses, lower);
    BlockChoice.PlainLine("d", parses, lower);
  }

  lemma SpecsAreTheirExtract(parses: string -> bool, lower: string -> string)
    ensures BlockChoice.Extract("assert a", parses, lower) == "assert a"
    ensures BlockChoice.Extract("assert b", parses, lower) == "assert b"
  {
    hide BlockChoice.Extract;
    BlockChoice.PlainLine("assert a", parses, lower);
    BlockChoice.PlainLine("assert b", parses, lower);
  }

  lemma SpecsAssert()
    ensures Contains("assert a", "assert") && Contains("assert b", "assert")
    ensures Contains("ASSERTION_FAILED", "ASSERTION_FAILED")
  {
  }

  /** Two specs, both flagged by code a; b has a bug, d repairs it. */
  function RepairedWorld(n: nat): World {
    World((k: nat) => if k == 0 then Wrote("assert a") else if k == 1 then Wrote("assert b") else Failed,
          (k: nat) => Wrote(if k == 0 || k == n then "a" else if k < 2 * n then "b" else "d"),
          (k: nat) => if k == 0 || k == n || k == n + 1 || k == 2 * n + 1 || 2 * n + 2 <= k < 3 * n + 2 then Verdict(true, "")
                      else Verdict(false, "ASSERTION_FAILED"),
          (code: string) => Some(MutantOf(code)),
          (text: string) => true, (text: string) => text, (tests: string) => true,
          (code: string) => Absent, (code: string) => false)
  }

  /** The same spec whenever asked; flagged by code a in the first round, accepted with d in the second. */
  function RepeatingWorld(n: nat): World {
    World((k: nat) => Wrote("assert a"),
          (k: nat) => Wrote(if k == 0 then "a" else if k < n then "b" else "d"),
          (k: nat) => if k == 0 || n <= k <= 2 * n then Verdict(true, "") else Verdict(false, "ASSERTION_FAILED"),
          (code: string) => Some(MutantOf(code)),
          (text: string) => true, (text: string) => text, (tests: string) => true,
          (code: string) => Absent, (code: string) => false)
  }

  /** The three rounds of the first world, by the number of drafts and runs before each. */
  lemma RepairedWorldRounds(n: nat, i: nat)
    requires i < n && n >= 2
    ensures
      var w := RepairedWorld(n);
      && Responsive(w)
      && CodeText(w, i) == (if i == 0 then "a" else "b") && w.verifier(i) == CodeVerdict(CodeText(w, i))
      && CodeText(w, n + i) == (if i == 0 then "a" else "b") && w.verifier(n + 1 + i) == CodeVerdict(CodeText(w, n + i))
      && CodeText(w, 2 * n + i) == "d" && w.verifier(2 * n + 2 + i) == CodeVerdict("d")
      && w.verifier(n) == CodeVerdict("x") && w.verifier(2 * n + 1) == CodeVerdict("x") && w.verifier(3 * n + 2) == CodeVerdict("y")
  {
    hide BlockChoice.Extract;
    LettersAreTheirExtract(RepairedWorld(n).parses, RepairedWorld(n).lower);
  }

  lemma RepeatingWorldRounds(n: nat, i: nat)
    requires i < n
    ensures
      var w := RepeatingWorld(n);
      && Responsive(w)
      && CodeText(w, i) == (if i == 0 then "a" else "b") && w.verifier(i) == CodeVerdict(CodeText(w, i))
      && CodeText(w, n + i) == "d" && w.verifier(n + 1 + i) == CodeVerdict("d")
      && w.verifier(n) == CodeVerdict("x") && w.verifier(2 * n + 1) == CodeVerdict("y")
  {
    hide BlockChoice.Extract;
    LettersAreTheirExtract(RepeatingWorld(n).parses, RepeatingWorld(n).lower);
  }

  /** The verdict of candidate i of a round, by the number of drafts and runs before the round. */
  predicate CandidateFits(w: World, runs: nat, drafts: nat, i: nat) {
    w.specialist(drafts + i).Wrote? && w.verifier(runs + i) == CodeVerdict(CodeText(w, drafts + i))
  }

  /** The verdicts of the round that starts at n follow its codes. */
  ghost predicate RoundFits(w: World, s: Settings, n: Net) {
    && Responsive(w) && s.candidates >= 1 && (forall c :: w.mutate(c) == Some(MutantOf(c)))
    && (forall i :: 0 <= i < s.candidates ==> CandidateFits(w, |n.log|, n.drafted, i))
    && w.verifier(|n.log| + s.candidates) == CodeVerdict(MutantOf(CodeText(w, n.drafted)))
  }

  lemma RepairedWorldFits(s: Settings, n: Net)
    requires s.candidates >= 2
    requires (|n.log| == 0 && n.drafted == 0) || (|n.log| == s.candidates + 1 && n.drafted == s.candidates)
             || (|n.log| == 2 * s.candidates + 2 && n.drafted == 2 * s.candidates)
    ensures RoundFits(RepairedWorld(s.candidates), s, n)
  {
    hide CodeText, CodeVerdict;
    RepairedWorldRounds(s.candidates, 0);
    forall i | 0 <= i < s.candidates
      ensures CandidateFits(RepairedWorld(s.candidates), |n.log|, n.drafted, i)
    {
      RepairedWorldRounds(s.candidates, i);
    }
  }

  lemma RepeatingWorldFits(s: Settings, n: Net)
    requires s.candidates >= 1
    requires (|n.log| == 0 && n.drafted == 0) || (|n.log| == s.candidates + 1 && n.drafted == s.candidates)
    ensures RoundFits(RepeatingWorld(s.candidates), s, n)
  {
    hide CodeText, CodeVerdict;
    RepeatingWorldRounds(s.candidates, 0);
    forall i | 0 <= i < s.candidates
      ensures CandidateFits(RepeatingWorld(s.candidates), |n.log|, n.drafted, i)
    {
      RepeatingWorldRounds(s.candidates, i);
    }
  }

  lemma RoundOf(w: World, s: Settings, n: Net, tests: string)
    requires RoundFits(w, s, n) && Judged(n.log)
    ensures |Drafts(w, n.drafted, s.candidates)| == s.candidates && Judged(RoundLog(w, s, n, tests))
    ensures |RoundLog(w, s, n, tests)| == |n.log| + s.candidates + 1
    ensures w.verifier(|n.log|) == CodeVerdict(CodeText(w, n.drafted))
    ensures w.verifier(|n.log| + s.candidates) == CodeVerdict(MutantOf(CodeText(w, n.drafted)))
  {
    hide Drafts, CodeVerdict, MutantOf, CodeText, Judged, RoundLog;
    AllDrafted(w, n.drafted, s.candidates);
    assert CandidateFits(w, |n.log|, n.drafted, 0);
    var codes := Drafts(w, n.drafted, s.candidates);
    assert codes[0] == CodeText(w, n.drafted + 0);
    forall i | 0 <= i < s.candidates
      ensures w.verifier(|n.log| + i) == CodeVerdict(codes[i])
    {
      assert CandidateFits(w, |n.log|, n.drafted, i);
      assert codes[i] == CodeText(w, n.drafted + i);
    }
    RoundIsJudged(w, s, n, tests);
  }

  /** With two candidates and one repair, tests flagged in the last round are accepted in the repair. */
  lemma RepairAcceptsFlagged(s: Settings)
    requires s.candidates >= 2 && s.maxRepair >= 1
    ensures
      var w := RepairedWorld(s.candidates);
      var r := Loop(w, s, NO_CALLS);
      CleanPasses(w) && DistinctSpecs(w) && AcceptsFlagged(r.0, r.1) && VerdictsFollowCode(r.0.log)
  {
    hide BlockChoice.Extract, Contains, TryCandidates, TryRepairs, CodeText, CodeVerdict, RoundLog, RoundFits, Judged, Drafts, VerdictsFollowCode;
    var n, w := s.candidates, RepairedWorld(s.candidates);
    RepairedWorldIsClean(n);
    RepairedWorldRounds(n, 0);
    MutantsPass();
    var start := Net(1, 0, [], {});
    RepairedWorldFits(s, start);
    RoundOf(w, s, start, "assert a");
    FlaggingRound(w, s, start, "assert a");
    var first := TryCandidates(w, s, start, "assert a");
    var asked := Net(2, n, first.net.log, {"assert a"});
    RepairedWorldFits(s, asked);
    RoundOf(w, s, asked, "assert b");
    FlaggingRound(w, s, asked, "assert b");
    var second := TryCandidates(w, s, asked, "assert b");
    RepairedWorldFits(s, second.net);
    RoundOf(w, s, second.net, "assert b");
    AcceptingRound(w, s, second.net, "assert b", second.codes, second.vs);
    JudgedFollowsCode(TryRepairs(w, s, second.net, "assert b", second.codes, second.vs).net.log);
    RepairedWorldAsks(w, n, first.net);
    assert {} + {"assert a"} == {"assert a"} && first.net.(asked := 2) == asked;
    SecondIsRepairable(w, n, second.vs);
    assert Attempts(w, s, start, "assert a", 0) == Attempts(w, s, asked, "assert b", 1);
    assert Attempts(w, s, asked, "assert b", 1) == Repair(w, s, second.net, "assert b", second.codes, second.vs, s.maxRepair);
  }

  lemma MutantsPass()
    ensures Good(CodeVerdict("a")) && Good(CodeVerdict("x")) && Good(CodeVerdict("d")) && !Good(CodeVerdict("y"))
    ensures MutantOf("a") == "x" && MutantOf("d") == "y" && Judged([])
  {
  }

  lemma RepairedWorldIsClean(n: nat)
    ensures CleanPasses(RepairedWorld(n)) && DistinctSpecs(RepairedWorld(n))
  {
    hide BlockChoice.Extract;
    SpecsAreTheirExtract(RepairedWorld(n).parses, RepairedWorld(n).lower);
  }

  lemma RepairedWorldAsks(w: World, n: nat, first: Net)
    requires w == RepairedWorld(n) && first.asked == 1
    ensures AskForTests(w, NO_CALLS) == (Net(1, 0, [], {}), Some("assert a"))
    ensures AskForTests(w, first) == (first.(asked := 2), Some("assert b"))
  {
    hide BlockChoice.Extract, Contains;
    SpecsAreTheirExtract(w.parses, w.lower);
    SpecsAssert();
  }

  lemma SecondIsRepairable(w: World, n: nat, vs: seq<Verdict>)
    requires n >= 2 && w == RepairedWorld(n) && vs == Verdicts(w, n + 1, n)
    ensures !NoneRepairable(vs)
  {
    hide Contains;
    SpecsAssert();
    assert Repairable(vs[1]);
  }

  /** Asking again for tests may bring back the flagged ones. */
  lemma RepeatedTestsAreAccepted(s: Settings)
    requires s.candidates >= 1
    ensures
      var w := RepeatingWorld(s.candidates);
      var r := Loop(w, s, NO_CALLS);
      CleanPasses(w) && AcceptsFlagged(r.0, r.1) && VerdictsFollowCode(r.0.log)
  {
    hide BlockChoice.Extract, Contains, TryCandidates, TryRepairs, CodeText, CodeVerdict, RoundLog, RoundFits, Judged, Drafts, VerdictsFollowCode;
    var n, w := s.candidates, RepeatingWorld(s.candidates);
    RepeatingWorldRounds(n, 0);
    MutantsPass();
    var start := Net(1, 0, [], {});
    RepeatingWorldFits(s, start);
    RoundOf(w, s, start, "assert a");
    FlaggingRound(w, s, start, "assert a");
    var first := TryCandidates(w, s, start, "assert a");
    var asked := Net(2, n, first.net.log, {"assert a"});
    RepeatingWorldFits(s, asked);
    RoundOf(w, s, asked, "assert a");
    AcceptingRound(w, s, asked, "assert a", ["a"], []);
    JudgedFollowsCode(TryCandidates(w, s, asked, "assert a").net.log);
    RepeatingWorldAsks(w, n, first.net);
    assert {} + {"assert a"} == {"assert a"} && first.net.(asked := 2) == asked;
    assert Attempts(w, s, start, "assert a", 0) == Attempts(w, s, asked, "assert a", 1);
  }

  lemma RepeatingWorldAsks(w: World, n: nat, first: Net)
    requires w == RepeatingWorld(n) && first.asked == 1
    ensures AskForTests(w, NO_CALLS) == (Net(1, 0, [], {}), Some("assert a"))
    ensures AskForTests(w, first) == (first.(asked := 2), Some("assert a"))
  {
    hide BlockChoice.Extract, Contains;
    SpecsAreTheirExtract(w.parses, w.lower);
    SpecsAssert();
  }

  /** The loop does not remember which tests a mutation check found vacuous. Over the worlds whose passing
      runs report no error and whose generalist never repeats a spec, no result is verified with such tests
      if and only if there is no repair round or just one candidate a round. */
  lemma NoFlaggedTestsAcceptedIff(s: Settings)
    requires s.candidates >= 1
    ensures (forall w :: CleanPasses(w) && DistinctSpecs(w) ==> !AcceptsFlagged(Loop(w, s, NO_CALLS).0, Loop(w, s, NO_CALLS).1))
       <==> (s.maxRepair == 0 || s.candidates == 1)
  {
    hide Loop, CleanPasses, DistinctSpecs;
    if s.maxRepair == 0 || s.candidates == 1 {
      forall w | CleanPasses(w) && DistinctSpecs(w)
        ensures !AcceptsFlagged(Loop(w, s, NO_CALLS).0, Loop(w, s, NO_CALLS).1)
      {
        LoopAcceptsNoFlagged(w, s);
      }
    } else {
      RepairAcceptsFlagged(s);
    }
  }

  /** A generalist that may repeat a spec defeats every setting. */
  lemma NoSettingRulesOutRepeatedTests(s: Settings)
    requires s.candidates >= 1
    ensures exists w :: CleanPasses(w) && VerdictsFollowCode(Loop(w, s, NO_CALLS).0.log)
                        && AcceptsFlagged(Loop(w, s, NO_CALLS).0, Loop(w, s, NO_CALLS).1)
  {
    hide Loop;
    RepeatedTestsAreAccepted(s);
  }
}

module CodeLoop {
  import opened Sequences
  import opened CodeLoopWorld
  import CodeLoopSpec
  import opened CodeLoopTypes = CodeLoopSpec
  import BlockChoice

  class Orchestrator {
    const w: World
    const settings: Settings
    var asked: nat
    var drafted: nat
    var log: seq<Check>
    ghost var flagged: set<string>

    ghost function Calls(): Net
      reads this
    {
      Net(asked, drafted, log, flagged)
    }

    constructor (w: World, allowStatic: bool, candidates: int, maxRepair: int)
      ensures this.w == w && Calls() == NO_CALLS && settings.candidates >= 1
      ensures settings == Settings(allowStatic, if candidates > 1 then candidates else 1, if maxRepair > 0 then maxRepair else 0)
    {
      this.w := w;
      settings := Settings(allowStatic, if candidates > 1 then candidates else 1, if maxRepair > 0 then maxRepair else 0);
      asked, drafted, log, flagged := 0, 0, [], {};
    }

    /** At most two questions; gives up at once on a failed call. */
    method GenerateTestSpec() returns (tests: Option<string>)
      modifies this`asked
      ensures (Calls(), tests) == AskForTests(w, old(Calls()))
    {
      hide BlockChoice.Extract, Contains;
      for attempt := 0 to 2
        invariant asked == old(asked) + attempt
        invariant attempt > 0 ==> w.generalist(old(asked)).Wrote? && SpecIn(w, w.generalist(old(asked))).None?
        invariant attempt > 1 ==> SpecIn(w, w.generalist(old(asked) + 1)).None?
      {
        var raw := w.generalist(asked);
        asked := asked + 1;
        if raw.Failed? { return None; }
        var spec := BlockChoice.ExtractPythonBlock(raw.text, w.parses, w.lower);
        if spec == "" || !Contains(spec, "assert") { continue; }
        if !w.nonVacuous(spec) { continue; }
        return Some(spec);
      }
      return None;
    }

    /** True when the tests also pass a deliberately broken version of the code. */
    method MutationCheck(code: string, tests: string) returns (vacuous: bool)
      modifies this`log, this`flagged
      ensures Calls() == MutantRun(w, old(Calls()), code, tests)
      ensures vacuous == MutantPasses(w, old(Calls()), code)
    {
      var mutant := w.mutate(code);
      if mutant.None? { return false; }
      var verdict := w.verifier(|log|);
      log := log + [Check(mutant.value, tests, verdict)];
      if verdict.Raised? { return false; }
      if verdict.verified { flagged := flagged + {tests}; }
      return verdict.verified;
    }

    method Draft() returns (codes: seq<string>)
      modifies this`drafted
      ensures drafted == old(drafted) + settings.candidates
      ensures codes == Drafts(w, old(drafted), settings.candidates)
    {
      hide BlockChoice.Extract;
      codes := [];
      for n := 0 to settings.candidates
        invariant drafted == old(drafted) + n
        invariant codes == Drafts(w, old(drafted), n)
      {
        var raw := w.specialist(drafted);
        drafted := drafted + 1;
        if raw.Wrote? {
          var code := BlockChoice.ExtractPythonBlock(raw.text, w.parses, w.lower);
          codes := codes + [code];
        }
      }
    }

    /** All runs are made; one that raises takes the whole loop down. */
    method VerifyAll(codes: seq<string>, tests: string) returns (results: Option<seq<Verdict>>)
      modifies this`log
      ensures Calls() == AfterRuns(w, old(Calls()), codes, tests)
      ensures
        var vs := Verdicts(w, |old(log)|, |codes|);
        results == if AllRan(vs) then Some(vs) else None
    {
      var vs: seq<Verdict> := [];
      for i := 0 to |codes|
        invariant log == old(log) + Checks(w, codes[..i], tests, |old(log)|)
        invariant vs == Verdicts(w, |old(log)|, i)
      {
        var verdict := w.verifier(|log|);
        log := log + [Check(codes[i], tests, verdict)];
        assert Checks(w, codes[..i + 1], tests, |old(log)|) == Checks(w, codes[..i], tests, |old(log)|) + [Check(codes[i], tests, verdict)];
        vs := vs + [verdict];
        assert vs == Verdicts(w, |old(log)|, i + 1);
      }
      assert codes[..|codes|] == codes;
      results := if AllRan(vs) then Some(vs) else None;
    }

    method JudgeCandidates(codes: seq<string>, vs: seq<Verdict>, tests: string) returns (accepted: Option<nat>, rewrite: bool)
      requires |codes| == |vs|
      modifies this`log, this`flagged
      ensures Judgement(Calls(), accepted, rewrite) == Judge(w, old(Calls()), codes, vs, tests)
    {
      var broken := 0;
      for i := 0 to |vs|
        invariant log == old(log) && broken <= i
        invariant forall k :: 0 <= k < i ==> !Good(vs[k])
        invariant broken == i <==> forall k :: 0 <= k < i ==> TestsBroke(vs[k])
      {
        if Good(vs[i]) {
          assert FirstGood(vs) == i;
          var vacuous := MutationCheck(codes[i], tests);
          return if vacuous then None else Some(i), vacuous;
        }
        if TestsBroke(vs[i]) { broken := broken + 1; }
      }
      return None, broken == |codes|;
    }

    method PickRepairedCandidate(codes: seq<string>, vs: seq<Verdict>, tests: string) returns (accepted: Option<nat>)
      requires |codes| == |vs|
      modifies this`log, this`flagged
      ensures (Calls(), accepted) == PickRepaired(w, old(Calls()), codes, vs, tests, 0)
    {
      for i := 0 to |vs|
        invariant asked == old(asked) && drafted == old(drafted)
        invariant PickRepaired(w, Calls(), codes, vs, tests, i) == PickRepaired(w, old(Calls()), codes, vs, tests, 0)
      {
        if Good(vs[i]) {
          var vacuous := MutationCheck(codes[i], tests);
          if vacuous { continue; }
          return Some(i);
        }
      }
      return None;
    }

    /** One plain answer, scored by the sandbox, or by the static pass when that is allowed. */
    method PlainAnswer(scored: bool) returns (r: Outcome)
      modifies this`drafted
      ensures (Calls(), r) == Plain(w, settings, old(Calls()), scored)
    {
      var raw := w.specialist(drafted);
      drafted := drafted + 1;
      if raw.Failed? { return Exception; }
      if scored {
        var ran := w.sandbox(raw.text);
        if ran.Ran? { return Result(raw.text, SANDBOX_SCORE, false, None); }
        if ran.Trapped? { return Result(raw.text, 0.0, false, None); }
        if settings.allowStatic {
          if w.looksHarmless(raw.text) { return Result(raw.text, STATIC_SCORE, false, None); }
        }
      }
      return Result(raw.text, 0.0, false, None);
    }

    method CandidateRound(tests: string) returns (done: Option<Outcome>, codes: seq<string>, vs: seq<Verdict>, rewrite: bool)
      modifies this`drafted, this`log, this`flagged
      ensures Round(Calls(), done, codes, vs, rewrite) == TryCandidates(w, settings, old(Calls()), tests)
    {
      codes := Draft();
      if codes == [] { return Some(Result("", 0.0, false, None)), [], [], false; }
      var verdicts := VerifyAll(codes, tests);
      if verdicts.None? { return Some(Exception), [], [], false; }
      vs := verdicts.value;
      var accepted;
      accepted, rewrite := JudgeCandidates(codes, vs, tests);
      done := if accepted.Some? then Some(Result(codes[accepted.value], 1.0, true, Some(tests))) else None;
    }

    method RepairRound(tests: string, codes: seq<string>, vs: seq<Verdict>)
      returns (done: Option<Outcome>, next: seq<string>, results: seq<Verdict>)
      requires codes != []
      modifies this`drafted, this`log, this`flagged
      ensures Round(Calls(), done, next, results, false) == TryRepairs(w, settings, old(Calls()), tests, codes, vs)
    {
      next := Draft();
      if next == [] { return None, codes, vs; }
      var verdicts := VerifyAll(next, tests);
      if verdicts.None? { return Some(Exception), [], []; }
      results := verdicts.value;
      var accepted := PickRepairedCandidate(next, results, tests);
      done := if accepted.Some? then Some(Result(next[accepted.value], 1.0, true, Some(tests))) else None;
    }

    method RepairLoop(tests: string, firstCodes: seq<string>, firstResults: seq<Verdict>) returns (r: Outcome)
      requires firstCodes != []
      modifies this`drafted, this`log, this`flagged
      ensures (Calls(), r) == Repair(w, settings, old(Calls()), tests, firstCodes, firstResults, settings.maxRepair)
    {
      hide TryRepairs, NoneRepairable;
      var codes, vs, round := firstCodes, firstResults, 0;
      while round < settings.maxRepair && !NoneRepairable(vs)
        invariant round <= settings.maxRepair && codes != [] && asked == old(asked)
        invariant Repair(w, settings, Calls(), tests, codes, vs, settings.maxRepair - round)
               == Repair(w, settings, old(Calls()), tests, firstCodes, firstResults, settings.maxRepair)
        decreases settings.maxRepair - round
      {
        var done;
        done, codes, vs := RepairRound(tests, codes, vs);
        if done.Some? { return done.value; }
        round := round + 1;
      }
      return Result(codes[0], 0.0, false, Some(tests));
    }

    /** One run of the verified code loop. */
    method RunCodeSpecialistVerified() returns (r: Outcome)
      modifies this
      ensures (Calls(), r) == Loop(w, settings, old(Calls()))
      ensures settings.candidates >= 1 ==> Honest(w, settings.allowStatic, Calls(), r)
    {
      hide TryCandidates, AskForTests, Repair, Honest;
      if settings.candidates >= 1 { LoopIsSound(w, settings, Calls()); }
      var spec := GenerateTestSpec();
      if spec.None? {
        r := PlainAnswer(true);
        return;
      }
      var tests, attempt, settled := spec.value, 0, false;
      var codes, vs := [], [];
      while attempt < 2 && !settled
        invariant attempt <= 2 && (attempt == 2 ==> settled)
        invariant settled ==> codes != []
        invariant (if settled then Repair(w, settings, Calls(), tests, codes, vs, settings.maxRepair)
                   else Attempts(w, settings, Calls(), tests, attempt)) == Loop(w, settings, old(Calls()))
        decreases 2 - attempt
      {
        var done, rewrite;
        done, codes, vs, rewrite := CandidateRound(tests);
        if done.Some? { return done.value; }
        if rewrite && attempt == 0 {
          spec := GenerateTestSpec();
          if spec.None? {
            r := PlainAnswer(false);
            return;
          }
          tests := spec.value;
        } else {
          settled := true;
        }
        attempt := attempt + 1;
      }
      r := RepairLoop(tests, codes, vs);
    }
  }
}
