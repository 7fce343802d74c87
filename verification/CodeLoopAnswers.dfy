/** What the code loop answers, round by round, in terms of what the models, the sandbox and the tests said. */
module CodeLoopAnswers {
  import opened Sequences
  import opened CodeLoopWorld
  import opened CodeLoopSpec
  import BlockChoice

  // ------------------------------------------------- the tests

  lemma {:induction false} ContainsIff(s: string, part: string)
    ensures Contains(s, part) <==> exists before, after :: s == before + part + after
  {
    if part <= s {
      assert s == [] + part + s[|part|..];
    } else if s != "" {
      ContainsIff(s[1..], part);
      if before, after :| s[1..] == before + part + after {
        assert s == ([s[0]] + before) + part + after;
      }
      if before, after :| s == before + part + after {
        assert before == [] ==> s == part + after;
        assert s[1..] == before[1..] + part + after;
      }
    }
  }

  /** A test spec that an answer of the generalist yields: its code block, if that has an assert that says something. */
  ghost predicate Yields(w: World, k: nat, tests: string) {
    && w.generalist(k).Wrote? && tests == BlockChoice.Extract(w.generalist(k).text, w.parses, w.lower)
    && tests != "" && (exists before, after :: tests == before + "assert" + after) && w.nonVacuous(tests)
  }

  ghost predicate YieldsNothing(w: World, k: nat) { forall tests :: !Yields(w, k, tests) }

  lemma SpecInIff(w: World, k: nat)
    ensures forall tests :: SpecIn(w, w.generalist(k)) == Some(tests) <==> Yields(w, k, tests)
    ensures SpecIn(w, w.generalist(k)).None? <==> YieldsNothing(w, k)
  {
    hide BlockChoice.Extract, Contains;
    if w.generalist(k).Wrote? {
      var tests := BlockChoice.Extract(w.generalist(k).text, w.parses, w.lower);
      ContainsIff(tests, "assert");
      assert SpecIn(w, w.generalist(k)) == Some(tests) <==> Yields(w, k, tests);
    }
  }

  /** The first answer counts if it yields a spec; else the second, unless the first call failed altogether. */
  lemma AskForTestsIff(w: World, n: Net)
    ensures forall tests :: AskForTests(w, n).1 == Some(tests) <==>
      Yields(w, n.asked, tests) || (w.generalist(n.asked).Wrote? && YieldsNothing(w, n.asked) && Yields(w, n.asked + 1, tests))
    ensures AskForTests(w, n).0 == n.(asked := n.asked + if w.generalist(n.asked).Wrote? && YieldsNothing(w, n.asked) then 2 else 1)
    ensures AskForTests(w, n).1.None? <==>
      YieldsNothing(w, n.asked) && (w.generalist(n.asked).Failed? || YieldsNothing(w, n.asked + 1))
  {
    hide Yields, YieldsNothing, SpecIn;
    SpecInIff(w, n.asked);
    SpecInIff(w, n.asked + 1);
    FailedYieldsNothing(w, n.asked);
  }

  lemma FailedYieldsNothing(w: World, k: nat)
    ensures w.generalist(k).Failed? ==> YieldsNothing(w, k) && SpecIn(w, w.generalist(k)).None?
    ensures forall tests :: Yields(w, k, tests) ==> !YieldsNothing(w, k)
  {
  }

  // ------------------------------------------------- without tests

  /** When no test spec comes of the first request, the one plain answer of the specialist is returned: with 0.65 if it
      ran in the sandbox, 0.0 if it trapped there, and without a sandbox 0.2 if a static look is allowed and finds
      nothing, else 0.0. */
  lemma NoTestsAnswer(w: World, s: Settings, n: Net)
    requires YieldsNothing(w, n.asked) && (w.generalist(n.asked).Failed? || YieldsNothing(w, n.asked + 1))
    ensures
      var raw, r := w.specialist(n.drafted), Loop(w, s, n).1;
      && (raw.Failed? ==> r == Exception)
      && (raw.Wrote? && w.sandbox(raw.text).Ran? ==> r == Result(raw.text, 0.65, false, None))
      && (raw.Wrote? && w.sandbox(raw.text).Trapped? ==> r == Result(raw.text, 0.0, false, None))
      && (raw.Wrote? && w.sandbox(raw.text).Absent? ==>
            r == Result(raw.text, if s.allowStatic && w.looksHarmless(raw.text) then 0.2 else 0.0, false, None))
    ensures Loop(w, s, n).0.log == n.log && Loop(w, s, n).0.drafted == n.drafted + 1
  {
    hide AskForTests, YieldsNothing, Attempts;
    AskForTestsIff(w, n);
  }

  // ------------------------------------------------- drafting

  /** The drafts are the code blocks of the answers that came, in the order of the calls. */
  lemma {:induction false} DraftsInOrder(w: World, k: nat, a: nat, b: nat)
    ensures Drafts(w, k, a + b) == Drafts(w, k, a) + Drafts(w, k + a, b)
    ensures Drafts(w, k, 1) ==
      if w.specialist(k).Wrote? then [BlockChoice.Extract(w.specialist(k).text, w.parses, w.lower)] else []
    decreases b
  {
    hide BlockChoice.Extract;
    assert Drafts(w, k, 0) == [];
    if b > 0 {
      DraftsInOrder(w, k, a, b - 1);
      assert k + (a + b) - 1 == (k + a) + b - 1;
    } else {
      assert Drafts(w, k + a, 0) == [];
    }
  }

  // ------------------------------------------------- a round of candidates

  /** What run i of a round said, if the round begins with run at. */
  function Said(w: World, at: nat, i: nat): Verdict { w.verifier(at + i) }

  /** Candidate p is the first that its run verified. */
  ghost predicate FirstVerified(w: World, at: nat, count: nat, p: nat) {
    p < count && Good(Said(w, at, p)) && forall i: nat :: i < p ==> !Good(Said(w, at, i))
  }

  /** The mutant of code exists and passed run k. */
  predicate MutantPassed(w: World, code: string, k: nat) {
    w.mutate(code).Some? && match w.verifier(k) case Raised => false case Verdict(verified, _) => verified
  }

  ghost predicate Mentions(v: Verdict, word: string) {
    v.Verdict? && exists before, after :: v.error == before + word + after
  }

  ghost predicate NoneRaised(w: World, at: nat, count: nat) { forall i: nat :: i < count ==> Said(w, at, i).Verdict? }

  ghost predicate AllBrokeTests(w: World, at: nat, count: nat) {
    forall i: nat :: i < count ==> !Good(Said(w, at, i)) && Mentions(Said(w, at, i), "TEST_ERROR")
  }

  /** A round of candidates, one run each from run `at` on. No candidate at all: an empty unverified answer. A run that
      raises ends the loop. The first verified candidate is returned with 1.0 unless its mutant passes the next run.
      If that passes, or if every candidate broke the tests, the tests are to be rewritten. Otherwise repair follows. */
  lemma RoundDecides(w: World, s: Settings, n: Net, tests: string)
    ensures
      var r, codes, at := TryCandidates(w, s, n, tests), Drafts(w, n.drafted, s.candidates), |n.log|;
      && (codes == [] ==> r.done == Some(Result("", 0.0, false, None)))
      && (codes != [] && !NoneRaised(w, at, |codes|) ==> r.done == Some(Exception))
      && (codes != [] && NoneRaised(w, at, |codes|) ==>
            && r.codes == codes && r.vs == Verdicts(w, at, |codes|)
            && (forall p: nat :: FirstVerified(w, at, |codes|, p) ==>
                  && r.done == (if MutantPassed(w, codes[p], at + |codes|) then None else Some(Result(codes[p], 1.0, true, Some(tests))))
                  && r.rewrite == MutantPassed(w, codes[p], at + |codes|))
            && ((forall p: nat :: !FirstVerified(w, at, |codes|, p)) ==>
                  r.done.None? && r.rewrite == AllBrokeTests(w, at, |codes|)))
  {
    hide BlockChoice.Extract, TestsBroke, FirstVerified, AllBrokeTests;
    var codes, at := Drafts(w, n.drafted, s.candidates), |n.log|;
    var vs := Verdicts(w, at, |codes|);
    RunsSay(w, at, |codes|);
    FirstGoodIsFirstVerified(w, at, |codes|);
    if FirstGood(vs) == |codes| { BrokenTests(w, at, |codes|); }
  }

  lemma RunsSay(w: World, at: nat, count: nat)
    ensures forall i :: 0 <= i < count ==> Verdicts(w, at, count)[i] == Said(w, at, i)
    ensures AllRan(Verdicts(w, at, count)) <==> NoneRaised(w, at, count)
  {
    var vs := Verdicts(w, at, count);
    forall i | 0 <= i < count
      ensures vs[i] == Said(w, at, i)
    {
    }
    if AllRan(vs) {
      forall i: nat | i < count
        ensures Said(w, at, i).Verdict?
      {
        assert vs[i].Verdict?;
      }
    }
  }

  lemma FirstGoodIsFirstVerified(w: World, at: nat, count: nat)
    ensures
      var p := FirstGood(Verdicts(w, at, count));
      forall q: nat :: FirstVerified(w, at, count, q) <==> q == p && p < count
  {
    hide Good;
    var vs := Verdicts(w, at, count);
    var p := FirstGood(vs);
    RunsSay(w, at, count);
    forall q: nat
      ensures FirstVerified(w, at, count, q) <==> q == p && p < count
    {
      assert p < count ==> Good(Said(w, at, p));
      if FirstVerified(w, at, count, q) { assert Good(vs[q]); }
    }
  }

  lemma BrokenTests(w: World, at: nat, count: nat)
    requires FirstGood(Verdicts(w, at, count)) == count
    ensures (forall i :: 0 <= i < count ==> TestsBroke(Verdicts(w, at, count)[i])) <==> AllBrokeTests(w, at, count)
  {
    hide TestsBroke, Mentions, Good;
    var vs := Verdicts(w, at, count);
    RunsSay(w, at, count);
    forall i | 0 <= i < count
      ensures TestsBroke(vs[i]) <==> Mentions(Said(w, at, i), "TEST_ERROR")
      ensures !Good(Said(w, at, i))
    {
      BrokeIff(vs[i]);
      assert !Good(vs[i]);
    }
    if AllBrokeTests(w, at, count) {
      forall i | 0 <= i < count
        ensures TestsBroke(vs[i])
      {
        assert Mentions(Said(w, at, i), "TEST_ERROR");
      }
    }
  }

  lemma BrokeIff(v: Verdict)
    ensures TestsBroke(v) <==> Mentions(v, "TEST_ERROR")
    ensures Repairable(v) <==> Mentions(v, "ASSERTION_FAILED") || Mentions(v, "IMPORT_ERROR")
  {
    hide Contains;
    if v.Verdict? {
      ContainsIff(v.error, "TEST_ERROR");
      ContainsIff(v.error, "ASSERTION_FAILED");
      ContainsIff(v.error, "IMPORT_ERROR");
    }
  }

  // ------------------------------------------------- repair

  /** No verified candidate that comes before the picked one, or at all when none is picked, was passed over without
      its mutant passing the same tests. */
  lemma {:induction false} PassedOverIsVacuous(w: World, n: Net, codes: seq<string>, vs: seq<Verdict>, tests: string, i: nat, k: nat)
    requires |codes| == |vs| && i <= k < |vs| && Good(vs[k])
    requires var p := PickRepaired(w, n, codes, vs, tests, i).1; p.Some? ==> k < p.value
    ensures Vacuous(w, PickRepaired(w, n, codes, vs, tests, i).0.log, codes[k], tests)
    decreases |vs| - i
  {
    if !Good(vs[i]) {
      PassedOverIsVacuous(w, n, codes, vs, tests, i + 1, k);
    } else {
      var after := MutantRun(w, n, codes[i], tests);
      if i == k {
        assert after.log[|n.log|] == Check(w.mutate(codes[k]).value, tests, w.verifier(|n.log|));
        LogGrows(w, after, codes, vs, tests, i + 1);
      } else {
        PassedOverIsVacuous(w, after, codes, vs, tests, i + 1, k);
      }
    }
  }

  lemma {:induction false} LogGrows(w: World, n: Net, codes: seq<string>, vs: seq<Verdict>, tests: string, i: nat)
    requires |codes| == |vs| && i <= |vs|
    ensures n.log <= PickRepaired(w, n, codes, vs, tests, i).0.log
    decreases |vs| - i
  {
    if i < |vs| {
      if Good(vs[i]) && MutantPasses(w, n, codes[i]) {
        LogGrows(w, MutantRun(w, n, codes[i], tests), codes, vs, tests, i + 1);
      } else if !Good(vs[i]) {
        LogGrows(w, n, codes, vs, tests, i + 1);
      }
    }
  }

  /** A repair round, on the basis of earlier candidates: when no answer comes, that basis stays; when a run raises, the loop
      ends; else the verified candidate that is told from its mutant is returned, if there is one, and the repaired
      candidates are the next basis. */
  lemma RepairRoundDecides(w: World, s: Settings, n: Net, tests: string, codes: seq<string>, vs: seq<Verdict>)
    requires codes != []
    ensures
      var r, next, at := TryRepairs(w, s, n, tests, codes, vs), Drafts(w, n.drafted, s.candidates), |n.log|;
      && (next == [] ==> r.done.None? && r.codes == codes && r.vs == vs)
      && (next != [] && !NoneRaised(w, at, |next|) ==> r.done == Some(Exception))
      && (next != [] && NoneRaised(w, at, |next|) ==>
            && r.codes == next && r.vs == Verdicts(w, at, |next|)
            && (forall k: nat :: k < |next| && Good(Said(w, at, k)) && !Vacuous(w, r.net.log, next[k], tests) ==> r.done.Some?)
            && (r.done.Some? ==>
                  exists p: nat ::
                    && p < |next| && r.done == Some(Result(next[p], 1.0, true, Some(tests))) && Good(Said(w, at, p))
                    && forall k: nat :: k < p && Good(Said(w, at, k)) ==> Vacuous(w, r.net.log, next[k], tests)))
  {
    hide BlockChoice.Extract, Vacuous, Good;
    var r, next, at := TryRepairs(w, s, n, tests, codes, vs), Drafts(w, n.drafted, s.candidates), |n.log|;
    RunsSay(w, at, |next|);
    if next != [] && NoneRaised(w, at, |next|) {
      var ran := AfterRuns(w, n.(drafted := n.drafted + s.candidates), next, tests);
      var p := PickRepaired(w, ran, next, r.vs, tests, 0).1;
      forall k: nat | k < |next| && Good(Said(w, at, k)) && (p.Some? ==> k < p.value)
        ensures Vacuous(w, r.net.log, next[k], tests)
      {
        PassedOverIsVacuous(w, ran, next, r.vs, tests, 0, k);
      }
      if p.Some? { PickedIsGood(w, ran, next, r.vs, tests, 0); }
    }
  }

  lemma {:induction false} PickedIsGood(w: World, n: Net, codes: seq<string>, vs: seq<Verdict>, tests: string, i: nat)
    requires |codes| == |vs| && i <= |vs|
    ensures var p := PickRepaired(w, n, codes, vs, tests, i).1; p.Some? ==> Good(vs[p.value])
    decreases |vs| - i
  {
    if i < |vs| {
      if !Good(vs[i]) {
        PickedIsGood(w, n, codes, vs, tests, i + 1);
      } else if MutantPasses(w, n, codes[i]) {
        PickedIsGood(w, MutantRun(w, n, codes[i], tests), codes, vs, tests, i + 1);
      }
    }
  }

  /** Repair goes on while rounds are left and some candidate failed an assertion or an import; when it stops, the first
      candidate is returned unverified. */
  lemma RepairGoesOnIff(w: World, s: Settings, n: Net, tests: string, codes: seq<string>, vs: seq<Verdict>, left: nat)
    requires codes != []
    ensures
      var again := left > 0 && exists i :: 0 <= i < |vs| && (Mentions(vs[i], "ASSERTION_FAILED") || Mentions(vs[i], "IMPORT_ERROR"));
      var r := TryRepairs(w, s, n, tests, codes, vs);
      Repair(w, s, n, tests, codes, vs, left) ==
        if !again then (n, Result(codes[0], 0.0, false, Some(tests)))
        else if r.done.Some? then (r.net, r.done.value)
        else Repair(w, s, r.net, tests, r.codes, r.vs, left - 1)
  {
    hide Repairable, TryRepairs, Mentions;
    forall i | 0 <= i < |vs|
      ensures Repairable(vs[i]) <==> Mentions(vs[i], "ASSERTION_FAILED") || Mentions(vs[i], "IMPORT_ERROR")
    {
      BrokeIff(vs[i]);
    }
  }

  /** The tests are rewritten once at most; when that yields nothing, one plain answer is returned unscored. */
  lemma RewrittenOnce(w: World, s: Settings, n: Net, tests: string)
    ensures
      var r := TryCandidates(w, s, n, tests);
      && (r.done.Some? ==> Attempts(w, s, n, tests, 0) == (r.net, r.done.value))
      && (r.done.None? && !r.rewrite ==> Attempts(w, s, n, tests, 0) == Repair(w, s, r.net, tests, r.codes, r.vs, s.maxRepair))
      && (r.done.None? && r.rewrite ==>
            && (forall again :: AskForTests(w, r.net).1 == Some(again) ==>
                  var net := AskForTests(w, r.net).0;
                  var q := TryCandidates(w, s, net, again);
                  Attempts(w, s, n, tests, 0) ==
                    if q.done.Some? then (q.net, q.done.value) else Repair(w, s, q.net, again, q.codes, q.vs, s.maxRepair))
            && (AskForTests(w, r.net).1.None? ==>
                  var net := AskForTests(w, r.net).0;
                  var raw := w.specialist(net.drafted);
                  Attempts(w, s, n, tests, 0).1 == if raw.Failed? then Exception else Result(raw.text, 0.0, false, None)))
  {
    hide TryCandidates, AskForTests, Repair;
    var r := TryCandidates(w, s, n, tests);
    if r.done.None? && r.rewrite {
      var spec := AskForTests(w, r.net);
      if spec.1.Some? { assert Attempts(w, s, n, tests, 0) == Attempts(w, s, spec.0, spec.1.value, 1); }
    }
  }

  /** The converse of soundness in the first round: the first candidate that its run verifies and whose mutant does not
      pass is the answer, with score 1.0. */
  lemma GoodCandidateIsReturned(w: World, s: Settings, n: Net, tests: string, p: nat)
    requires Yields(w, n.asked, tests)
    requires
      var codes, at := Drafts(w, n.drafted, s.candidates), |n.log|;
      NoneRaised(w, at, |codes|) && FirstVerified(w, at, |codes|, p) && !MutantPassed(w, codes[p], at + |codes|)
    ensures Loop(w, s, n).1 == Result(Drafts(w, n.drafted, s.candidates)[p], 1.0, true, Some(tests))
  {
    hide Yields, YieldsNothing, FirstVerified, NoneRaised, MutantPassed, TryCandidates, AskForTests, Attempts, Drafts;
    var asked := AskForTests(w, n);
    AskForTestsIff(w, n);
    FailedYieldsNothing(w, n.asked);
    assert asked == (n.(asked := n.asked + 1), Some(tests));
    AcceptedAtOnce(w, s, asked.0, tests, p);
  }

  lemma AcceptedAtOnce(w: World, s: Settings, n: Net, tests: string, p: nat)
    requires
      var codes, at := Drafts(w, n.drafted, s.candidates), |n.log|;
      NoneRaised(w, at, |codes|) && FirstVerified(w, at, |codes|, p) && !MutantPassed(w, codes[p], at + |codes|)
    ensures Attempts(w, s, n, tests, 0).1 == Result(Drafts(w, n.drafted, s.candidates)[p], 1.0, true, Some(tests))
  {
    RoundAccepts(w, s, n, tests, p);
    hide FirstVerified, NoneRaised, MutantPassed, TryCandidates, AskForTests, Drafts, Repair;
  }

  lemma RoundAccepts(w: World, s: Settings, n: Net, tests: string, p: nat)
    requires
      var codes, at := Drafts(w, n.drafted, s.candidates), |n.log|;
      NoneRaised(w, at, |codes|) && FirstVerified(w, at, |codes|, p) && !MutantPassed(w, codes[p], at + |codes|)
    ensures TryCandidates(w, s, n, tests).done == Some(Result(Drafts(w, n.drafted, s.candidates)[p], 1.0, true, Some(tests)))
  {
    var codes := Drafts(w, n.drafted, s.candidates);
    assert codes != [];
    hide FirstVerified, NoneRaised, MutantPassed, TryCandidates, Drafts;
    RoundDecides(w, s, n, tests);
  }
}
