/** What the chain proves: recording and verifying agree, and an accepted log cannot be
    changed without showing. */
module AuditIntegrity {
  import opened Sequences
  import opened AuditLog

  /** One entry, judged against the entry before it. */
  ghost predicate SoundAt(es: seq<Entry>, i: nat, hash: Content -> string, signer: Option<Signer>)
    requires i < |es|
  {
    var e := es[i];
    && !e.recordHash.Missing? && !e.content.previousHash.Missing? && !e.content.sequenceNumber.Missing?
    && e.content.schemaVersion == Is(SCHEMA_VERSION)
    && (e.content.sequenceNumber.Is? ==> e.content.sequenceNumber.value == i + 1)
    && Value(e.content.previousHash) == (if i == 0 then None else Value(es[i - 1].recordHash))
    && (e.recordHash.Is? ==> e.recordHash.value == hash(e.content))
    && (signer.Some? ==> e.signature.Is? && signer.value.verify(e.content, e.signature.value))
  }

  ghost predicate Sound(es: seq<Entry>, hash: Content -> string, signer: Option<Signer>) {
    forall i :: 0 <= i < |es| ==> SoundAt(es, i, hash, signer)
  }

  ghost predicate SeenInRange(seen: set<int>, n: nat) {
    forall x :: x in seen ==> 1 <= x <= n
  }

  lemma {:induction false} SoundScan(es: seq<Entry>, hash: Content -> string, signer: Option<Signer>)
    requires Sound(es, hash, signer)
    ensures ScanAfter(es).prevHash == if es == [] then None else Value(es[|es| - 1].recordHash)
    ensures SeenInRange(ScanAfter(es).seen, |es|)
    decreases |es|
  {
    if es != [] {
      SoundPrefix(es, |es| - 1, hash, signer);
      SoundScan(es[..|es| - 1], hash, signer);
      assert SoundAt(es, |es| - 1, hash, signer);
    }
  }

  lemma SoundPrefix(es: seq<Entry>, n: nat, hash: Content -> string, signer: Option<Signer>)
    requires Sound(es, hash, signer) && n <= |es|
    ensures Sound(es[..n], hash, signer)
  {
    forall i | 0 <= i < n
      ensures SoundAt(es[..n], i, hash, signer)
    {
      assert SoundAt(es, i, hash, signer);
    }
  }

  lemma LastSound(es: seq<Entry>, hash: Content -> string, signer: Option<Signer>)
    requires es != [] && Sound(es[..|es| - 1], hash, signer)
    ensures FaultsOf(es[|es| - 1], |es|, ScanAfter(es[..|es| - 1]), hash, signer) == []
      <==> SoundAt(es, |es| - 1, hash, signer)
  {
    var init := es[..|es| - 1];
    SoundScan(init, hash, signer);
    if init != [] { assert init[|init| - 1] == es[|es| - 2]; }
  }

  /** Strict verification reports nothing if and only if every entry has the schema, its line
      number, the hash of the entry before it, its own hash and a valid signature. */
  lemma {:induction false} NoFaultsIffSound(es: seq<Entry>, hash: Content -> string, signer: Option<Signer>)
    ensures Faults(es, hash, signer) == [] <==> Sound(es, hash, signer)
    decreases |es|
  {
    if es != [] {
      NoFaultsIffSound(es[..|es| - 1], hash, signer);
      NoFaultsLast(es, hash, signer);
      SoundLast(es, hash, signer);
      hide Faults, FaultsOf, ScanAfter, Sound, SoundAt;
      if Sound(es[..|es| - 1], hash, signer) { LastSound(es, hash, signer); }
    } else {
      assert Faults([], hash, signer) == [];
    }
  }

  lemma NoFaultsLast(es: seq<Entry>, hash: Content -> string, signer: Option<Signer>)
    requires es != []
    ensures
      var init := es[..|es| - 1];
      Faults(es, hash, signer) == [] <==>
        Faults(init, hash, signer) == [] && FaultsOf(es[|es| - 1], |es|, ScanAfter(init), hash, signer) == []
  {
    hide FaultsOf, ScanAfter;
  }

  lemma SoundLast(es: seq<Entry>, hash: Content -> string, signer: Option<Signer>)
    requires es != []
    ensures Sound(es, hash, signer) <==> Sound(es[..|es| - 1], hash, signer) && SoundAt(es, |es| - 1, hash, signer)
  {
    if Sound(es, hash, signer) {
      SoundPrefix(es, |es| - 1, hash, signer);
    } else if Sound(es[..|es| - 1], hash, signer) && SoundAt(es, |es| - 1, hash, signer) {
      SoundSnoc(es, hash, signer);
    }
  }

  lemma SoundSnoc(es: seq<Entry>, hash: Content -> string, signer: Option<Signer>)
    requires es != [] && Sound(es[..|es| - 1], hash, signer) && SoundAt(es, |es| - 1, hash, signer)
    ensures Sound(es, hash, signer)
  {
    var init := es[..|es| - 1];
    forall i | 0 <= i < |es|
      ensures SoundAt(es, i, hash, signer)
    {
      if i < |init| { assert SoundAt(init, i, hash, signer); }
    }
  }

  /** No chain field is null. */
  ghost predicate Stamped(es: seq<Entry>) {
    forall i :: 0 <= i < |es| ==> es[i].recordHash.Is? && es[i].content.sequenceNumber.Is?
  }

  ghost predicate Intact(file: seq<Line>) { forall k :: 0 <= k < |file| ==> !file[k].Garbled? }

  /** A file that strict verification accepts and that has no null chain field. */
  ghost predicate Accepted(file: seq<Line>, hash: Content -> string, signer: Option<Signer>) {
    Intact(file) && Stamped(Records(file)) && Faults(Records(file), hash, signer) == []
  }

  lemma RecordKeepsAccepted(file: seq<Line>, draft: Content, written: bool, hash: Content -> string, signer: Option<Signer>)
    requires Accepted(file, hash, signer) && Honest(signer)
    ensures Accepted(Record(file, draft, written, hash, signer), hash, signer)
    ensures |Records(Record(file, draft, written, hash, signer))| == |Records(file)| + if written then 1 else 0
  {
    hide Faults, Records, NextLink, Chain, Seal;
    if written {
      LinkOfAccepted(file, hash, signer);
      var link := NextLink(file).value;
      var e := Seal(Chain(draft, link), hash, signer);
      LastIsStamped(file, hash, signer);
      SealedIsSound(Records(file), draft, link, hash, signer);
      SealedIsStamped(draft, link, hash, signer);
      AcceptedSnoc(file, e, hash, signer);
    }
  }

  lemma SealedIsStamped(draft: Content, link: (int, Field<string>), hash: Content -> string, signer: Option<Signer>)
    ensures Stamped([Seal(Chain(draft, link), hash, signer)])
  {
  }

  lemma LastIsStamped(file: seq<Line>, hash: Content -> string, signer: Option<Signer>)
    requires Accepted(file, hash, signer)
    ensures var es := Records(file); es != [] ==> es[|es| - 1].recordHash.Is?
  {
    hide Faults, Records;
  }

  lemma RecordsSnoc(file: seq<Line>, e: Entry)
    ensures Records(file + [Row(e)]) == Records(file) + [e]
  {
    assert (file + [Row(e)])[..|file|] == file;
  }

  lemma AcceptedSnoc(file: seq<Line>, e: Entry, hash: Content -> string, signer: Option<Signer>)
    requires Intact(file) && Stamped(Records(file)) && Stamped([e])
    requires Faults(Records(file) + [e], hash, signer) == []
    ensures Accepted(file + [Row(e)], hash, signer)
    ensures Records(file + [Row(e)]) == Records(file) + [e]
  {
    hide Faults, Records;
    RecordsSnoc(file, e);
    assert [e][0] == e;
  }

  lemma LinkOfAccepted(file: seq<Line>, hash: Content -> string, signer: Option<Signer>)
    requires Accepted(file, hash, signer)
    ensures
      var es := Records(file);
      NextLink(file) == Some((|es| + 1, if es == [] then Null else es[|es| - 1].recordHash))
  {
    hide Faults, Records;
    var es := Records(file);
    NoFaultsIffSound(es, hash, signer);
    if es != [] {
      assert SoundAt(es, |es| - 1, hash, signer);
      assert es[|es| - 1].recordHash.Is? && es[|es| - 1].content.sequenceNumber == Is(|es|);
    }
  }

  lemma SealedIsSound(es: seq<Entry>, draft: Content, link: (int, Field<string>), hash: Content -> string, signer: Option<Signer>)
    requires Faults(es, hash, signer) == [] && Honest(signer)
    requires link == (|es| + 1, if es == [] then Null else es[|es| - 1].recordHash)
    requires es != [] ==> es[|es| - 1].recordHash.Is?
    ensures Faults(es + [Seal(Chain(draft, link), hash, signer)], hash, signer) == []
  {
    hide Faults;
    var e := Seal(Chain(draft, link), hash, signer);
    NoFaultsIffSound(es, hash, signer);
    assert (es + [e])[..|es|] == es;
    assert SoundAt(es + [e], |es|, hash, signer);
    SoundSnoc(es + [e], hash, signer);
    NoFaultsIffSound(es + [e], hash, signer);
  }

  /** Any sequence of `record` calls on an empty file, some of whose writes fail, leaves a log
      that strict verification accepts, with one entry per successful write. */
  lemma {:induction false} RecordedLogVerifies(file: seq<Line>, calls: seq<(Content, bool)>,
                                               hash: Content -> string, signer: Option<Signer>)
    requires Accepted(file, hash, signer) && Honest(signer)
    ensures Accepted(RecordAll(file, calls, hash, signer), hash, signer)
    ensures |Records(RecordAll(file, calls, hash, signer))| == |Records(file)| + |Filter((c: (Content, bool)) => c.1, calls)|
    decreases |calls|
  {
    if calls != [] {
      RecordKeepsAccepted(file, calls[0].0, calls[0].1, hash, signer);
      RecordedLogVerifies(Record(file, calls[0].0, calls[0].1, hash, signer), calls[1..], hash, signer);
    }
  }

  lemma EmptyLogVerifies(hash: Content -> string, signer: Option<Signer>, calls: seq<(Content, bool)>)
    requires Honest(signer)
    ensures Accepted(RecordAll([], calls, hash, signer), hash, signer)
  {
    RecordedLogVerifies([], calls, hash, signer);
  }

  /** Every earlier state of an accepted log is accepted too: the chain cannot see truncation. */
  lemma PrefixVerifies(es: seq<Entry>, n: nat, hash: Content -> string, signer: Option<Signer>)
    requires Faults(es, hash, signer) == [] && n <= |es|
    ensures Faults(es[..n], hash, signer) == []
  {
    NoFaultsIffSound(es, hash, signer);
    SoundPrefix(es, n, hash, signer);
    NoFaultsIffSound(es[..n], hash, signer);
  }

  // ------------------------------------------------- tamper evidence

  /** Equal up to the unhashed signature. */
  predicate SameRecord(a: Entry, b: Entry) { a.content == b.content && a.recordHash == b.recordHash }

  lemma SameHash(hash: Content -> string, a: Content, b: Content)
    requires Injective(hash) && hash(a) == hash(b)
    ensures a == b
  {
  }

  /** Equal last hashes make the last entries equal, and with them the hashes before. */
  lemma LastEntriesAgree(a: seq<Entry>, b: seq<Entry>, hash: Content -> string, signerA: Option<Signer>, signerB: Option<Signer>)
    requires Injective(hash) && Stamped(a) && Stamped(b) && Sound(a, hash, signerA) && Sound(b, hash, signerB)
    requires a != [] && b != [] && a[|a| - 1].recordHash == b[|b| - 1].recordHash
    ensures |a| == |b| && SameRecord(a[|a| - 1], b[|b| - 1])
    ensures |a| > 1 ==> a[|a| - 2].recordHash == b[|b| - 2].recordHash
  {
    hide Injective;
    var x, y := a[|a| - 1], b[|b| - 1];
    assert SoundAt(a, |a| - 1, hash, signerA) && SoundAt(b, |b| - 1, hash, signerB);
    SameHash(hash, x.content, y.content);
  }

  /** Two accepted logs that end in the same record_hash are the same log, entry by entry. */
  lemma {:induction false} LastHashFixesTheLog(a: seq<Entry>, b: seq<Entry>, hash: Content -> string,
                                               signerA: Option<Signer>, signerB: Option<Signer>)
    requires Injective(hash) && Stamped(a) && Stamped(b)
    requires Faults(a, hash, signerA) == [] && Faults(b, hash, signerB) == []
    requires a != [] && b != [] && a[|a| - 1].recordHash == b[|b| - 1].recordHash
    ensures |a| == |b| && forall i :: 0 <= i < |a| ==> SameRecord(a[i], b[i])
    decreases |a|
  {
    hide Injective, Faults, Sound, SameRecord;
    NoFaultsIffSound(a, hash, signerA);
    NoFaultsIffSound(b, hash, signerB);
    LastEntriesAgree(a, b, hash, signerA, signerB);
    if |a| > 1 {
      var p, q := a[..|a| - 1], b[..|b| - 1];
      PrefixVerifies(a, |p|, hash, signerA);
      PrefixVerifies(b, |q|, hash, signerB);
      LastHashFixesTheLog(p, q, hash, signerA, signerB);
      forall i | 0 <= i < |p|
        ensures SameRecord(a[i], b[i])
      {
        assert a[i] == p[i] && b[i] == q[i];
      }
    }
  }

  /** Replacing any entry but the last by one whose hashed content differs makes verification
      fail, whatever record_hash and signature the replacement carries. */
  lemma ReplacedEntryShows(es: seq<Entry>, k: nat, e: Entry, hash: Content -> string, signer: Option<Signer>)
    requires Injective(hash) && Stamped(es) && Faults(es, hash, signer) == []
    requires k + 1 < |es| && e.content != es[k].content
    ensures Faults(es[k := e], hash, signer) != []
  {
    hide Faults, SoundAt;
    NoFaultsIffSound(es, hash, signer);
    var changed := es[k := e];
    NoFaultsIffSound(changed, hash, signer);
    assert hash(e.content) != hash(es[k].content);
    assert changed[k] == e && changed[k + 1] == es[k + 1];
    LinkIsHash(es, k, hash, signer);
    if Sound(changed, hash, signer) { LinkIsHash(changed, k, hash, signer); }
  }

  /** An entry's hash is the link of the one after it, where that hash is not null. */
  lemma LinkIsHash(es: seq<Entry>, k: nat, hash: Content -> string, signer: Option<Signer>)
    requires Sound(es, hash, signer) && k + 1 < |es|
    ensures es[k].recordHash.Is? ==> Value(es[k + 1].content.previousHash) == Some(hash(es[k].content))
    ensures es[k].recordHash.Is? <==> Value(es[k + 1].content.previousHash).Some?
  {
    hide Faults;
    assert SoundAt(es, k, hash, signer) && SoundAt(es, k + 1, hash, signer);
  }

  /** Removing an entry other than the last shows as well. */
  lemma RemovedEntryShows(es: seq<Entry>, k: nat, hash: Content -> string, signer: Option<Signer>)
    requires Stamped(es) && Faults(es, hash, signer) == [] && k + 1 < |es|
    ensures Faults(es[..k] + es[k + 1..], hash, signer) != []
  {
    NoFaultsIffSound(es, hash, signer);
    var cut := es[..k] + es[k + 1..];
    NoFaultsIffSound(cut, hash, signer);
    assert SoundAt(es, k + 1, hash, signer);
    assert cut[k] == es[k + 1];
    assert !SoundAt(cut, k, hash, signer);
  }
}
