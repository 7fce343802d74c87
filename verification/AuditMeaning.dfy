/** What the audit log's records and error reports say: an entry carries the facts it was given, and each
    kind of error is reported for a line exactly when that line has that defect. */
module AuditMeaning {
  import opened Sequences
  import opened AuditLog
  import opened AuditIntegrity

  /** The facts that the caller gave, apart from the fields of the chain. */
  predicate SameFacts(a: Content, b: Content) {
    && a.recordId == b.recordId && a.validTime == b.validTime && a.transactionTime == b.transactionTime
    && a.jobId == b.jobId && a.event == b.event && a.status == b.status && a.payload == b.payload
    && a.correctionOf == b.correctionOf
  }

  /** One successful write after n accepted entries adds one entry with the facts of the draft, the next
      number, the hash of the entry before, its own hash, and a signature just when there is a signer. */
  lemma RecordAddsFacts(file: seq<Line>, draft: Content, hash: Content -> string, signer: Option<Signer>)
    requires Accepted(file, hash, signer)
    ensures
      var before, after := Records(file), Records(Record(file, draft, true, hash, signer));
      var n := |before|;
      && |after| == n + 1 && after[..n] == before && SameFacts(after[n].content, draft)
      && after[n].content.schemaVersion == Is(2) && after[n].content.sequenceNumber == Is(n + 1)
      && after[n].content.previousHash == (if n == 0 then Null else before[n - 1].recordHash)
      && after[n].recordHash == Is(hash(after[n].content))
      && after[n].signature == (if signer.Some? then Is(signer.value.sign(after[n].content)) else Missing)
  {
    hide Faults, Records;
    LinkOfAccepted(file, hash, signer);
    RecordsSnoc(file, Seal(Chain(draft, NextLink(file).value), hash, signer));
  }

  /** The drafts whose write succeeded. */
  function Written(calls: seq<(Content, bool)>): seq<(Content, bool)> { Filter((c: (Content, bool)) => c.1, calls) }

  /** after is before with one entry more for each of the calls, in order, with the facts of its draft. */
  ghost predicate Adds(before: seq<Entry>, after: seq<Entry>, calls: seq<(Content, bool)>) {
    && |after| == |before| + |calls| && after[..|before|] == before
    && forall k :: |before| <= k < |after| ==> SameFacts(after[k].content, calls[k - |before|].0)
  }

  lemma AddsThen(before: seq<Entry>, middle: seq<Entry>, after: seq<Entry>, c: (Content, bool), rest: seq<(Content, bool)>)
    requires Adds(before, middle, [c]) && Adds(middle, after, rest)
    ensures Adds(before, after, [c] + rest)
  {
    hide SameFacts;
    assert after[..|before|] == after[..|middle|][..|before|];
    forall k | |before| <= k < |after|
      ensures SameFacts(after[k].content, ([c] + rest)[k - |before|].0)
    {
      if k == |before| { assert after[..|middle|][k] == middle[k]; }
    }
  }

  /** Any calls on an accepted log leave its entries alone and add one for each successful write. */
  lemma {:induction false} LogKeepsFacts(file: seq<Line>, calls: seq<(Content, bool)>, hash: Content -> string, signer: Option<Signer>)
    requires Accepted(file, hash, signer) && Honest(signer)
    ensures Adds(Records(file), Records(RecordAll(file, calls, hash, signer)), Written(calls))
    decreases |calls|
  {
    hide Faults, Records, SameFacts, Record, Accepted, Honest;
    if calls != [] {
      var next := Record(file, calls[0].0, calls[0].1, hash, signer);
      RecordKeepsAccepted(file, calls[0].0, calls[0].1, hash, signer);
      LogKeepsFacts(next, calls[1..], hash, signer);
      if calls[0].1 {
        RecordAddsFacts(file, calls[0].0, hash, signer);
        assert Written(calls) == [calls[0]] + Written(calls[1..]);
        AddsThen(Records(file), Records(next), Records(RecordAll(file, calls, hash, signer)), calls[0], Written(calls[1..]));
      } else {
        NothingRecorded(file, calls[0].0, hash, signer);
        assert Written(calls) == Written(calls[1..]);
      }
    }
  }

  lemma NothingRecorded(file: seq<Line>, draft: Content, hash: Content -> string, signer: Option<Signer>)
    ensures Record(file, draft, false, hash, signer) == file
  {
  }

  /** A file whose last record has no number starts again at 1; a null number makes the next write raise. */
  lemma LinkOfLast(file: seq<Line>, last: Entry)
    ensures
      var previous := if last.recordHash.Is? then last.recordHash else Null;
      NextLink(file + [Row(last)]) ==
        if last.content.sequenceNumber.Null? then None
        else Some((if last.content.sequenceNumber.Is? then last.content.sequenceNumber.value + 1 else 1, previous))
  {
    RecordsSnoc(file, last);
  }

  // ------------------------------------------------- the error report

  /** The numbers that the entries before i had shown, not counting entries without a hash. */
  ghost predicate Seen(es: seq<Entry>, number: int, i: nat)
    requires i <= |es|
  {
    exists j :: 0 <= j < i && !es[j].recordHash.Missing? && es[j].content.sequenceNumber == Is(number)
  }

  /** The hash that entry i should link to: that of the entry before it, unless that one has a hash but no
      number; such entries are passed over. */
  function LinkBefore(es: seq<Entry>, i: nat): Option<string>
    requires i <= |es|
  {
    if i == 0 then None
    else if !es[i - 1].recordHash.Missing? && es[i - 1].content.sequenceNumber.Missing? then LinkBefore(es, i - 1)
    else if es[i - 1].recordHash.Is? then Some(es[i - 1].recordHash.value)
    else None
  }

  lemma {:induction false} ScanSees(es: seq<Entry>, i: nat)
    requires i <= |es|
    ensures ScanAfter(es[..i]).prevHash == LinkBefore(es, i)
    ensures forall number :: number in ScanAfter(es[..i]).seen <==> Seen(es, number, i)
  {
    if i > 0 {
      ScanSees(es, i - 1);
      assert es[..i][..i - 1] == es[..i - 1] && es[..i][i - 1] == es[i - 1];
      SeenNext(es, i - 1);
    }
  }

  lemma SeenNext(es: seq<Entry>, i: nat)
    requires i < |es|
    ensures forall number :: Seen(es, number, i + 1) <==>
      Seen(es, number, i) || (!es[i].recordHash.Missing? && es[i].content.sequenceNumber == Is(number))
  {
  }

  /** The entry gets past the two tests after which the loop goes on to the next one. */
  predicate Checkable(e: Entry) { !e.recordHash.Missing? && !e.content.sequenceNumber.Missing? }

  /** The defects of entry i, by what its fields say. */
  ghost predicate HasDefect(es: seq<Entry>, i: nat, f: Fault, hash: Content -> string, signer: Option<Signer>)
    requires i < |es|
  {
    var e := es[i];
    f.line == i + 1 &&
    match f
    case MalformedLine(_) => false
    case MissingRecordHash(_) => e.recordHash.Missing?
    case MissingPreviousHash(_) => !e.recordHash.Missing? && e.content.previousHash.Missing?
    case MissingSequence(_) => !e.recordHash.Missing? && e.content.sequenceNumber.Missing?
    case MissingSchema(_) => Checkable(e) && e.content.schemaVersion.Missing?
    case InvalidSchema(_) => Checkable(e) && !e.content.schemaVersion.Missing? && e.content.schemaVersion != Is(2)
    case DuplicateSequence(_) => Checkable(e) && e.content.sequenceNumber.Is? && Seen(es, e.content.sequenceNumber.value, i)
    case WrongSequence(_) => Checkable(e) && e.content.sequenceNumber.Is? && e.content.sequenceNumber.value != i + 1
    case BrokenLink(_) =>
      Checkable(e) && LinkBefore(es, i) != (if e.content.previousHash.Is? then Some(e.content.previousHash.value) else None)
    case HashMismatch(_) => Checkable(e) && e.recordHash.Is? && e.recordHash.value != hash(e.content)
    case MissingSignature(_) => Checkable(e) && signer.Some? && !e.signature.Is?
    case BadSignature(_) =>
      Checkable(e) && signer.Some? && e.signature.Is? && !signer.value.verify(e.content, e.signature.value)
  }

  lemma SchemaDefects(e: Entry, line: nat, f: Fault)
    ensures f in SchemaFaults(e, line) <==>
      || (f == MissingPreviousHash(line) && e.content.previousHash.Missing?)
      || (f == MissingSchema(line) && e.content.schemaVersion.Missing?)
      || (f == InvalidSchema(line) && !e.content.schemaVersion.Missing? && e.content.schemaVersion != Is(2))
  {
  }

  lemma ChainDefects(e: Entry, line: nat, scan: Scan, f: Fault, hash: Content -> string)
    ensures f in ChainFaults(e, line, scan, hash) <==>
      || (f == DuplicateSequence(line) && e.content.sequenceNumber.Is? && e.content.sequenceNumber.value in scan.seen)
      || (f == WrongSequence(line) && e.content.sequenceNumber.Is? && e.content.sequenceNumber.value != line)
      || (f == BrokenLink(line) && scan.prevHash != if e.content.previousHash.Is? then Some(e.content.previousHash.value) else None)
      || (f == HashMismatch(line) && e.recordHash.Is? && e.recordHash.value != hash(e.content))
  {
  }

  lemma SignatureDefects(e: Entry, line: nat, f: Fault, signer: Option<Signer>)
    ensures f in SignatureFaults(e, line, signer) <==>
      || (f == MissingSignature(line) && signer.Some? && !e.signature.Is?)
      || (f == BadSignature(line) && signer.Some? && e.signature.Is? && !signer.value.verify(e.content, e.signature.value))
  {
  }

  lemma EntryDefects(es: seq<Entry>, i: nat, f: Fault, hash: Content -> string, signer: Option<Signer>)
    requires i < |es|
    ensures f in FaultsOf(es[i], i + 1, ScanAfter(es[..i]), hash, signer) <==> HasDefect(es, i, f, hash, signer)
  {
    hide ScanAfter, LinkBefore, Seen, SchemaFaults, ChainFaults, SignatureFaults;
    ScanSees(es, i);
    SchemaDefects(es[i], i + 1, f);
    ChainDefects(es[i], i + 1, ScanAfter(es[..i]), f, hash);
    SignatureDefects(es[i], i + 1, f, signer);
  }

  /** Every error that verification reports is a defect of the entry it names, and every defect is reported. */
  lemma {:induction false} FaultsAreDefects(es: seq<Entry>, n: nat, f: Fault, hash: Content -> string, signer: Option<Signer>)
    requires n <= |es|
    ensures f in Faults(es[..n], hash, signer) <==> exists i :: 0 <= i < n && HasDefect(es, i, f, hash, signer)
  {
    hide FaultsOf, ScanAfter, HasDefect;
    if n == 0 {
      FaultsEmpty(es, hash, signer);
    } else {
      FaultsAreDefects(es, n - 1, f, hash, signer);
      FaultsNext(es, n - 1, hash, signer);
      EntryDefects(es, n - 1, f, hash, signer);
    }
  }
}
