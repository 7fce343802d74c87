/** The hash-chained audit log: writer, strict verifier and migration. The hash and the signer
    are parameters; a file is its sequence of lines. */
module AuditLog {
  import opened Sequences

  const SCHEMA_VERSION := 2

  /** A JSON field: absent, null, or a value. */
  datatype Field<+T> = Missing | Null | Is(value: T)

  /** `entry.get(field)` */
  function Value<T>(f: Field<T>): Option<T> { if f.Is? then Some(f.value) else None }

  /** Everything the hash covers, i.e. all but record_hash and signature. */
  datatype Content = Content(
    schemaVersion: Field<int>, sequenceNumber: Field<int>, previousHash: Field<string>,
    recordId: string, validTime: int, transactionTime: int, jobId: string, event: string,
    status: string, payload: string, correctionOf: Option<string>)

  datatype Entry = Entry(content: Content, recordHash: Field<string>, signature: Field<string>)

  datatype Line = Blank | Garbled | Row(entry: Entry)

  datatype Signer = Signer(sign: Content -> string, verify: (Content, string) -> bool)

  ghost predicate Injective(hash: Content -> string) {
    forall a, b :: hash(a) == hash(b) ==> a == b
  }

  ghost predicate Honest(signer: Option<Signer>) {
    signer.Some? ==> forall c :: signer.value.verify(c, signer.value.sign(c))
  }

  /** The records of a file, malformed lines skipped. */
  function Records(file: seq<Line>): seq<Entry> {
    if file == [] then []
    else Records(file[..|file| - 1]) + match file[|file| - 1] case Row(e) => [e] case _ => []
  }

  function LastEntry(file: seq<Line>): Option<Entry> {
    var es := Records(file);
    if es == [] then None else Some(es[|es| - 1])
  }

  // ------------------------------------------------- writing

  /** The chain fields of the next entry; None when the stored sequence number is null
      (`int(None)` raises). */
  function NextLink(file: seq<Line>): Option<(int, Field<string>)> {
    match LastEntry(file)
    case None => Some((1, Null))
    case Some(last) =>
      var previous := if last.recordHash.Is? then last.recordHash else Null;
      match last.content.sequenceNumber
      case Missing => Some((1, previous))
      case Null => None
      case Is(n) => Some((n + 1, previous))
  }

  function Chain(draft: Content, link: (int, Field<string>)): Content {
    draft.(schemaVersion := Is(SCHEMA_VERSION), sequenceNumber := Is(link.0), previousHash := link.1)
  }

  function Seal(c: Content, hash: Content -> string, signer: Option<Signer>): Entry {
    Entry(c, Is(hash(c)), if signer.Some? then Is(signer.value.sign(c)) else Missing)
  }

  /** The file after one `record` call; a failed write leaves nothing behind. */
  function Record(file: seq<Line>, draft: Content, written: bool, hash: Content -> string, signer: Option<Signer>): seq<Line> {
    var link := NextLink(file);
    if link.None? || !written then file else file + [Row(Seal(Chain(draft, link.value), hash, signer))]
  }

  function RecordAll(file: seq<Line>, calls: seq<(Content, bool)>, hash: Content -> string, signer: Option<Signer>): seq<Line>
    decreases |calls|
  {
    if calls == [] then file
    else RecordAll(Record(file, calls[0].0, calls[0].1, hash, signer), calls[1..], hash, signer)
  }

  // ------------------------------------------------- verifying

  datatype Fault =
    | MalformedLine(line: nat) | MissingRecordHash(line: nat) | MissingPreviousHash(line: nat)
    | MissingSequence(line: nat) | MissingSchema(line: nat) | InvalidSchema(line: nat)
    | DuplicateSequence(line: nat) | WrongSequence(line: nat) | BrokenLink(line: nat)
    | HashMismatch(line: nat) | MissingSignature(line: nat) | BadSignature(line: nat)

  /** What the loop carries from entry to entry besides the line number. */
  datatype Scan = Scan(prevHash: Option<string>, seen: set<int>)

  function Unless(ok: bool, f: Fault): seq<Fault> { if ok then [] else [f] }

  /** The faults of one entry, in reporting order. */
  function FaultsOf(e: Entry, line: nat, scan: Scan, hash: Content -> string, signer: Option<Signer>): seq<Fault> {
    if e.recordHash.Missing? then [MissingRecordHash(line)]
    else if e.content.sequenceNumber.Missing? then
      Unless(!e.content.previousHash.Missing?, MissingPreviousHash(line)) + [MissingSequence(line)]
    else SchemaFaults(e, line) + ChainFaults(e, line, scan, hash) + SignatureFaults(e, line, signer)
  }

  function SchemaFaults(e: Entry, line: nat): seq<Fault> {
    Unless(!e.content.previousHash.Missing?, MissingPreviousHash(line))
    + if e.content.schemaVersion.Missing? then [MissingSchema(line)]
      else Unless(e.content.schemaVersion == Is(SCHEMA_VERSION), InvalidSchema(line))
  }

  function ChainFaults(e: Entry, line: nat, scan: Scan, hash: Content -> string): seq<Fault> {
    var number := e.content.sequenceNumber;
    Unless(!(number.Is? && number.value in scan.seen), DuplicateSequence(line))
    + Unless(number.Is? ==> number.value == line, WrongSequence(line))
    + Unless(Value(e.content.previousHash) == scan.prevHash, BrokenLink(line))
    + Unless(e.recordHash.Is? ==> e.recordHash.value == hash(e.content), HashMismatch(line))
  }

  function SignatureFaults(e: Entry, line: nat, signer: Option<Signer>): seq<Fault> {
    if signer.None? then []
    else if !e.signature.Is? then [MissingSignature(line)]
    else Unless(signer.value.verify(e.content, e.signature.value), BadSignature(line))
  }

  function ScanNext(scan: Scan, e: Entry): Scan {
    if e.recordHash.Missing? then Scan(None, scan.seen)
    else match e.content.sequenceNumber
      case Missing => scan
      case Null => Scan(Value(e.recordHash), scan.seen)
      case Is(n) => Scan(Value(e.recordHash), scan.seen + {n})
  }

  function ScanAfter(es: seq<Entry>): Scan {
    if es == [] then Scan(None, {}) else ScanNext(ScanAfter(es[..|es| - 1]), es[|es| - 1])
  }

  /** All faults, line by line. */
  function Faults(es: seq<Entry>, hash: Content -> string, signer: Option<Signer>): seq<Fault> {
    if es == [] then []
    else
      var init := es[..|es| - 1];
      Faults(init, hash, signer) + FaultsOf(es[|es| - 1], |es|, ScanAfter(init), hash, signer)
  }

  lemma FaultsNext(es: seq<Entry>, i: nat, hash: Content -> string, signer: Option<Signer>)
    requires i < |es|
    ensures Faults(es[..i + 1], hash, signer)
         == Faults(es[..i], hash, signer) + FaultsOf(es[i], i + 1, ScanAfter(es[..i]), hash, signer)
    ensures ScanAfter(es[..i + 1]) == ScanNext(ScanAfter(es[..i]), es[i])
  {
    assert es[..i + 1][..i] == es[..i];
  }

  lemma FaultsEmpty(es: seq<Entry>, hash: Content -> string, signer: Option<Signer>)
    ensures Faults(es[..0], hash, signer) == [] && ScanAfter(es[..0]) == Scan(None, {})
    ensures es[..|es|] == es
  {
  }

  class BiTemporalAuditLog {
    const hash: Content -> string
    const signer: Option<Signer>
    var file: seq<Line>

    constructor (hash: Content -> string, signer: Option<Signer>, file: seq<Line>)
      ensures this.hash == hash && this.signer == signer && this.file == file
    {
      this.hash, this.signer, this.file := hash, signer, file;
    }

    method FindLastEntry() returns (last: Option<Entry>)
      ensures last == LastEntry(file)
    {
      last := None;
      for i := 0 to |file|
        invariant last == LastEntry(file[..i])
      {
        assert file[..i + 1][..i] == file[..i];
        if file[i].Row? { last := Some(file[i].entry); }
      }
      assert file[..|file|] == file;
    }

    /** Returns the entry it tried to write, or None when it raised. */
    method RecordEvent(draft: Content, written: bool) returns (entry: Option<Entry>)
      modifies this
      ensures file == Record(old(file), draft, written, hash, signer)
      ensures entry == if NextLink(old(file)).None? then None
                       else Some(Seal(Chain(draft, NextLink(old(file)).value), hash, signer))
    {
      var last := FindLastEntry();
      var previous, number := Null, 1;
      if last.Some? {
        if last.value.recordHash.Is? { previous := last.value.recordHash; }
        match last.value.content.sequenceNumber {
          case Missing =>
          case Null => return None;
          case Is(n) => number := n + 1;
        }
      }
      var c := draft.(schemaVersion := Is(SCHEMA_VERSION), sequenceNumber := Is(number), previousHash := previous);
      var e := Entry(c, Is(hash(c)), Missing);
      if signer.Some? { e := e.(signature := Is(signer.value.sign(c))); }
      if written { file := file + [Row(e)]; }
      return Some(e);
    }

    method VerifyChain() returns (valid: bool, errors: seq<Fault>)
      ensures valid <==> errors == []
      ensures (forall k :: 0 <= k < |file| ==> !file[k].Garbled?) ==> errors == Faults(Records(file), hash, signer)
      ensures !valid <==> ((exists k :: 0 <= k < |file| && file[k].Garbled?) || Faults(Records(file), hash, signer) != [])
    {
      var entries: seq<Entry> := [];
      for i := 0 to |file|
        invariant forall k :: 0 <= k < i ==> !file[k].Garbled?
        invariant entries == Records(file[..i])
      {
        assert file[..i + 1][..i] == file[..i];
        match file[i] {
          case Blank =>
          case Garbled => return false, [MalformedLine(i + 1)];
          case Row(e) => entries := entries + [e];
        }
      }
      assert file[..|file|] == file;
      errors := VerifyEntries(entries);
      valid := errors == [];
    }

    /** The checking loop, branch by branch. */
    method VerifyEntries(entries: seq<Entry>) returns (errors: seq<Fault>)
      ensures errors == Faults(entries, hash, signer)
    {
      hide Faults, FaultsOf, ScanAfter;
      FaultsEmpty(entries, hash, signer);
      errors := [];
      var prevHash: Option<string> := None;
      var expected := 1;
      var seen: set<int> := {};
      for i := 0 to |entries|
        invariant expected == i + 1
        invariant errors == Faults(entries[..i], hash, signer)
        invariant Scan(prevHash, seen) == ScanAfter(entries[..i])
      {
        FaultsNext(entries, i, hash, signer);
        var found := CheckEntry(entries[i], expected, prevHash, seen);
        errors := errors + found;
        expected := expected + 1;
        if entries[i].recordHash.Missing? {
          prevHash := None;
          continue;
        }
        if entries[i].content.sequenceNumber.Missing? { continue; }
        if entries[i].content.sequenceNumber.Is? { seen := seen + {entries[i].content.sequenceNumber.value}; }
        prevHash := Value(entries[i].recordHash);
      }
    }

    method CheckEntry(e: Entry, expected: nat, prevHash: Option<string>, seen: set<int>) returns (errors: seq<Fault>)
      ensures errors == FaultsOf(e, expected, Scan(prevHash, seen), hash, signer)
    {
      hide ChainFaults, SignatureFaults;
      if e.recordHash.Missing? { return [MissingRecordHash(expected)]; }
      errors := [];
      if e.content.previousHash.Missing? { errors := errors + [MissingPreviousHash(expected)]; }
      if e.content.sequenceNumber.Missing? { return errors + [MissingSequence(expected)]; }
      if e.content.schemaVersion.Missing? {
        errors := errors + [MissingSchema(expected)];
      } else if e.content.schemaVersion != Is(SCHEMA_VERSION) {
        errors := errors + [InvalidSchema(expected)];
      }
      var chain := CheckChain(e, expected, prevHash, seen);
      var signature := CheckSignature(e, expected);
      errors := errors + chain + signature;
    }

    method CheckChain(e: Entry, expected: nat, prevHash: Option<string>, seen: set<int>) returns (errors: seq<Fault>)
      ensures errors == ChainFaults(e, expected, Scan(prevHash, seen), hash)
    {
      errors := [];
      if e.content.sequenceNumber.Is? {
        if e.content.sequenceNumber.value in seen { errors := errors + [DuplicateSequence(expected)]; }
        if e.content.sequenceNumber.value != expected { errors := errors + [WrongSequence(expected)]; }
      }
      if Value(e.content.previousHash) != prevHash { errors := errors + [BrokenLink(expected)]; }
      if e.recordHash.Is? && e.recordHash.value != hash(e.content) { errors := errors + [HashMismatch(expected)]; }
    }

    method CheckSignature(e: Entry, expected: nat) returns (errors: seq<Fault>)
      ensures errors == SignatureFaults(e, expected, signer)
    {
      errors := [];
      if signer.Some? {
        if !e.signature.Is? {
          errors := [MissingSignature(expected)];
        } else if !signer.value.verify(e.content, e.signature.value) {
          errors := [BadSignature(expected)];
        }
      }
    }
  }

  /** The migration loop over legacy rows; a row that fails to parse raises and leaves
      what was written so far. */
  method MigrateLegacyLog(rows: seq<Option<Content>>, hash: Content -> string) returns (out: seq<Line>, written: nat)
    ensures written <= |rows| && (forall k :: 0 <= k < written ==> rows[k].Some?)
    ensures written < |rows| ==> rows[written].None?
    ensures out == RecordAll([], Calls(rows[..written]), hash, None)
  {
    out, written := [], 0;
    var previous: Field<string> := Null;
    var number := 1;
    hide RecordAll, Record, NextLink, Calls;
    NothingMigrated(hash);
    assert rows[..0] == [];
    while written < |rows| && rows[written].Some?
      invariant written <= |rows| && forall k :: 0 <= k < written ==> rows[k].Some?
      invariant out == RecordAll([], Calls(rows[..written]), hash, None)
      invariant NextLink(out) == Some((number, previous))
    {
      var c := rows[written].value.(schemaVersion := Is(SCHEMA_VERSION), sequenceNumber := Is(number), previousHash := previous);
      var e := Entry(c, Is(hash(c)), Missing);
      CallsNext(rows, written);
      RecordAllSnoc([], Calls(rows[..written]), (rows[written].value, true), hash, None);
      RowAppended(out, rows[written].value, (number, previous), hash);
      out := out + [Row(e)];
      previous := e.recordHash;
      number := number + 1;
      written := written + 1;
    }
  }

  /** Rows as successful `record` calls. */
  function Calls(rows: seq<Option<Content>>): (calls: seq<(Content, bool)>)
    ensures |calls| == |rows|
  {
    if rows == [] then []
    else Calls(rows[..|rows| - 1]) + [(if rows[|rows| - 1].Some? then rows[|rows| - 1].value else NO_CONTENT, true)]
  }

  lemma CallsNext(rows: seq<Option<Content>>, i: nat)
    requires i < |rows| && rows[i].Some?
    ensures Calls(rows[..i + 1]) == Calls(rows[..i]) + [(rows[i].value, true)]
  {
    assert rows[..i + 1][..i] == rows[..i];
  }

  lemma NothingMigrated(hash: Content -> string)
    ensures RecordAll([], Calls([]), hash, None) == [] && NextLink([]) == Some((1, Null))
  {
  }

  lemma RowAppended(file: seq<Line>, draft: Content, link: (int, Field<string>), hash: Content -> string)
    requires NextLink(file) == Some(link)
    ensures
      var e := Seal(Chain(draft, link), hash, None);
      Record(file, draft, true, hash, None) == file + [Row(e)]
      && NextLink(file + [Row(e)]) == Some((link.0 + 1, e.recordHash))
  {
    var e := Seal(Chain(draft, link), hash, None);
    assert (file + [Row(e)])[..|file|] == file;
  }

  const NO_CONTENT := Content(Missing, Missing, Missing, "", 0, 0, "", "", "", "", None)

  lemma {:induction false} RecordAllSnoc(file: seq<Line>, calls: seq<(Content, bool)>, c: (Content, bool),
                                         hash: Content -> string, signer: Option<Signer>)
    ensures RecordAll(file, calls + [c], hash, signer)
         == Record(RecordAll(file, calls, hash, signer), c.0, c.1, hash, signer)
    decreases |calls|
  {
    if calls == [] {
      assert ([] + [c])[1..] == [];
    } else {
      assert (calls + [c])[1..] == calls[1..] + [c];
      RecordAllSnoc(Record(file, calls[0].0, calls[0].1, hash, signer), calls[1..], c, hash, signer);
    }
  }
}
