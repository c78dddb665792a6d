/** The append-only audit log: one file, any number of writers. Every operation runs under the
    file lock, so operations of different writers interleave but do not overlap. */
module AuditLog {
  import opened Strings
  import opened SortedMap
  import opened Options
  import opened Json
  import opened JsonCanonical
  import opened JsonReader
  import opened AuditEvent
  import opened AuditChain
  import opened AuditTail

  const BUFFER_SIZE := 4096

  /** Where the operating system fails an append: before it starts, inside the write with part of
      the record persisted, or after the write. */
  datatype Fault = Healthy | OpenFails | WriteFails(kept: nat) | SyncFails | UnlockFails

  datatype AppendResult = Appended(event: Event) | TailRejected | StaleWriter | EventRejected | IoError

  /** What a successful append writes. */
  function Record(e: Event): string {
    Print(ToValue(e)) + "\n"
  }

  function Torn(record: string, kept: nat): string
    requires record != []
  {
    if kept < |record| then record[..kept] else record[..|record| - 1]
  }

  /** The file and the writer's last hash after an append, and what the append returns. */
  function AppendEffect(host: Host, text: string, lastHash: string, e: Event, fault: Fault)
    : (string, string, AppendResult)
  {
    if fault.OpenFails? then (text, lastHash, IoError)
    else
      match Tail(host, text)
      case None => (text, lastHash, TailRejected)
      case Some((hash, previous)) =>
        if hash != lastHash && previous != lastHash then (text, lastHash, StaleWriter)
        else
          match FinalizeEvent(host, e.(prevHash := hash))
          case None => (text, hash, EventRejected)
          case Some(f) =>
            match fault
            case WriteFails(kept) => (text + Torn(Record(f), kept), hash, IoError)
            case SyncFails => (text + Record(f), hash, IoError)
            case UnlockFails => (text + Record(f), f.hash, IoError)
            case _ => (text + Record(f), f.hash, Appended(f))
  }

  // ----- What an append does, in the terms of its record -----

  /** The event is the caller's, linked to this hash and carrying its own; the line is the print of a
      value whose eight fields are the event's under their own names. */
  ghost predicate RecordOf(host: Host, e: Event, link: string, f: Event, line: string) {
    && f == e.(prevHash := link, hash := f.hash) && HashedAs(host, f, f.hash)
    && exists v :: Named(v, f) && Lookup(v.fields, "details") == Some(e.details) && line == Print(v)
  }

  /** How far the writing of a record gets. */
  predicate Writes(text: string, link: string, f: Event, record: string, fault: Fault, after: string,
                   afterHash: string, r: AppendResult)
  {
    match fault
    case WriteFails(kept) =>
      r == IoError && afterHash == link && text <= after < text + record
      && (kept < |record| ==> |after| == |text| + kept)
    case SyncFails => r == IoError && afterHash == link && after == text + record
    case UnlockFails => r == IoError && afterHash == f.hash && after == text + record
    case _ => r == Appended(f) && afterHash == f.hash && after == text + record
  }

  /** An append, given what the tail says: refused on a tail that is no record, by a writer that has
      missed more than one record, and of an event that is not acceptable behind the tail. */
  ghost predicate Appends(host: Host, text: string, tail: Option<(string, string)>, lastHash: string, e: Event,
                          fault: Fault, after: string, afterHash: string, r: AppendResult)
  {
    if fault.OpenFails? then r == IoError && after == text && afterHash == lastHash
    else if tail.None? then r == TailRejected && after == text && afterHash == lastHash
    else if lastHash != tail.value.0 && lastHash != tail.value.1 then
      r == StaleWriter && after == text && afterHash == lastHash
    else if !Acceptable(host, e.(prevHash := tail.value.0)) then
      r == EventRejected && after == text && afterHash == tail.value.0
    else
      exists f, line ::
        RecordOf(host, e, tail.value.0, f, line)
        && Writes(text, tail.value.0, f, line + "\n", fault, after, afterHash, r)
  }

  lemma FinalizedRecord(host: Host, e: Event, link: string)
    requires FinalizeEvent(host, e.(prevHash := link)).Some?
    ensures var f := FinalizeEvent(host, e.(prevHash := link)).value;
      RecordOf(host, e, link, f, Print(ToValue(f)))
  {
    var f := FinalizeEvent(host, e.(prevHash := link)).value;
    FinalizesExactly(host, e.(prevHash := link));
    EnvelopeNamed(f);
  }

  lemma TornPart(text: string, record: string, kept: nat)
    requires record != ""
    ensures text <= text + Torn(record, kept) < text + record
    ensures kept < |record| ==> |text + Torn(record, kept)| == |text| + kept
  {
    var part := Torn(record, kept);
    assert record == part + record[|part|..];
    assert text + record == text + part + record[|part|..];
  }

  lemma AppendsSo(host: Host, text: string, lastHash: string, e: Event, fault: Fault)
    ensures var (after, afterHash, r) := AppendEffect(host, text, lastHash, e, fault);
      Appends(host, text, Tail(host, text), lastHash, e, fault, after, afterHash, r)
  {
    var t := Tail(host, text);
    if t.Some? {
      FinalizesExactly(host, e.(prevHash := t.value.0));
      if FinalizeEvent(host, e.(prevHash := t.value.0)).Some? {
        var f := FinalizeEvent(host, e.(prevHash := t.value.0)).value;
        FinalizedRecord(host, e, t.value.0);
        if fault.WriteFails? {
          TornPart(text, Record(f), fault.kept);
        }
      }
    }
  }

  /** What an append promises its caller. The second half: the record of an appended event whose
      details are not too deep is read back as that event. */
  ghost predicate Promised(host: Host, text: string, lastHash: string, e: Event, fault: Fault,
                           result: (string, string, AppendResult))
  {
    host.ReadsJson() ==>
      && (exists tail :: TailSays(host, text, tail)
            && Appends(host, text, tail, lastHash, e, fault, result.0, result.1, result.2))
      && (result.2.Appended? && Held(e.details) && !TooDeep(e.details) ==>
            exists line :: result.0 == text + line + "\n" && Stands(host, line, result.2.event))
  }

  lemma AppendPromised(host: Host, text: string, lastHash: string, e: Event, fault: Fault)
    ensures Promised(host, text, lastHash, e, fault, AppendEffect(host, text, lastHash, e, fault))
  {
    if host.ReadsJson() {
      TailSaysSo(host, text);
      AppendsSo(host, text, lastHash, e, fault);
      AppendStands(host, text, lastHash, e, fault);
    }
  }

  class LogFile {
    var text: string

    constructor ()
      ensures text == ""
    {
      text := "";
    }
  }

  class AuditLog {
    const file: LogFile
    var lastHash: string

    constructor (file: LogFile, lastHash: string)
      ensures this.file == file && this.lastHash == lastHash
    {
      this.file := file;
      this.lastHash := lastHash;
    }

    /** Opening verifies the whole file and refuses an incomplete final record. */
    static method OpenOrCreate(host: Host, file: LogFile) returns (r: Option<AuditLog>)
      ensures r.Some? <==> Accepted(host, file.text)
      ensures r.Some? ==> fresh(r.value) && r.value.file == file
      ensures r.Some? ==> r.value.lastHash == LastHash(Events(host, file.text), ZERO_HASH)
    {
      if file.text != [] && file.text[|file.text| - 1] != '\n' {
        return None;
      }
      var verified := VerifyNdjson(host, file.text);
      if verified.None? {
        return None;
      }
      var log := new AuditLog(file, verified.value);
      return Some(log);
    }

    /** `append`: link the event to the persisted tail and write it as one record. */
    method Append(host: Host, e: Event, fault: Fault) returns (r: AppendResult)
      modifies this, file
      ensures (file.text, lastHash, r) == AppendEffect(host, old(file.text), old(lastHash), e, fault)
      ensures Promised(host, old(file.text), old(lastHash), e, fault, (file.text, lastHash, r))
    {
      AppendPromised(host, file.text, lastHash, e, fault);
      if fault.OpenFails? {
        return IoError;
      }
      var openedHash := lastHash;
      var tail, _ := ReadVerifiedTail(host, file.text, BUFFER_SIZE);
      if tail.None? {
        return TailRejected;
      }
      var (persistedHash, persistedPreviousHash) := tail.value;
      if persistedHash != openedHash && persistedPreviousHash != openedHash {
        return StaleWriter;
      }
      lastHash := persistedHash;
      var finalized := FinalizeEvent(host, e.(prevHash := lastHash));
      if finalized.None? {
        return EventRejected;
      }
      var event := finalized.value;
      var line := Print(ToValue(event)) + "\n";
      if fault.WriteFails? {
        file.text := file.text + Torn(line, fault.kept);
        return IoError;
      }
      file.text := file.text + line;
      if fault.SyncFails? {
        return IoError;
      }
      lastHash := event.hash;
      return if fault.UnlockFails? then IoError else Appended(event);
    }
  }

  // ----- One append -----

  /** The event an append writes when it gets as far as writing. */
  ghost function Written(host: Host, text: string, lastHash: string, e: Event): Option<Event> {
    match Tail(host, text)
    case None => None
    case Some((hash, previous)) =>
      if hash != lastHash && previous != lastHash then None else FinalizeEvent(host, e.(prevHash := hash))
  }

  /** The JSON reader gives back the event its printed record was made of. */
  ghost predicate ReadsBack(host: Host, e: Event) {
    ReadRecord(host, Print(ToValue(e))) == Some(e)
  }

  lemma RecordShape(e: Event)
    requires IntegersOnly(e.details)
    ensures var line := Print(ToValue(e));
      OneLine(line) && !Blank(line) && line != [] && line[|line| - 1] != '\r' && '\n' !in line
    ensures Lines(Record(e)) == [Print(ToValue(e))] && Terminated(Record(e))
  {
    var line := Print(ToValue(e));
    PreimageIntegers(e);
    PrintOneLine(ToValue(e), "");
    NotBlank(line);
    LinesOfRecord(line);
  }

  /** Details with so many containers in each other that the reader refuses the record that
      wraps one more around them. */
  predicate TooDeep(details: Value) {
    Depth(details) >= 127
  }

  /** Reading refuses what printing does not: a finalized event comes back from its record exactly
      when its details are not too deep. */
  lemma ReadsBackIff(host: Host, f: Event)
    requires host.ReadsJson() && FinalizeEvent(host, f) == Some(f) && Held(f.details)
    ensures ReadsBack(host, f) <==> !TooDeep(f.details)
    ensures TooDeep(f.details) ==> host.parse(Print(ToValue(f))) == None
  {
    var v := ToValue(f);
    HashOfBytes(host, f);
    HeldIntegers(f.details);
    PreimageIntegers(f);
    EnvelopeInRange(f);
    EnvelopeDepth(f);
    if !TooDeep(f.details) {
      FailsExactlyOnNonIntegers(v);
      NormalizeCorrect(v);
      NormalEnvelope(Normalize(v).value, f);
    }
  }

  /** The record of a finalized event that is not too deep stands for it. */
  lemma RecordStands(host: Host, text: string, f: Event)
    requires host.ReadsJson() && FinalizeEvent(host, f) == Some(f) && Held(f.details) && !TooDeep(f.details)
    ensures exists line :: text + Record(f) == text + line + "\n" && Stands(host, line, f)
  {
    var line := Print(ToValue(f));
    ReadsBackIff(host, f);
    ReadExactly(host, line, f);
    assert text + Record(f) == text + line + "\n";
  }

  lemma AppendedRecord(host: Host, text: string, lastHash: string, e: Event, fault: Fault)
    requires AppendEffect(host, text, lastHash, e, fault).2.Appended?
    ensures var (after, _, r) := AppendEffect(host, text, lastHash, e, fault);
      && after == text + Record(r.event) && r.event.details == e.details
      && FinalizeEvent(host, r.event) == Some(r.event)
  {
  }

  lemma AppendStands(host: Host, text: string, lastHash: string, e: Event, fault: Fault)
    requires host.ReadsJson()
    ensures var (after, _, r) := AppendEffect(host, text, lastHash, e, fault);
      r.Appended? && Held(e.details) && !TooDeep(e.details) ==>
        exists line :: after == text + line + "\n" && Stands(host, line, r.event)
  {
    var result := AppendEffect(host, text, lastHash, e, fault);
    if result.2.Appended? && Held(e.details) && !TooDeep(e.details) {
      AppendedRecord(host, text, lastHash, e, fault);
      RecordStands(host, text, result.2.event);
    }
  }

  lemma EnvelopeInRange(e: Event)
    requires InRange(e.details)
    ensures InRange(ToValue(e))
  {
  }

  /** An append to an accepted log leaves an accepted log with the new event at its end exactly
      when the details it was given are not too deep. */
  lemma AppendVerifiesIff(host: Host, text: string, lastHash: string, e: Event)
    requires host.ReadsJson() && Accepted(host, text) && Held(e.details)
    requires Written(host, text, lastHash, e).Some?
    ensures var f := Written(host, text, lastHash, e).value;
      Verify(host, text + Record(f)) == Some(Events(host, text) + [f]) <==> !TooDeep(e.details)
  {
    var f := Written(host, text, lastHash, e).value;
    var line := Print(ToValue(f));
    var es := Events(host, text);
    HashOfBytes(host, f);
    ReadsBackIff(host, f);
    RecordShape(f);
    LinesConcat(text, Record(f));
    VerifyConcat(host, Lines(text), [line], ZERO_HASH);
    VerifySingle(host, line, LastHash(es, ZERO_HASH));
    TailEndsChain(host, text);
    assert f.prevHash == LastHash(es, ZERO_HASH);
    if Verify(host, text + Record(f)) == Some(es + [f]) {
      assert (es + [ReadRecord(host, line).value])[|es|] == (es + [f])[|es|];
    }
  }

  // ----- The record nobody can read -----

  /** A log that refuses every open and every append. */
  ghost predicate Frozen(host: Host, text: string) {
    Tail(host, text) == None && !Accepted(host, text)
  }

  /** An append with too deep details succeeds and freezes the log. */
  lemma TooDeepFreezes(host: Host, text: string, lastHash: string, e: Event)
    requires host.ReadsJson() && Accepted(host, text) && Held(e.details) && TooDeep(e.details)
    requires Written(host, text, lastHash, e).Some?
    ensures var f := Written(host, text, lastHash, e).value;
      && AppendEffect(host, text, lastHash, e, Healthy) == (text + Record(f), f.hash, Appended(f))
      && Frozen(host, text + Record(f))
  {
    var f := Written(host, text, lastHash, e).value;
    var line := Print(ToValue(f));
    HashOfBytes(host, f);
    ReadsBackIff(host, f);
    RecordShape(f);
    LinesConcat(text, Record(f));
    VerifyConcat(host, Lines(text), [line], ZERO_HASH);
    VerifySingle(host, line, LastHash(Events(host, text), ZERO_HASH));
    TailOfRecord(text, line);
  }

  lemma TailOfRecord(text: string, line: string)
    requires Terminated(text) && '\n' !in line
    ensures Terminated(text + (line + "\n")) && TailLine(text + (line + "\n")) == line
  {
    var s := text + (line + "\n");
    LineStartUnique(s, |s| - 1, |text|);
    assert s[|text|..|s| - 1] == line;
  }

  /** `{"a":{"a": ... {}}}` with `n` objects in each other. */
  function Nest(n: nat): (v: Value)
    ensures v.Obj?
  {
    if n <= 1 then Obj([]) else Obj([Entry("a", Nest(n - 1))])
  }

  lemma {:induction false} NestDepth(n: nat)
    requires n > 0
    ensures Depth(Nest(n)) == n && Held(Nest(n)) && IntegersOnly(Nest(n))
  {
    if n > 1 {
      NestDepth(n - 1);
      var fields := [Entry("a", Nest(n - 1))];
      assert fields[1..] == [] && FieldsDepth(fields) == Max(Depth(Nest(n - 1)), FieldsDepth(fields[1..]));
    }
  }

  /** The input: an event whose details are 127 or more objects in each other. Every log that takes
      events of its type takes it, and is frozen by it. */
  lemma DeepEventFreezes(host: Host, text: string, e: Event, n: nat)
    requires host.ReadsJson() && Accepted(host, text) && Tail(host, text).Some?
    requires IsHash(Tail(host, text).value.0) && e.details == Nest(n) && n >= 127
    requires host.taxonomy(e.eventType, e.details)
    ensures AppendEffect(host, text, Tail(host, text).value.0, e, Healthy).2.Appended?
    ensures Frozen(host, AppendEffect(host, text, Tail(host, text).value.0, e, Healthy).0)
  {
    NestDepth(n);
    var g := e.(prevHash := Tail(host, text).value.0);
    PreimageIntegers(g.(hash := ZERO_HASH));
    FailsExactlyOnNonIntegers(Preimage(g));
    TooDeepFreezes(host, text, Tail(host, text).value.0, e);
  }

  /** The persisted tail does not extend the writer's chain by at most one event. */
  predicate Stale(host: Host, text: string, lastHash: string) {
    match Tail(host, text)
    case None => false
    case Some((hash, previous)) => hash != lastHash && previous != lastHash
  }

  lemma StaleMeansRefused(host: Host, text: string, lastHash: string, e: Event, fault: Fault)
    ensures AppendEffect(host, text, lastHash, e, fault).2.StaleWriter?
      <==> !fault.OpenFails? && Stale(host, text, lastHash)
    ensures Stale(host, text, lastHash) ==> AppendEffect(host, text, lastHash, e, fault).0 == text
  {
  }

  lemma ChainPositions(host: Host, text: string, p: nat)
    requires Accepted(host, text) && CollisionFree(host, AllHashedBytes(Events(host, text)))
    requires p <= |Events(host, text)|
    ensures var es := Events(host, text);
      forall q :: 0 <= q <= |es| && HashAt(es, q) == HashAt(es, p) ==> q == p
  {
    var es := Events(host, text);
    VerifiedIsChain(host, Lines(text), ZERO_HASH);
    forall q | 0 <= q <= |es| && q != p
      ensures HashAt(es, q) != HashAt(es, p)
    {
      if q < p { HashesDistinct(host, es, q, p); } else { HashesDistinct(host, es, p, q); }
    }
  }

  /** The stale-writer rule is exact: a writer whose last hash stands at position `p` of the chain
      is refused as stale exactly when two or more records follow that position. */
  lemma StaleWriterExact(host: Host, text: string, p: nat)
    requires host.ReadsJson() && Accepted(host, text) && Tail(host, text).Some?
    requires p <= |Events(host, text)| && CollisionFree(host, AllHashedBytes(Events(host, text)))
    ensures Stale(host, text, HashAt(Events(host, text), p)) <==> |Events(host, text)| >= p + 2
  {
    var es := Events(host, text);
    TailEndsChain(host, text);
    ChainPositions(host, text, p);
    assert LastHash(es, ZERO_HASH) == HashAt(es, |es|);
  }
}
