/** The backward scan that verifies only the last record of a log. */
module AuditTail {
  import opened Strings
  import opened Options
  import opened Json
  import opened AuditEvent
  import opened AuditChain

  /** Where the line that contains position `end` begins. */
  function LineStart(s: string, end: nat): (t: nat)
    requires end <= |s|
    ensures t <= end
    ensures t > 0 ==> s[t - 1] == '\n'
    ensures forall i :: t <= i < end ==> s[i] != '\n'
  {
    if end == 0 || s[end - 1] == '\n' then end else LineStart(s, end - 1)
  }

  /** The text between the last two newlines, or from the file start to the only one. */
  function TailLine(file: string): string
    requires file != [] && Terminated(file)
  {
    file[LineStart(file, |file| - 1)..|file| - 1]
  }

  /** The hash and the link of the last record: a verified tail. */
  function Tail(host: Host, file: string): Option<(string, string)> {
    if file == [] then Some((ZERO_HASH, ZERO_HASH))
    else if !Terminated(file) then None
    else
      var e :- ReadRecord(host, TailLine(file));
      Some((e.hash, e.prevHash))
  }

  // ----- The scan -----

  /** `seek` and `read_exact` into the front of a buffer. */
  method ReadExact(file: string, start: nat, count: nat, buffer: array<char>)
    requires start + count <= |file| && count <= buffer.Length
    modifies buffer
    ensures buffer[..count] == file[start..start + count]
  {
    forall i | 0 <= i < count {
      buffer[i] := file[start + i];
    }
  }

  /** The last newline among the first `count` characters of a buffer. */
  method LastNewline(buffer: array<char>, count: nat) returns (position: Option<nat>)
    requires count <= buffer.Length
    ensures match position
      case None => forall i :: 0 <= i < count ==> buffer[i] != '\n'
      case Some(p) => p < count && buffer[p] == '\n' && forall i :: p < i < count ==> buffer[i] != '\n'
  {
    var i := count;
    while i > 0
      invariant 0 <= i <= count
      invariant forall j :: i <= j < count ==> buffer[j] != '\n'
    {
      i := i - 1;
      if buffer[i] == '\n' {
        return Some(i);
      }
    }
    return None;
  }

  /** The scan finds the start of the last line for every buffer size, and reads no more than
      that line and one buffer. */
  method FindTailStart(file: string, bufferSize: nat) returns (tailStart: nat, ghost bytesRead: nat)
    requires file != [] && Terminated(file) && bufferSize > 0
    ensures tailStart == LineStart(file, |file| - 1)
    ensures bytesRead <= |TailLine(file)| + bufferSize
  {
    var cursor := |file| - 1;
    tailStart := 0;
    bytesRead := 0;
    var buffer := new char[bufferSize];
    while cursor > 0
      invariant 0 <= cursor < |file|
      invariant forall i :: cursor <= i < |file| - 1 ==> file[i] != '\n'
      invariant bytesRead == |file| - 1 - cursor
      invariant tailStart == 0
      decreases cursor
    {
      var start := if cursor < bufferSize then 0 else cursor - bufferSize;
      var count := cursor - start;
      ReadExact(file, start, count, buffer);
      bytesRead := bytesRead + count;
      assert forall i :: 0 <= i < count ==> buffer[i] == buffer[..count][i] == file[start + i];
      var position := LastNewline(buffer, count);
      if position.Some? {
        tailStart := start + position.value + 1;
        assert forall i :: tailStart <= i < cursor ==> file[i] == buffer[i - start];
        LineStartUnique(file, |file| - 1, tailStart);
        return;
      }
      assert forall i :: start <= i < cursor ==> file[i] == buffer[i - start];
      cursor := start;
    }
    LineStartUnique(file, |file| - 1, 0);
  }

  lemma {:induction false} LineStartUnique(s: string, end: nat, t: nat)
    requires t <= end <= |s| && (t > 0 ==> s[t - 1] == '\n')
    requires forall i :: t <= i < end ==> s[i] != '\n'
    ensures LineStart(s, end) == t
  {
  }

  /** The line in front of the file's final newline: it begins the file or stands behind another
      newline, and holds none. */
  predicate LastLine(file: string, line: string) {
    && |file| > |line| && file[|file| - 1] == '\n' && file[|file| - 1 - |line|..|file| - 1] == line
    && '\n' !in line && (|line| + 1 == |file| || file[|file| - 2 - |line|] == '\n')
  }

  lemma TailLineIsLast(file: string)
    requires file != [] && Terminated(file)
    ensures LastLine(file, TailLine(file))
  {
    var start := LineStart(file, |file| - 1);
    assert forall i :: 0 <= i < |TailLine(file)| ==> TailLine(file)[i] == file[start + i];
  }

  /** What a tail says: zero hashes for no record; otherwise the hash and the link of the event whose
      record the last line is, and nothing if it is no record or has no newline behind it. */
  ghost predicate TailSays(host: Host, file: string, r: Option<(string, string)>) {
    if file == "" then r.Some? && SixtyFourZeros(r.value.0) && SixtyFourZeros(r.value.1)
    else if file[|file| - 1] != '\n' then r == None
    else exists line :: LastLine(file, line) && RecordSays(host, line, r)
  }

  ghost predicate RecordSays(host: Host, line: string, r: Option<(string, string)>) {
    && (r.Some? ==> exists e :: Stands(host, line, e))
    && forall e :: Stands(host, line, e) ==> r == Some((e.hash, e.prevHash))
  }

  lemma ReadSays(host: Host, line: string)
    requires host.ReadsJson()
    ensures RecordSays(host, line,
                       match ReadRecord(host, line) case None => None case Some(e) => Some((e.hash, e.prevHash)))
  {
    forall e ensures ReadRecord(host, line) == Some(e) <==> Stands(host, line, e) { ReadExactly(host, line, e); }
  }

  lemma TailSaysSo(host: Host, file: string)
    requires host.ReadsJson()
    ensures TailSays(host, file, Tail(host, file))
  {
    ZeroHashIs(ZERO_HASH);
    if file != [] && Terminated(file) {
      TailLineIsLast(file);
      ReadSays(host, TailLine(file));
    }
  }

  /** `read_verified_tail`. */
  method ReadVerifiedTail(host: Host, file: string, bufferSize: nat)
    returns (r: Option<(string, string)>, ghost bytesRead: nat)
    requires bufferSize > 0
    ensures r == Tail(host, file)
    ensures host.ReadsJson() ==> TailSays(host, file, r)
    ensures file != [] && Terminated(file) ==> bytesRead <= 1 + bufferSize + 2 * |TailLine(file)|
  {
    if host.ReadsJson() {
      TailSaysSo(host, file);
    }
    bytesRead := 0;
    if |file| == 0 {
      return Some((ZERO_HASH, ZERO_HASH)), 0;
    }
    bytesRead := 1;
    if file[|file| - 1] != '\n' {
      return None, 1;
    }
    var tailStart, scanned := FindTailStart(file, bufferSize);
    var line := file[tailStart..|file| - 1];
    bytesRead := bytesRead + scanned + |line|;
    var value := host.parse(line);
    if value.None? || !LockedEnvelope(value.value) {
      return None, bytesRead;
    }
    var event := FromValue(value.value);
    if event.None? {
      return None, bytesRead;
    }
    var finalized := FinalizeEvent(host, event.value);
    if finalized.None? || finalized.value.hash != event.value.hash {
      return None, bytesRead;
    }
    return Some((event.value.hash, event.value.prevHash)), bytesRead;
  }

  // ----- The scan agrees with whole-file verification -----

  ghost predicate Accepted(host: Host, text: string) {
    Terminated(text) && Verify(host, text).Some?
  }

  ghost function Events(host: Host, text: string): seq<Event>
    requires Verify(host, text).Some?
  {
    Verify(host, text).value
  }

  lemma LinesOfLine(line: string)
    requires '\n' !in line
    ensures Lines(line + "\n") == [StripCR(line)]
  {
    var s := line + "\n";
    assert s[..|line|] == line;
    LineEndUnique(s, |line|);
    assert s[|line| + 1..] == [];
  }

  /** A file splits into what precedes its last line and that line. */
  lemma SplitTail(file: string)
    requires file != [] && Terminated(file)
    ensures var a := file[..LineStart(file, |file| - 1)];
      Terminated(a) && Lines(file) == Lines(a) + [StripCR(TailLine(file))]
  {
    var t := LineStart(file, |file| - 1);
    var a, line := file[..t], TailLine(file);
    assert '\n' !in line;
    LinesOfLine(line);
    assert file == a + (line + "\n");
    LinesConcat(a, line + "\n");
  }

  lemma CarriageReturnIgnored(host: Host, line: string)
    requires host.ReadsJson()
    ensures ReadRecord(host, StripCR(line)) == ReadRecord(host, line)
    ensures Blank(StripCR(line)) ==> ReadRecord(host, line).None?
  {
    if line != [] && line[|line| - 1] == '\r' {
      assert line == StripCR(line) + "\r";
    }
  }

  lemma VerifySingle(host: Host, line: string, prev: string)
    ensures VerifyLines(host, [line], prev) ==
      if Blank(line) then Some([])
      else if ReadRecord(host, line).None? || ReadRecord(host, line).value.prevHash != prev then None
      else Some([ReadRecord(host, line).value])
  {
    assert [line][1..] == [];
    var e := ReadRecord(host, line);
    assert e.Some? ==> [e.value] + [] == [e.value];
  }

  /** The last line of an accepted log, when it is not blank, holds its last event. */
  lemma LastRecord(host: Host, lines: seq<string>, line: string)
    requires VerifyLines(host, lines + [line], ZERO_HASH).Some? && !Blank(line)
    ensures ReadRecord(host, line).Some?
    ensures var es, e := VerifyLines(host, lines + [line], ZERO_HASH).value, ReadRecord(host, line).value;
      LastHash(es, ZERO_HASH) == e.hash && es != [] && HashAt(es, |es| - 1) == e.prevHash
  {
    VerifyConcat(host, lines, [line], ZERO_HASH);
    VerifySingle(host, line, LastHash(VerifyLines(host, lines, ZERO_HASH).value, ZERO_HASH));
  }

  /** On an accepted log a verified tail is the end of the chain: the last hash and, before it,
      the hash it links to. It exists unless the last line is blank. */
  lemma TailEndsChain(host: Host, file: string)
    requires host.ReadsJson() && Accepted(host, file)
    ensures var es := Events(host, file);
      Tail(host, file).Some? ==>
        Tail(host, file) == Some((LastHash(es, ZERO_HASH), HashAt(es, if es == [] then 0 else |es| - 1)))
    ensures Tail(host, file).Some? <==> file == [] || !Blank(StripCR(TailLine(file)))
  {
    if file != [] {
      var line := TailLine(file);
      CarriageReturnIgnored(host, line);
      if !Blank(StripCR(line)) {
        SplitTail(file);
        LastRecord(host, Lines(file[..LineStart(file, |file| - 1)]), StripCR(line));
      }
    }
  }

  /** The backward scan refines whole-file verification: on any blank-free log that
      `verify_ndjson` accepts it succeeds with the same hash. */
  lemma TailRefinesVerify(host: Host, file: string)
    requires host.ReadsJson() && Accepted(host, file)
    requires forall i :: 0 <= i < |Lines(file)| ==> !Blank(Lines(file)[i])
    ensures Tail(host, file).Some?
    ensures Tail(host, file).value.0 == LastHash(Events(host, file), ZERO_HASH)
  {
    TailEndsChain(host, file);
    if file != [] {
      SplitTail(file);
      assert Lines(file)[|Lines(file)| - 1] == StripCR(TailLine(file));
    }
  }
}
