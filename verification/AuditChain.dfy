/** The hash chain of an audit log: whole-file verification, what its last hash commits to,
    and the independent check of the bundle validator. */
module AuditChain {
  import opened Strings
  import opened SortedMap
  import opened Options
  import opened Json
  import opened JsonCanonical
  import opened AuditEvent

  /** One record: a locked envelope whose event reproduces its own hash. */
  function ReadRecord(host: Host, line: string): Option<Event> {
    var v :- host.parse(line);
    if !LockedEnvelope(v) then None
    else
      var e :- FromValue(v);
      var finalized :- FinalizeEvent(host, e);
      if finalized.hash != e.hash then None else Some(e)
  }

  /** The events of the remaining lines, each linked to the hash before it. */
  function VerifyLines(host: Host, lines: seq<string>, prev: string): Option<seq<Event>> {
    if lines == [] then Some([])
    else if Blank(lines[0]) then VerifyLines(host, lines[1..], prev)
    else
      var e :- ReadRecord(host, lines[0]);
      if e.prevHash != prev then None
      else
        var rest :- VerifyLines(host, lines[1..], e.hash);
        Some([e] + rest)
  }

  function Verify(host: Host, text: string): Option<seq<Event>> {
    VerifyLines(host, Lines(text), ZERO_HASH)
  }

  function LastHash(events: seq<Event>, start: string): string {
    if events == [] then start else events[|events| - 1].hash
  }

  /** `verify_ndjson`: the last hash of a log in which every record verifies. The log is accepted
      exactly if its non-blank lines are the records of some events, linked from the zero hash. */
  method VerifyNdjson(host: Host, ndjson: string) returns (r: Option<string>)
    ensures r == match Verify(host, ndjson)
                 case None => None
                 case Some(events) => Some(LastHash(events, ZERO_HASH))
    ensures host.ReadsJson() && r.Some? ==>
      exists es :: Recorded(host, NonBlank(Lines(ndjson)), ZERO_HASH, es)
    ensures host.ReadsJson() ==>
      forall es :: Recorded(host, NonBlank(Lines(ndjson)), ZERO_HASH, es) ==> r == Some(LastHash(es, ZERO_HASH))
  {
    VerifiesRecords(host, ndjson);
    var lines := Lines(ndjson);
    var previousHash := ZERO_HASH;
    var eventCount := 0;
    ghost var seen: seq<Event> := [];
    var i := 0;
    assert lines[0..] == lines;
    AfterNothing(Verify(host, ndjson));
    while i < |lines|
      invariant 0 <= i <= |lines|
      invariant previousHash == LastHash(seen, ZERO_HASH) && eventCount == |seen|
      invariant Verify(host, ndjson) == After(seen, VerifyLines(host, lines[i..], previousHash))
    {
      var line := lines[i];
      i := i + 1;
      assert lines[i - 1..][0] == line && lines[i - 1..][1..] == lines[i..];
      if Blank(line) {
        continue;
      }
      var event := ReadRecord(host, line);
      if event.None? || event.value.prevHash != previousHash {
        return None;
      }
      AfterSnoc(seen, event.value, VerifyLines(host, lines[i..], event.value.hash));
      seen := seen + [event.value];
      previousHash := event.value.hash;
      eventCount := eventCount + 1;
    }
    assert lines[i..] == [] && seen + [] == seen;
    return Some(if eventCount == 0 then ZERO_HASH else previousHash);
  }

  ghost function After(seen: seq<Event>, rest: Option<seq<Event>>): Option<seq<Event>> {
    if rest.None? then None else Some(seen + rest.value)
  }

  lemma AfterNothing(rest: Option<seq<Event>>)
    ensures After([], rest) == rest
  {
    if rest.Some? {
      assert [] + rest.value == rest.value;
    }
  }

  lemma AfterSnoc(seen: seq<Event>, e: Event, rest: Option<seq<Event>>)
    ensures After(seen + [e], rest) == After(seen, After([e], rest))
  {
    if rest.Some? {
      assert seen + [e] + rest.value == seen + ([e] + rest.value);
    }
  }

  // ----- Chains -----

  /** The hash at a position of the chain; position 0 is its start, the zero hash. */
  function HashAt(events: seq<Event>, p: nat, start: string := ZERO_HASH): string
    requires p <= |events|
  {
    if p == 0 then start else events[p - 1].hash
  }

  /** Each event reproduces its hash and points at the hash before it. */
  ghost predicate Chain(host: Host, events: seq<Event>, start: string) {
    forall i :: 0 <= i < |events| ==>
      FinalizeEvent(host, events[i]) == Some(events[i]) && events[i].prevHash == HashAt(events, i, start)
  }

  lemma {:induction false} VerifiedIsChain(host: Host, lines: seq<string>, prev: string)
    requires VerifyLines(host, lines, prev).Some?
    ensures Chain(host, VerifyLines(host, lines, prev).value, prev)
  {
    if lines != [] {
      if Blank(lines[0]) {
        VerifiedIsChain(host, lines[1..], prev);
      } else {
        var e := ReadRecord(host, lines[0]).value;
        VerifiedIsChain(host, lines[1..], e.hash);
        ChainCons(host, e, VerifyLines(host, lines[1..], e.hash).value);
      }
    }
  }

  lemma ChainCons(host: Host, e: Event, rest: seq<Event>)
    requires FinalizeEvent(host, e) == Some(e) && Chain(host, rest, e.hash)
    ensures Chain(host, [e] + rest, e.prevHash)
  {
    var es := [e] + rest;
    forall i | 0 <= i < |es|
      ensures FinalizeEvent(host, es[i]) == Some(es[i]) && es[i].prevHash == HashAt(es, i, e.prevHash)
    {
      if i > 0 {
        assert rest[i - 1].prevHash == HashAt(rest, i - 1, e.hash);
      }
    }
  }

  /** The first line of a log that is not blank. */
  lemma VerifyRecord(host: Host, lines: seq<string>, prev: string)
    requires lines != [] && !Blank(lines[0])
    ensures var e := ReadRecord(host, lines[0]);
      VerifyLines(host, lines, prev) ==
      if e.None? || e.value.prevHash != prev then None
      else After([e.value], VerifyLines(host, lines[1..], e.value.hash))
  {
  }

  lemma AfterBoth(e: Event, es: seq<Event>, rest: Option<seq<Event>>, prev: string)
    ensures After([e], After(es, rest)) == After([e] + es, rest)
    ensures LastHash([e] + es, prev) == LastHash(es, e.hash)
  {
    if rest.Some? {
      assert [e] + (es + rest.value) == [e] + es + rest.value;
    }
  }

  /** Verification goes on where it stopped. */
  lemma {:induction false} VerifyConcat(host: Host, a: seq<string>, b: seq<string>, prev: string)
    ensures var first := VerifyLines(host, a, prev);
      VerifyLines(host, a + b, prev) ==
      if first.None? then None
      else After(first.value, VerifyLines(host, b, LastHash(first.value, prev)))
  {
    if a == [] {
      assert a + b == b;
      AfterNothing(VerifyLines(host, b, prev));
    } else {
      assert (a + b)[1..] == a[1..] + b && (a + b)[0] == a[0];
      if Blank(a[0]) {
        VerifyConcat(host, a[1..], b, prev);
      } else {
        VerifyRecord(host, a, prev);
        VerifyRecord(host, a + b, prev);
        var e := ReadRecord(host, a[0]);
        if e.Some? {
          VerifyConcat(host, a[1..], b, e.value.hash);
          var tail := VerifyLines(host, a[1..], e.value.hash);
          if tail.Some? {
            AfterBoth(e.value, tail.value, VerifyLines(host, b, LastHash(tail.value, e.value.hash)), prev);
          }
        }
      }
    }
  }

  /** Every newline-terminated prefix of an accepted log is accepted, and its events are a
      prefix of the log's events. */
  lemma PrefixVerifies(host: Host, a: string, b: string)
    requires Terminated(a) && Verify(host, a + b).Some?
    ensures Verify(host, a).Some? && Verify(host, a).value <= Verify(host, a + b).value
  {
    LinesConcat(a, b);
    VerifyConcat(host, Lines(a), Lines(b), ZERO_HASH);
  }

  // ----- What the last hash commits to -----

  /** The bytes an event's hash is taken of. */
  ghost function HashedBytes(e: Event): string {
    match Canonical(Preimage(e))
    case Some(bytes) => bytes
    case None => ""
  }

  ghost function AllHashedBytes(events: seq<Event>): set<string> {
    set i | 0 <= i < |events| :: HashedBytes(events[i])
  }

  /** On these texts the hash neither collides nor hits the zero hash. */
  ghost predicate CollisionFree(host: Host, texts: set<string>) {
    && (forall x, y :: x in texts && y in texts && host.sha256Hex(x) == host.sha256Hex(y) ==> x == y)
    && (forall x :: x in texts ==> host.sha256Hex(x) != ZERO_HASH)
  }

  lemma HashOfBytes(host: Host, e: Event)
    requires FinalizeEvent(host, e) == Some(e)
    ensures e.hash == host.sha256Hex(HashedBytes(e))
    ensures IntegersOnly(Preimage(e)) && IntegersOnly(e.details)
  {
    FailsExactlyOnNonIntegers(Preimage(e));
    PreimageIntegers(e.(hash := ZERO_HASH));
  }

  /** Without a collision, equal hashes mean equal events. */
  lemma SameHashSameEvent(host: Host, a: Event, b: Event, texts: set<string>)
    requires FinalizeEvent(host, a) == Some(a) && FinalizeEvent(host, b) == Some(b)
    requires CollisionFree(host, texts) && HashedBytes(a) in texts && HashedBytes(b) in texts
    requires a.hash == b.hash
    ensures SameEvent(a, b)
  {
    HashOfBytes(host, a);
    HashOfBytes(host, b);
    FailsExactlyOnNonIntegers(Preimage(a));
    FailsExactlyOnNonIntegers(Preimage(b));
    CanonicalIsNormalForm(Preimage(a), Preimage(b));
    EnvelopeInjective(a.(hash := ZERO_HASH), b.(hash := ZERO_HASH));
  }

  lemma HashedAt(events: seq<Event>, i: nat)
    requires i < |events|
    ensures HashedBytes(events[i]) in AllHashedBytes(events)
  {
  }

  /** No event hashes to zero, and events with one hash are the same and follow one hash. */
  ghost predicate StepBack(a: seq<Event>, b: seq<Event>) {
    && (forall i :: 0 <= i < |a| ==> a[i].hash != ZERO_HASH)
    && (forall j :: 0 <= j < |b| ==> b[j].hash != ZERO_HASH)
    && (forall i, j :: 0 <= i < |a| && 0 <= j < |b| && a[i].hash == b[j].hash ==>
          SameEvent(a[i], b[j]) && HashAt(a, i) == HashAt(b, j))
  }

  lemma HashIsNotZero(host: Host, events: seq<Event>, i: nat, texts: set<string>)
    requires Chain(host, events, ZERO_HASH) && i < |events|
    requires CollisionFree(host, texts) && AllHashedBytes(events) <= texts
    ensures events[i].hash != ZERO_HASH
  {
    HashedAt(events, i);
    HashOfBytes(host, events[i]);
  }

  /** Without a collision, chains step back together. */
  lemma ChainsStepBack(host: Host, a: seq<Event>, b: seq<Event>, texts: set<string>)
    requires Chain(host, a, ZERO_HASH) && Chain(host, b, ZERO_HASH)
    requires CollisionFree(host, texts) && AllHashedBytes(a) <= texts && AllHashedBytes(b) <= texts
    ensures StepBack(a, b)
  {
    forall i | 0 <= i < |a| ensures a[i].hash != ZERO_HASH { HashIsNotZero(host, a, i, texts); }
    forall j | 0 <= j < |b| ensures b[j].hash != ZERO_HASH { HashIsNotZero(host, b, j, texts); }
    forall i, j | 0 <= i < |a| && 0 <= j < |b| && a[i].hash == b[j].hash
      ensures SameEvent(a[i], b[j]) && HashAt(a, i) == HashAt(b, j)
    {
      HashedAt(a, i);
      HashedAt(b, j);
      SameHashSameEvent(host, a[i], b[j], texts);
    }
  }

  ghost predicate SameEvents(a: seq<Event>, b: seq<Event>) {
    |a| == |b| && forall i :: 0 <= i < |a| ==> SameEvent(a[i], b[i])
  }

  /** Positions with one hash carry the same events before them, back to the zero hash. */
  lemma {:induction false} SameHistory(a: seq<Event>, b: seq<Event>, p: nat, q: nat)
    requires StepBack(a, b) && p <= |a| && q <= |b| && HashAt(a, p) == HashAt(b, q)
    ensures p == q && forall i :: 0 <= i < p ==> SameEvent(a[i], b[i])
  {
    if p > 0 && q > 0 {
      SameHistory(a, b, p - 1, q - 1);
    }
  }

  /** The last hash commits to the whole history: two logs that `verify_ndjson` accepts with the
      same hash hold the same sequence of events. The hash is collision-free on what was hashed. */
  lemma LastHashCommits(host: Host, log1: string, log2: string, texts: set<string>)
    requires Verify(host, log1).Some? && Verify(host, log2).Some?
    requires LastHash(Verify(host, log1).value, ZERO_HASH) == LastHash(Verify(host, log2).value, ZERO_HASH)
    requires AllHashedBytes(Verify(host, log1).value) <= texts
    requires AllHashedBytes(Verify(host, log2).value) <= texts
    requires CollisionFree(host, texts)
    ensures SameEvents(Verify(host, log1).value, Verify(host, log2).value)
  {
    VerifiedIsChain(host, Lines(log1), ZERO_HASH);
    VerifiedIsChain(host, Lines(log2), ZERO_HASH);
    var a, b := Verify(host, log1).value, Verify(host, log2).value;
    ChainsStepBack(host, a, b, texts);
    SameHistory(a, b, |a|, |b|);
  }

  /** All hashes of a chain, the zero hash in front included, are distinct. */
  lemma HashesDistinct(host: Host, events: seq<Event>, p: nat, q: nat)
    requires Chain(host, events, ZERO_HASH) && CollisionFree(host, AllHashedBytes(events))
    requires p < q <= |events|
    ensures HashAt(events, p) != HashAt(events, q)
  {
    ChainsStepBack(host, events, events, AllHashedBytes(events));
    if HashAt(events, p) == HashAt(events, q) {
      SameHistory(events, events, p, q);
    }
  }

  // ----- The bundle validator's chain check -----

  /** `Map::insert` on an object that may hold the key already. */
  function SetField(fields: seq<Entry<Value>>, key: string, val: Value): seq<Entry<Value>> {
    if fields == [] then [Entry(key, val)]
    else if fields[0].key == key && Lookup(fields[1..], key).None? then [Entry(key, val)] + fields[1..]
    else [fields[0]] + SetField(fields[1..], key, val)
  }

  /** The JSON value with its stored hash forced to zeros. */
  function Forced(v: Value): Value
    requires v.Obj?
  {
    Obj(SetField(v.fields, "event_hash", Str(ZERO_HASH)))
  }

  function StringOr(v: Option<string>, default: string): string {
    if v.Some? then v.value else default
  }

  /** One record of `check_audit_chain`: all keys present, the link, and the hash of the raw JSON
      value with `event_hash` forced to zeros. Yields the stored hash. */
  function CheckRecord(host: Host, line: string, prev: string): Option<string> {
    var v :- host.parse(line);
    if !v.Obj? || exists k :: k in EVENT_KEYS && Lookup(v.fields, k).None? then None
    else if StringOr(LookupString(v.fields, "prev_event_hash"), "") != prev then None
    else
      var stored := StringOr(LookupString(v.fields, "event_hash"), "");
      var canonical :- Canonical(Forced(v));
      if host.sha256Hex(canonical) != stored then None else Some(stored)
  }

  predicate CheckLines(host: Host, lines: seq<string>, prev: string) {
    if lines == [] then true
    else if Blank(lines[0]) then CheckLines(host, lines[1..], prev)
    else
      match CheckRecord(host, lines[0], prev)
      case None => false
      case Some(stored) => CheckLines(host, lines[1..], stored)
  }

  /** `check_audit_chain` on the text of `audit_log.ndjson`: passed exactly if every non-blank line
      passes behind the hash that the one before it stores. */
  method CheckAuditChain(host: Host, text: string) returns (pass: bool)
    ensures pass == CheckLines(host, Lines(text), ZERO_HASH)
    ensures host.ReadsJson() ==> (pass <==> Checked(host, NonBlank(Lines(text)), ZERO_HASH))
  {
    if host.ReadsJson() {
      CheckedExactly(host, Lines(text), ZERO_HASH);
    }
    var lines := Lines(text);
    var prev := ZERO_HASH;
    var i := 0;
    assert lines[0..] == lines;
    while i < |lines|
      invariant 0 <= i <= |lines|
      invariant CheckLines(host, lines, ZERO_HASH) == CheckLines(host, lines[i..], prev)
    {
      assert lines[i..][0] == lines[i] && lines[i..][1..] == lines[i + 1..];
      if !Blank(lines[i]) {
        var stored := CheckRecord(host, lines[i], prev);
        if stored.None? {
          return false;
        }
        prev := stored.value;
      }
      i := i + 1;
    }
    assert lines[i..] == [];
    return true;
  }

  lemma {:induction false} SetFieldMeaning(fields: seq<Entry<Value>>, key: string, val: Value)
    ensures DenoteFields(SetField(fields, key, val)) == DenoteFields(fields)[key := Denote(val)]
    decreases fields
  {
    if fields == [] {
      DenoteCons(Entry(key, val), []);
    } else {
      var m := DenoteFields(fields[1..]);
      if fields[0].key == key && Lookup(fields[1..], key).None? {
        LookupMeaning(fields[1..], key);
        DenoteCons(Entry(key, val), fields[1..]);
        UpdateFront(key, Denote(fields[0].val), Denote(val), m, key);
      } else {
        DenoteCons(fields[0], SetField(fields[1..], key, val));
        SetFieldMeaning(fields[1..], key, val);
        MoveUpdate(map[fields[0].key := Denote(fields[0].val)], m, key, Denote(val));
      }
    }
  }

  lemma {:induction false} DenoteSnoc(fields: seq<Entry<Value>>, f: Entry<Value>)
    ensures DenoteFields(fields + [f]) == DenoteFields(fields)[f.key := Denote(f.val)]
    decreases fields
  {
    if fields == [] {
      DenoteCons(f, []);
      assert fields + [f] == [f] + [];
    } else {
      DenoteSnoc(fields[1..], f);
      DenoteCons(fields[0], fields[1..] + [f]);
      assert fields + [f] == [fields[0]] + (fields[1..] + [f]);
      MoveUpdate(map[fields[0].key := Denote(fields[0].val)], DenoteFields(fields[1..]), f.key, Denote(f.val));
    }
  }

  lemma MoveUpdate(m: map<string, Meaning>, n: map<string, Meaning>, key: string, val: Meaning)
    ensures (m + n)[key := val] == m + n[key := val]
  {
  }

  /** Forcing the hash field of the envelope gives the envelope of the event to be hashed. */
  lemma ForcedHashMeaning(e: Event)
    ensures DenoteFields(Fields(e))["event_hash" := MStr(ZERO_HASH)] == DenoteFields(Fields(e.(hash := ZERO_HASH)))
  {
    EnvelopeEndsInHash(e);
    EnvelopeEndsInHash(e.(hash := ZERO_HASH));
    DenoteSnoc(Front(e), Entry("event_hash", Str(e.hash)));
    DenoteSnoc(Front(e), Entry("event_hash", Str(ZERO_HASH)));
  }

  function Front(e: Event): seq<Entry<Value>> {
    Fields(e)[..7]
  }

  lemma EnvelopeEndsInHash(e: Event)
    ensures Fields(e) == Front(e) + [Entry("event_hash", Str(e.hash))]
    ensures Front(e) == Front(e.(hash := ZERO_HASH))
  {
  }

  lemma {:induction false} SetFieldIntegers(fields: seq<Entry<Value>>, key: string, val: Value)
    requires IntegersOnly(val) && forall i :: 0 <= i < |fields| ==> IntegersOnly(fields[i].val)
    ensures IntegersOnly(Obj(SetField(fields, key, val)))
  {
    if fields != [] && !(fields[0].key == key && Lookup(fields[1..], key).None?) {
      SetFieldIntegers(fields[1..], key, val);
      assert forall i :: 0 <= i < |SetField(fields[1..], key, val)| ==>
          IntegersOnly(SetField(fields[1..], key, val)[i].val);
    }
  }

  lemma EnvelopeIntegers(v: Value, e: Event)
    requires LockedEnvelope(v) && DistinctKeys(v.fields) && FromValue(v) == Some(e)
    requires IntegersOnly(e.details)
    ensures forall i :: 0 <= i < |v.fields| ==> IntegersOnly(v.fields[i].val)
  {
    forall i | 0 <= i < |v.fields|
      ensures IntegersOnly(v.fields[i].val)
    {
      LookupAt(v.fields, i);
      var j :| 0 <= j < |EVENT_KEYS| && EVENT_KEYS[j] == v.fields[i].key;
      FromValueFields(v, j);
      PreimageIntegers(e);
    }
  }

  /** The raw JSON value with its hash forced has the bytes the typed event is hashed by. */
  lemma ForcedBytes(v: Value, e: Event)
    requires LockedEnvelope(v) && DistinctKeys(v.fields) && FromValue(v) == Some(e)
    requires IntegersOnly(e.details)
    ensures Canonical(Forced(v)) == Some(HashedBytes(e))
  {
    EnvelopeIntegers(v, e);
    SetFieldIntegers(v.fields, "event_hash", Str(ZERO_HASH));
    assert Denote(Forced(v)) == Denote(Preimage(e)) by {
      FromValueMeaning(v);
      SetFieldMeaning(v.fields, "event_hash", Str(ZERO_HASH));
      ForcedHashMeaning(e);
    }
    PreimageIntegers(e.(hash := ZERO_HASH));
    CanonicalIsNormalForm(Forced(v), Preimage(e));
    FailsExactlyOnNonIntegers(Forced(v));
  }

  lemma AllKeysPresent(v: Value)
    requires v.Obj? && FromValue(v).Some?
    ensures forall k :: k in EVENT_KEYS ==> Lookup(v.fields, k).Some?
    ensures LookupString(v.fields, "prev_event_hash") == Some(FromValue(v).value.prevHash)
    ensures LookupString(v.fields, "event_hash") == Some(FromValue(v).value.hash)
  {
    forall k | k in EVENT_KEYS ensures Lookup(v.fields, k).Some? {
      var j :| 0 <= j < |EVENT_KEYS| && EVENT_KEYS[j] == k;
      FromValueFields(v, j);
    }
  }

  /** A record the log accepts passes the validator's check of the raw JSON, with one hash. */
  lemma RecordPassesCheck(host: Host, line: string)
    requires host.ReadsJson() && ReadRecord(host, line).Some?
    ensures var e := ReadRecord(host, line).value;
      CheckRecord(host, line, e.prevHash) == Some(e.hash)
  {
    var v := host.parse(line).value;
    var e := ReadRecord(host, line).value;
    HashOfBytes(host, e);
    AllKeysPresent(v);
    ForcedBytes(v, e);
  }

  /** What the log demands of a record beyond the validator's check. */
  predicate TypedRecord(host: Host, line: string) {
    match host.parse(line)
    case None => false
    case Some(v) =>
      && LockedEnvelope(v) && FromValue(v).Some?
      && var e := FromValue(v).value;
         IsHash(e.prevHash) && e.details.Obj? && host.taxonomy(e.eventType, e.details)
  }

  lemma {:induction false} SetFieldKeepsIntegers(fields: seq<Entry<Value>>, key: string, val: Value, other: string)
    requires IntegersOnly(Obj(SetField(fields, key, val))) && other != key && Lookup(fields, other).Some?
    ensures IntegersOnly(Lookup(fields, other).value)
  {
    var s := SetField(fields, key, val);
    if fields[0].key == key && Lookup(fields[1..], key).None? {
      assert s[1..] == fields[1..];
      LookupIntegers(fields[1..], other);
    } else {
      assert s[0] == fields[0] && s[1..] == SetField(fields[1..], key, val);
      if Lookup(fields[1..], other).Some? {
        SetFieldKeepsIntegers(fields[1..], key, val, other);
      }
    }
  }

  lemma {:induction false} LookupIntegers(fields: seq<Entry<Value>>, key: string)
    requires IntegersOnly(Obj(fields)) && Lookup(fields, key).Some?
    ensures IntegersOnly(Lookup(fields, key).value)
  {
    if Lookup(fields[1..], key).Some? {
      LookupIntegers(fields[1..], key);
    }
  }

  lemma ForcedIntegers(v: Value)
    requires v.Obj? && Canonical(Forced(v)).Some? && FromValue(v).Some?
    ensures IntegersOnly(FromValue(v).value.details)
  {
    FailsExactlyOnNonIntegers(Forced(v));
    KeysDistinct();
    assert EVENT_KEYS[5] != EVENT_KEYS[7];
    SetFieldKeepsIntegers(v.fields, "event_hash", Str(ZERO_HASH), "details");
  }

  /** A typed record that passes the validator's check is a record the log accepts. */
  lemma CheckedTypedIsRead(host: Host, line: string, prev: string)
    requires host.ReadsJson() && TypedRecord(host, line) && CheckRecord(host, line, prev).Some?
    ensures ReadRecord(host, line).Some? && ReadRecord(host, line).value.prevHash == prev
  {
    var v := host.parse(line).value;
    var e := FromValue(v).value;
    AllKeysPresent(v);
    ForcedIntegers(v);
    ForcedBytes(v, e);
    HashedBytesExist(e);
  }

  lemma HashedBytesExist(e: Event)
    requires IntegersOnly(e.details)
    ensures Canonical(Preimage(e)) == Some(HashedBytes(e))
  {
    PreimageIntegers(e.(hash := ZERO_HASH));
    FailsExactlyOnNonIntegers(Preimage(e));
  }

  /** The log accepts exactly the logs the validator's check accepts whose records are typed. */
  lemma {:induction false} VerifiedIffCheckedAndTyped(host: Host, lines: seq<string>, prev: string)
    requires host.ReadsJson()
    ensures VerifyLines(host, lines, prev).Some?
      <==> CheckLines(host, lines, prev)
           && forall i :: 0 <= i < |lines| ==> Blank(lines[i]) || TypedRecord(host, lines[i])
  {
    if lines != [] {
      assert lines == [lines[0]] + lines[1..];
      if Blank(lines[0]) {
        VerifiedIffCheckedAndTyped(host, lines[1..], prev);
      } else {
        if ReadRecord(host, lines[0]).Some? {
          RecordPassesCheck(host, lines[0]);
          VerifiedIffCheckedAndTyped(host, lines[1..], ReadRecord(host, lines[0]).value.hash);
        }
        if TypedRecord(host, lines[0]) && CheckRecord(host, lines[0], prev).Some? {
          CheckedTypedIsRead(host, lines[0], prev);
        }
      }
    }
  }

  lemma {:induction false} CheckLinesPrefix(host: Host, a: seq<string>, b: seq<string>, prev: string)
    requires CheckLines(host, a + b, prev)
    ensures CheckLines(host, a, prev)
  {
    if a != [] {
      assert (a + b)[1..] == a[1..] + b;
      if Blank(a[0]) {
        CheckLinesPrefix(host, a[1..], b, prev);
      } else {
        CheckLinesPrefix(host, a[1..], b, CheckRecord(host, a[0], prev).value);
      }
    }
  }

  /** The two verifiers are ordered, and every line-prefix of a log that one of them accepts is
      accepted by the same one. */
  lemma VerifiersOrdered(host: Host, a: string, b: string)
    requires host.ReadsJson() && Terminated(a)
    ensures Verify(host, a + b).Some? ==> CheckLines(host, Lines(a + b), ZERO_HASH)
    ensures Verify(host, a + b).Some? ==> Verify(host, a).Some?
    ensures CheckLines(host, Lines(a + b), ZERO_HASH) ==> CheckLines(host, Lines(a), ZERO_HASH)
  {
    LinesConcat(a, b);
    if Verify(host, a + b).Some? {
      PrefixVerifies(host, a, b);
      VerifiedIffCheckedAndTyped(host, Lines(a + b), ZERO_HASH);
    }
    if CheckLines(host, Lines(a + b), ZERO_HASH) {
      CheckLinesPrefix(host, Lines(a), Lines(b), ZERO_HASH);
    }
  }

  // ----- What the verifiers accept, record by record -----

  /** The line is the record of this event: a document whose eight fields are the event's under their
      own names, of an acceptable event that carries its own hash. */
  ghost predicate Stands(host: Host, line: string, e: Event) {
    && host.parse(line).Some? && Named(host.parse(line).value, e)
    && Lookup(host.parse(line).value.fields, "details") == Some(e.details)
    && Acceptable(host, e) && HashedAs(host, e, e.hash)
  }

  lemma TypedIsNamed(v: Value, e: Event)
    requires LockedEnvelope(v) && FromValue(v) == Some(e)
    ensures Named(v, e) && Lookup(v.fields, "details") == Some(e.details)
  {
    assert Lookup(v.fields, "ts_utc") == Some(Str(e.tsUtc)) by { FromValueFields(v, 0); }
    assert Lookup(v.fields, "event_type") == Some(Str(e.eventType)) by { FromValueFields(v, 1); }
    assert Lookup(v.fields, "run_id") == Some(Str(e.runId)) by { FromValueFields(v, 2); }
    assert Lookup(v.fields, "vault_id") == Some(Str(e.vaultId)) by { FromValueFields(v, 3); }
    assert Lookup(v.fields, "actor") == Some(Str(ActorName(e.actor))) by { FromValueFields(v, 4); }
    assert Lookup(v.fields, "details") == Some(e.details) by { FromValueFields(v, 5); }
    assert Lookup(v.fields, "prev_event_hash") == Some(Str(e.prevHash)) by { FromValueFields(v, 6); }
    assert Lookup(v.fields, "event_hash") == Some(Str(e.hash)) by { FromValueFields(v, 7); }
  }

  lemma NamedIsTyped(v: Value, e: Event)
    requires Named(v, e) && Lookup(v.fields, "details") == Some(e.details)
    ensures FromValue(v) == Some(e)
  {
    ActorNameRead(e.actor);
  }

  lemma SameHash(host: Host, e: Event, h: string, k: string)
    requires IntegersOnly(e.details) && HashedAs(host, e, h)
    ensures HashedAs(host, e.(hash := k), h)
  {
    var n, zeros :| SixtyFourZeros(zeros) && PrintedFor(n, e.(hash := zeros)) && h == host.sha256Hex(Print(n));
    assert e.(hash := k).(hash := zeros) == e.(hash := zeros);
  }

  /** An event that carries its own hash is finalized to itself. */
  lemma FinalizesItself(host: Host, e: Event)
    ensures FinalizeEvent(host, e) == Some(e) <==> Acceptable(host, e) && HashedAs(host, e, e.hash)
  {
    FinalizesExactly(host, e);
    if Acceptable(host, e) {
      var f := FinalizeEvent(host, e).value;
      SameHash(host, f, f.hash, e.hash);
      HashedExactly(host, e, f.hash);
      HashedExactly(host, e, e.hash);
      assert f.(hash := e.hash) == e;
    }
  }

  /** The log reads a line as an event exactly if the line stands for it. */
  lemma ReadExactly(host: Host, line: string, e: Event)
    requires host.ReadsJson()
    ensures ReadRecord(host, line) == Some(e) <==> Stands(host, line, e)
  {
    FinalizesItself(host, e);
    if ReadRecord(host, line) == Some(e) {
      TypedIsNamed(host.parse(line).value, e);
      FinalizesExactly(host, e);
      assert e.(hash := e.hash) == e;
    }
    if Stands(host, line, e) {
      NamedMeans(host.parse(line).value, e);
      NamedIsTyped(host.parse(line).value, e);
    }
  }

  /** The lines that are not blank. */
  function NonBlank(lines: seq<string>): seq<string> {
    if lines == [] then []
    else (if Blank(lines[0]) then [] else [lines[0]]) + NonBlank(lines[1..])
  }

  /** Line by line the records of these events, each linked to the hash before it. */
  ghost predicate Recorded(host: Host, lines: seq<string>, prev: string, es: seq<Event>)
    decreases |lines|
  {
    if lines == [] || es == [] then lines == [] && es == []
    else
      && Stands(host, lines[0], es[0]) && es[0].prevHash == prev
      && Recorded(host, lines[1..], es[0].hash, es[1..])
  }

  lemma NonBlankFirst(lines: seq<string>)
    requires lines != []
    ensures Blank(lines[0]) ==> NonBlank(lines) == NonBlank(lines[1..])
    ensures !Blank(lines[0]) ==>
      NonBlank(lines) != [] && NonBlank(lines)[0] == lines[0] && NonBlank(lines)[1..] == NonBlank(lines[1..])
  {
  }

  /** A log is verified with these events exactly if its non-blank lines are their records. */
  lemma {:induction false} VerifiedExactly(host: Host, lines: seq<string>, prev: string, es: seq<Event>)
    requires host.ReadsJson()
    ensures VerifyLines(host, lines, prev) == Some(es) <==> Recorded(host, NonBlank(lines), prev, es)
    decreases |lines|
  {
    if lines != [] {
      NonBlankFirst(lines);
      if Blank(lines[0]) {
        VerifiedExactly(host, lines[1..], prev, es);
      } else if es != [] {
        ReadExactly(host, lines[0], es[0]);
        VerifiedExactly(host, lines[1..], es[0].hash, es[1..]);
        VerifyFirst(host, lines, prev, es);
      }
    }
  }

  lemma VerifyFirst(host: Host, lines: seq<string>, prev: string, es: seq<Event>)
    requires lines != [] && !Blank(lines[0]) && es != []
    ensures VerifyLines(host, lines, prev) == Some(es)
      <==> ReadRecord(host, lines[0]) == Some(es[0]) && es[0].prevHash == prev
           && VerifyLines(host, lines[1..], es[0].hash) == Some(es[1..])
  {
    var e := ReadRecord(host, lines[0]);
    if e.Some? && e.value.prevHash == prev {
      ConsSplits(e.value, VerifyLines(host, lines[1..], e.value.hash), es);
    }
  }

  lemma ConsSplits(e: Event, rest: Option<seq<Event>>, es: seq<Event>)
    requires es != []
    ensures (rest.Some? && [e] + rest.value == es) <==> e == es[0] && rest == Some(es[1..])
  {
    assert es == [es[0]] + es[1..];
    assert rest.Some? ==> ([e] + rest.value)[1..] == rest.value && ([e] + rest.value)[0] == e;
  }

  lemma VerifiesRecords(host: Host, ndjson: string)
    ensures host.ReadsJson() ==>
      forall es :: Recorded(host, NonBlank(Lines(ndjson)), ZERO_HASH, es) <==> Verify(host, ndjson) == Some(es)
  {
    if host.ReadsJson() {
      forall es ensures Recorded(host, NonBlank(Lines(ndjson)), ZERO_HASH, es) <==> Verify(host, ndjson) == Some(es) {
        VerifiedExactly(host, Lines(ndjson), ZERO_HASH, es);
      }
    }
  }

  /** The text of a string field; any other field, or none, counts as empty. */
  function TextAt(fields: seq<Entry<Value>>, key: string): string {
    match Lookup(fields, key)
    case Some(Str(s)) => s
    case _ => ""
  }

  /** The line passes the validator's check behind this hash and stores that one: an object with the
      eight keys, linked, whose stored hash is taken of the print, with integers only and ordered keys,
      of the same object with sixty-four zeros as its event hash. */
  ghost predicate Passes(host: Host, line: string, prev: string, stored: string) {
    && host.parse(line).Some? && host.parse(line).value.Obj?
    && var fields := host.parse(line).value.fields;
       && Lookup(fields, "ts_utc").Some? && Lookup(fields, "event_type").Some?
       && Lookup(fields, "run_id").Some? && Lookup(fields, "vault_id").Some?
       && Lookup(fields, "actor").Some? && Lookup(fields, "details").Some?
       && Lookup(fields, "prev_event_hash").Some? && Lookup(fields, "event_hash").Some?
       && TextAt(fields, "prev_event_hash") == prev && TextAt(fields, "event_hash") == stored
       && HashesTo(host, fields, stored)
  }

  /** All other fields hold integers only, and the hash is taken of the one ordered value that means
      the same but for sixty-four zeros under `event_hash`. */
  ghost predicate HashesTo(host: Host, fields: seq<Entry<Value>>, hash: string) {
    && (forall i :: 0 <= i < |fields| && fields[i].key != "event_hash" ==> IntegersOnly(fields[i].val))
    && exists n, zeros :: SixtyFourZeros(zeros) && Zeroed(fields, zeros, n) && hash == host.sha256Hex(Print(n))
  }

  ghost predicate Zeroed(fields: seq<Entry<Value>>, zeros: string, n: Value) {
    Denote(n) == MObj(DenoteFields(fields)["event_hash" := MStr(zeros)]) && IntegersOnly(n) && Ascending(n)
  }

  lemma DistinctTail(fields: seq<Entry<Value>>)
    requires DistinctKeys(fields) && fields != []
    ensures DistinctKeys(fields[1..]) && Lookup(fields[1..], fields[0].key).None?
  {
    LookupAbsent(fields[1..], fields[0].key);
  }

  /** Setting a field to a text leaves exactly the numbers of the other fields. */
  lemma {:induction false} SetFieldLeaves(fields: seq<Entry<Value>>, key: string, text: string)
    requires DistinctKeys(fields)
    ensures IntegersOnly(Obj(SetField(fields, key, Str(text))))
      <==> forall i :: 0 <= i < |fields| && fields[i].key != key ==> IntegersOnly(fields[i].val)
  {
    if fields != [] {
      DistinctTail(fields);
      var rest := SetField(fields[1..], key, Str(text));
      if fields[0].key == key {
        IntegersCons(Entry(key, Str(text)), fields[1..]);
        assert forall i :: 0 <= i < |fields[1..]| ==> fields[1..][i] == fields[i + 1];
        assert forall i :: 0 < i < |fields| ==> fields[i] == fields[1..][i - 1];
      } else {
        SetFieldLeaves(fields[1..], key, text);
        IntegersCons(fields[0], rest);
        assert forall i :: 0 <= i < |fields[1..]| ==> fields[1..][i] == fields[i + 1];
        assert forall i :: 0 < i < |fields| ==> fields[i] == fields[1..][i - 1];
      }
    }
  }

  lemma IntegersCons(f: Entry<Value>, rest: seq<Entry<Value>>)
    ensures IntegersOnly(Obj([f] + rest)) <==> IntegersOnly(f.val) && IntegersOnly(Obj(rest))
  {
    var all := [f] + rest;
    assert forall i :: 0 <= i < |rest| ==> all[i + 1] == rest[i];
    assert all[0] == f;
  }

  lemma HashesExactly(host: Host, v: Value, hash: string)
    requires v.Obj? && DistinctKeys(v.fields)
    ensures HashesTo(host, v.fields, hash)
      <==> Canonical(Forced(v)).Some? && host.sha256Hex(Canonical(Forced(v)).value) == hash
  {
    ZeroHashIs(ZERO_HASH);
    SetFieldMeaning(v.fields, "event_hash", Str(ZERO_HASH));
    SetFieldLeaves(v.fields, "event_hash", ZERO_HASH);
    NormalizeMeans(Forced(v));
    if Canonical(Forced(v)).Some? && host.sha256Hex(Canonical(Forced(v)).value) == hash {
      assert Zeroed(v.fields, ZERO_HASH, Normalize(Forced(v)).value);
    }
    if HashesTo(host, v.fields, hash) {
      var n, zeros :| SixtyFourZeros(zeros) && Zeroed(v.fields, zeros, n) && hash == host.sha256Hex(Print(n));
      ZeroHashIs(zeros);
      CanonicalBytes(Forced(v), n);
    }
  }

  /** The check takes a line exactly if it passes. */
  lemma PassesExactly(host: Host, line: string, prev: string, stored: string)
    requires host.ReadsJson()
    ensures CheckRecord(host, line, prev) == Some(stored) <==> Passes(host, line, prev, stored)
  {
    var v := host.parse(line);
    if v.Some? && v.value.Obj? {
      HashesExactly(host, v.value, stored);
      AllKeysLiteral(v.value.fields);
    }
  }

  lemma AllKeysLiteral(fields: seq<Entry<Value>>)
    ensures (forall k :: k in EVENT_KEYS ==> Lookup(fields, k).Some?)
      <==> && Lookup(fields, "ts_utc").Some? && Lookup(fields, "event_type").Some?
           && Lookup(fields, "run_id").Some? && Lookup(fields, "vault_id").Some?
           && Lookup(fields, "actor").Some? && Lookup(fields, "details").Some?
           && Lookup(fields, "prev_event_hash").Some? && Lookup(fields, "event_hash").Some?
  {
    assert EVENT_KEYS[0] == "ts_utc" && EVENT_KEYS[1] == "event_type" && EVENT_KEYS[2] == "run_id";
    assert EVENT_KEYS[3] == "vault_id" && EVENT_KEYS[4] == "actor" && EVENT_KEYS[5] == "details";
    assert EVENT_KEYS[6] == "prev_event_hash" && EVENT_KEYS[7] == "event_hash";
    assert forall i :: 0 <= i < 8 ==> EVENT_KEYS[i] in EVENT_KEYS;
  }

  /** The hash a line stores. */
  function StoredHash(host: Host, line: string): string {
    match host.parse(line)
    case Some(Obj(fields)) => TextAt(fields, "event_hash")
    case _ => ""
  }

  /** Every line passes behind the hash that the line before stores. */
  ghost predicate Checked(host: Host, lines: seq<string>, prev: string)
    decreases |lines|
  {
    lines == []
    || (Passes(host, lines[0], prev, StoredHash(host, lines[0]))
        && Checked(host, lines[1..], StoredHash(host, lines[0])))
  }

  /** The validator accepts a log exactly if its non-blank lines pass one behind the other. */
  lemma {:induction false} CheckedExactly(host: Host, lines: seq<string>, prev: string)
    requires host.ReadsJson()
    ensures CheckLines(host, lines, prev) <==> Checked(host, NonBlank(lines), prev)
    decreases |lines|
  {
    if lines != [] {
      NonBlankFirst(lines);
      if Blank(lines[0]) {
        CheckedExactly(host, lines[1..], prev);
      } else {
        StoredIsOne(host, lines[0], prev);
        CheckedExactly(host, lines[1..], StoredHash(host, lines[0]));
      }
    }
  }

  lemma StoredIsOne(host: Host, line: string, prev: string)
    requires host.ReadsJson()
    ensures CheckRecord(host, line, prev) ==
      if Passes(host, line, prev, StoredHash(host, line)) then Some(StoredHash(host, line)) else None
  {
    PassesExactly(host, line, prev, StoredHash(host, line));
    var stored := CheckRecord(host, line, prev);
    if stored.Some? {
      PassesExactly(host, line, prev, stored.value);
    }
  }
}
