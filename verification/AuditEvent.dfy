/** Audit events, their JSON envelope and their hash. */
module AuditEvent {
  import opened Strings
  import opened SortedMap
  import opened Options
  import opened Json
  import opened JsonCanonical
  import opened JsonReader

  /** The libraries the log relies on: SHA-256 in hex, the JSON reader and the table of event
      types with their required details. */
  datatype Host = Host(
    sha256Hex: string -> string,
    parse: string -> Option<Value>,
    taxonomy: (string, Value) -> bool)
  {
    /** A blank text is no JSON document, a final carriage return is JSON whitespace, the keys of a
        parsed object are distinct, and a printed integer-only value comes back as a sorted map,
        unless more containers are nested in it than the reader opens. */
    ghost predicate ReadsJson() {
      && (forall l :: Blank(l) ==> parse(l) == None)
      && (forall l :: parse(l + "\r") == parse(l))
      && (forall l :: parse(l).Some? && parse(l).value.Obj? ==> DistinctKeys(parse(l).value.fields))
      && (forall v :: IntegersOnly(v) && InRange(v) ==>
            parse(Print(v)) == if Depth(v) < RECURSION_LIMIT then Normalize(v) else None)
    }
  }

  /** The laws are not too much to ask: the reader with its level counter obeys them. */
  lemma ReaderObeysLaws(host: Host)
    requires forall l :: host.parse(l) == Read(l)
    ensures host.ReadsJson()
  {
    forall l | Blank(l) ensures host.parse(l) == None { BlankIsNoDocument(l); }
    forall l ensures host.parse(l + "\r") == host.parse(l) { ReadIgnoresReturn(l); }
    forall l | host.parse(l).Some? && host.parse(l).value.Obj?
      ensures DistinctKeys(host.parse(l).value.fields)
    {
      ReadObjectSorted(l);
      SortedKeysDistinct(host.parse(l).value.fields);
    }
    forall v | IntegersOnly(v) && InRange(v)
      ensures host.parse(Print(v)) == if Depth(v) < RECURSION_LIMIT then Normalize(v) else None
    {
      PrintThenRead(v);
    }
  }

  lemma SortedKeysDistinct(fields: seq<Entry<Value>>)
    requires Sorted(fields)
    ensures DistinctKeys(fields)
  {
    forall i, j | 0 <= i < j < |fields| ensures fields[i].key != fields[j].key {
      LessIrreflexive(fields[j].key);
    }
  }

  predicate DistinctKeys(fields: seq<Entry<Value>>) {
    forall i, j :: 0 <= i < j < |fields| ==> fields[i].key != fields[j].key
  }

  datatype Actor = System | User

  datatype Event = Event(
    tsUtc: string, eventType: string, runId: string, vaultId: string,
    actor: Actor, details: Value, prevHash: string, hash: string)

  function Zeros(n: nat): string {
    if n == 0 then "" else "0" + Zeros(n - 1)
  }

  /** `ZERO_HASH_64`: sixty-four zeros. */
  const ZERO_HASH: string := Zeros(64)

  // ----- The envelope as JSON -----

  function ActorName(a: Actor): string {
    match a
    case System => "system"
    case User => "user"
  }

  function ActorOf(v: Value): Option<Actor> {
    if v == Str("system") then Some(System) else if v == Str("user") then Some(User) else None
  }

  /** The fields in declaration order, as serde writes them. */
  function Fields(e: Event): seq<Entry<Value>> {
    [Entry("ts_utc", Str(e.tsUtc)), Entry("event_type", Str(e.eventType)),
     Entry("run_id", Str(e.runId)), Entry("vault_id", Str(e.vaultId)),
     Entry("actor", Str(ActorName(e.actor))), Entry("details", e.details),
     Entry("prev_event_hash", Str(e.prevHash)), Entry("event_hash", Str(e.hash))]
  }

  function ToValue(e: Event): Value {
    Obj(Fields(e))
  }

  const EVENT_KEYS: seq<string> :=
    ["ts_utc", "event_type", "run_id", "vault_id", "actor", "details", "prev_event_hash", "event_hash"]

  /** The field a key names; the last one would win. */
  function Lookup(fields: seq<Entry<Value>>, key: string): Option<Value> {
    if fields == [] then None
    else
      var later := Lookup(fields[1..], key);
      if later.Some? then later
      else if fields[0].key == key then Some(fields[0].val)
      else None
  }

  function LookupString(fields: seq<Entry<Value>>, key: string): Option<string> {
    var v :- Lookup(fields, key);
    if v.Str? then Some(v.s) else None
  }

  /** An object with eight fields, all of them envelope keys. */
  predicate LockedEnvelope(v: Value) {
    v.Obj? && |v.fields| == |EVENT_KEYS| && forall i :: 0 <= i < |v.fields| ==> v.fields[i].key in EVENT_KEYS
  }

  /** `serde_json::from_value::<AuditEvent>`. */
  function FromValue(v: Value): Option<Event> {
    if !v.Obj? then None
    else
      var tsUtc :- LookupString(v.fields, "ts_utc");
      var eventType :- LookupString(v.fields, "event_type");
      var runId :- LookupString(v.fields, "run_id");
      var vaultId :- LookupString(v.fields, "vault_id");
      var actorValue :- Lookup(v.fields, "actor");
      var actor :- ActorOf(actorValue);
      var details :- Lookup(v.fields, "details");
      var prevHash :- LookupString(v.fields, "prev_event_hash");
      var hash :- LookupString(v.fields, "event_hash");
      Some(Event(tsUtc, eventType, runId, vaultId, actor, details, prevHash, hash))
  }

  // ----- Hashing -----

  /** What is hashed: the envelope with its own hash forced to zeros. */
  function Preimage(e: Event): Value {
    ToValue(e.(hash := ZERO_HASH))
  }

  function ComputeEventHash(host: Host, e: Event): Option<string> {
    var bytes :- Canonical(Preimage(e));
    Some(host.sha256Hex(bytes))
  }

  predicate IsHexDigit(c: char) {
    '0' <= c <= '9' || 'a' <= c <= 'f' || 'A' <= c <= 'F'
  }

  predicate IsHash(s: string) {
    |s| == 64 && forall i :: 0 <= i < 64 ==> IsHexDigit(s[i])
  }

  /** `finalize_event`: check the link and the taxonomy, then fill in the hash. */
  function FinalizeEvent(host: Host, e: Event): Option<Event> {
    if !IsHash(e.prevHash) || !e.details.Obj? || !host.taxonomy(e.eventType, e.details) then None
    else
      var hash :- ComputeEventHash(host, e);
      Some(e.(hash := hash))
  }

  // ----- Meaning of the envelope -----

  lemma KeysDistinct()
    ensures forall i, j :: 0 <= i < j < |EVENT_KEYS| ==> EVENT_KEYS[i] != EVENT_KEYS[j]
  {
    assert |EVENT_KEYS[0]| == 6 && |EVENT_KEYS[1]| == 10 && |EVENT_KEYS[2]| == 6 && |EVENT_KEYS[3]| == 8;
    assert |EVENT_KEYS[4]| == 5 && |EVENT_KEYS[5]| == 7 && |EVENT_KEYS[6]| == 15 && |EVENT_KEYS[7]| == 10;
    assert EVENT_KEYS[0][0] == 't' && EVENT_KEYS[2][0] == 'r';
    assert EVENT_KEYS[1][6] == 't' && EVENT_KEYS[7][6] == 'h';
  }

  lemma {:induction false} LookupMeaning(fields: seq<Entry<Value>>, key: string)
    ensures key in DenoteFields(fields) <==> Lookup(fields, key).Some?
    ensures key in DenoteFields(fields) ==> DenoteFields(fields)[key] == Denote(Lookup(fields, key).value)
    decreases fields
  {
    if fields != [] {
      LookupMeaning(fields[1..], key);
    }
  }

  lemma {:induction false} LookupAbsent(fields: seq<Entry<Value>>, key: string)
    requires forall i :: 0 <= i < |fields| ==> fields[i].key != key
    ensures Lookup(fields, key) == None
  {
    if fields != [] {
      LookupAbsent(fields[1..], key);
    }
  }

  lemma {:induction false} LookupAt(fields: seq<Entry<Value>>, i: nat)
    requires i < |fields|
    requires forall j :: i < j < |fields| ==> fields[j].key != fields[i].key
    ensures Lookup(fields, fields[i].key) == Some(fields[i].val)
  {
    if i == 0 {
      LookupAbsent(fields[1..], fields[0].key);
    } else {
      LookupAt(fields[1..], i - 1);
    }
  }

  lemma LookupField(e: Event, i: nat)
    requires i < |EVENT_KEYS|
    ensures Lookup(Fields(e), EVENT_KEYS[i]) == Some(Fields(e)[i].val)
  {
    KeysDistinct();
    assert forall j :: 0 <= j < |EVENT_KEYS| ==> Fields(e)[j].key == EVENT_KEYS[j];
    LookupAt(Fields(e), i);
  }

  /** Equal up to key order inside `details`. */
  ghost predicate SameEvent(a: Event, b: Event) {
    a.(details := Null) == b.(details := Null) && Denote(a.details) == Denote(b.details)
  }

  lemma FieldMeaning(a: Event, b: Event, i: nat)
    requires Denote(ToValue(a)) == Denote(ToValue(b)) && i < |EVENT_KEYS|
    ensures Denote(Fields(a)[i].val) == Denote(Fields(b)[i].val)
  {
    LookupField(a, i);
    LookupField(b, i);
    LookupMeaning(Fields(a), EVENT_KEYS[i]);
    LookupMeaning(Fields(b), EVENT_KEYS[i]);
  }

  lemma ActorNameInjective(a: Actor, b: Actor)
    requires ActorName(a) == ActorName(b)
    ensures a == b
  {
    assert |ActorName(System)| == 6 && |ActorName(User)| == 4;
  }

  /** The meaning of the envelope determines the event up to key order. */
  lemma EnvelopeInjective(a: Event, b: Event)
    requires Denote(ToValue(a)) == Denote(ToValue(b))
    ensures SameEvent(a, b)
  {
    assert a.tsUtc == b.tsUtc by { FieldMeaning(a, b, 0); }
    assert a.eventType == b.eventType by { FieldMeaning(a, b, 1); }
    assert a.runId == b.runId by { FieldMeaning(a, b, 2); }
    assert a.vaultId == b.vaultId by { FieldMeaning(a, b, 3); }
    assert a.actor == b.actor by { FieldMeaning(a, b, 4); ActorNameInjective(a.actor, b.actor); }
    assert Denote(a.details) == Denote(b.details) by { FieldMeaning(a, b, 5); }
    assert a.prevHash == b.prevHash by { FieldMeaning(a, b, 6); }
    assert a.hash == b.hash by { FieldMeaning(a, b, 7); }
  }

  /** A hash preimage is canonical exactly when the details hold integers only. */
  lemma PreimageIntegers(e: Event)
    ensures IntegersOnly(ToValue(e)) <==> IntegersOnly(e.details)
  {
    assert Fields(e)[5].val == e.details;
  }

  lemma FromValueFields(v: Value, i: nat)
    requires FromValue(v).Some? && i < |EVENT_KEYS|
    ensures Lookup(v.fields, EVENT_KEYS[i]) == Some(Fields(FromValue(v).value)[i].val)
  {
  }

  /** Reading a locked envelope loses nothing but key order. */
  lemma FromValueMeaning(v: Value)
    requires LockedEnvelope(v) && FromValue(v).Some?
    ensures Denote(v) == Denote(ToValue(FromValue(v).value))
  {
    var e := FromValue(v).value;
    var m, n := DenoteFields(v.fields), DenoteFields(Fields(e));
    forall i | 0 <= i < |EVENT_KEYS|
      ensures EVENT_KEYS[i] in m && EVENT_KEYS[i] in n && m[EVENT_KEYS[i]] == n[EVENT_KEYS[i]]
    {
      FromValueFields(v, i);
      LookupField(e, i);
      LookupMeaning(v.fields, EVENT_KEYS[i]);
      LookupMeaning(Fields(e), EVENT_KEYS[i]);
    }
    OnlyEnvelopeKeys(v.fields);
    OnlyEnvelopeKeys(Fields(e));
    assert m.Keys == n.Keys;
  }

  lemma OnlyEnvelopeKeys(fields: seq<Entry<Value>>)
    requires forall i :: 0 <= i < |fields| ==> fields[i].key in EVENT_KEYS
    ensures forall key :: key in DenoteFields(fields) ==> key in EVENT_KEYS
  {
    DenoteKeys(fields);
  }

  // ----- The envelope in normal form -----

  lemma {:induction false} CountDistinct(keys: seq<string>)
    requires forall i, j :: 0 <= i < j < |keys| ==> keys[i] != keys[j]
    ensures |(set k | k in keys)| == |keys|
  {
    if keys != [] {
      CountDistinct(keys[1..]);
      assert (set k | k in keys) == {keys[0]} + (set k | k in keys[1..]) by {
        assert keys == [keys[0]] + keys[1..];
      }
    }
  }

  function Keys(fields: seq<Entry<Value>>): (r: seq<string>)
    ensures |r| == |fields| && forall i :: 0 <= i < |fields| ==> r[i] == fields[i].key
  {
    if fields == [] then [] else [fields[0].key] + Keys(fields[1..])
  }

  lemma SameCount(a: seq<string>, b: seq<string>)
    requires forall i, j :: 0 <= i < j < |a| ==> a[i] != a[j]
    requires forall i, j :: 0 <= i < j < |b| ==> b[i] != b[j]
    requires forall k :: k in a <==> k in b
    ensures |a| == |b|
  {
    CountDistinct(a);
    CountDistinct(b);
    assert (set k | k in a) == (set k | k in b);
  }

  lemma KeyPresent(fields: seq<Entry<Value>>, key: string)
    ensures key in Keys(fields) <==> key in DenoteFields(fields)
  {
    DenoteKeys(fields);
    if HasKey(fields, key) {
      var i :| 0 <= i < |fields| && fields[i].key == key;
      assert Keys(fields)[i] == key;
    }
    if key in Keys(fields) {
      var i :| 0 <= i < |fields| && Keys(fields)[i] == key;
      assert fields[i].key == key;
    }
  }

  lemma EnvelopeKeys(e: Event)
    ensures Keys(Fields(e)) == EVENT_KEYS
  {
    assert forall i :: 0 <= i < |EVENT_KEYS| ==> Fields(e)[i].key == EVENT_KEYS[i];
  }

  /** A map with the meaning of an envelope has exactly the envelope's keys. */
  lemma LockedByMeaning(fields: seq<Entry<Value>>, e: Event)
    requires DistinctKeys(fields) && DenoteFields(fields) == DenoteFields(Fields(e))
    ensures LockedEnvelope(Obj(fields))
  {
    EnvelopeKeys(e);
    forall k ensures k in Keys(fields) <==> k in EVENT_KEYS {
      KeyPresent(fields, k);
      KeyPresent(Fields(e), k);
    }
    forall i | 0 <= i < |fields| ensures fields[i].key in EVENT_KEYS {
      assert Keys(fields)[i] in Keys(fields);
    }
    KeysDistinct();
    SameCount(Keys(fields), EVENT_KEYS);
  }

  lemma SameFieldMeaning(fields: seq<Entry<Value>>, e: Event, i: nat)
    requires DenoteFields(fields) == DenoteFields(Fields(e)) && i < |EVENT_KEYS|
    ensures Lookup(fields, EVENT_KEYS[i]).Some?
    ensures Denote(Lookup(fields, EVENT_KEYS[i]).value) == Denote(Fields(e)[i].val)
  {
    LookupField(e, i);
    LookupMeaning(Fields(e), EVENT_KEYS[i]);
    LookupMeaning(fields, EVENT_KEYS[i]);
  }

  lemma {:induction false} LookupNormal(fields: seq<Entry<Value>>, key: string)
    requires (forall i :: 0 <= i < |fields| ==> IsNormal(fields[i].val)) && Lookup(fields, key).Some?
    ensures IsNormal(Lookup(fields, key).value)
  {
    if Lookup(fields[1..], key).Some? {
      LookupNormal(fields[1..], key);
    }
  }

  lemma EnvelopeFieldNormal(e: Event, i: nat)
    requires IsNormal(e.details) && i < |EVENT_KEYS|
    ensures IsNormal(Fields(e)[i].val)
  {
  }

  lemma NormalField(fields: seq<Entry<Value>>, e: Event, i: nat)
    requires IsNormal(Obj(fields)) && i < |EVENT_KEYS| && IsNormal(e.details)
    requires DenoteFields(fields) == DenoteFields(Fields(e))
    ensures Lookup(fields, EVENT_KEYS[i]) == Some(Fields(e)[i].val)
  {
    EnvelopeFieldNormal(e, i);
    SameFieldMeaning(fields, e, i);
    LookupNormal(fields, EVENT_KEYS[i]);
    NormalUnique(Lookup(fields, EVENT_KEYS[i]).value, Fields(e)[i].val);
  }

  lemma EnvelopeLookups(fields: seq<Entry<Value>>, e: Event)
    requires forall i :: 0 <= i < |EVENT_KEYS| ==> Lookup(fields, EVENT_KEYS[i]) == Some(Fields(e)[i].val)
    ensures FromValue(Obj(fields)) == Some(e)
  {
    assert Lookup(fields, EVENT_KEYS[0]) == Some(Str(e.tsUtc));
    assert Lookup(fields, EVENT_KEYS[1]) == Some(Str(e.eventType));
    assert Lookup(fields, EVENT_KEYS[2]) == Some(Str(e.runId));
    assert Lookup(fields, EVENT_KEYS[3]) == Some(Str(e.vaultId));
    assert Lookup(fields, EVENT_KEYS[4]) == Some(Str(ActorName(e.actor)));
    assert Lookup(fields, EVENT_KEYS[5]) == Some(e.details);
    assert Lookup(fields, EVENT_KEYS[6]) == Some(Str(e.prevHash));
    assert Lookup(fields, EVENT_KEYS[7]) == Some(Str(e.hash));
    ActorNameRead(e.actor);
  }

  lemma ActorNameRead(a: Actor)
    ensures ActorOf(Str(ActorName(a))) == Some(a)
  {
    assert |ActorName(System)| == 6 && |ActorName(User)| == 4;
  }

  lemma NormalFields(fields: seq<Entry<Value>>, e: Event)
    requires IsNormal(Obj(fields)) && IsNormal(e.details)
    requires DenoteFields(fields) == DenoteFields(Fields(e))
    ensures forall i :: 0 <= i < |EVENT_KEYS| ==> Lookup(fields, EVENT_KEYS[i]) == Some(Fields(e)[i].val)
  {
    forall i | 0 <= i < |EVENT_KEYS|
      ensures Lookup(fields, EVENT_KEYS[i]) == Some(Fields(e)[i].val)
    {
      NormalField(fields, e, i);
    }
  }

  lemma NormalLookups(fields: seq<Entry<Value>>, e: Event)
    requires IsNormal(Obj(fields)) && IsNormal(e.details)
    requires DenoteFields(fields) == DenoteFields(Fields(e))
    ensures FromValue(Obj(fields)) == Some(e)
  {
    NormalFields(fields, e);
    EnvelopeLookups(fields, e);
  }

  /** Typing the normal form of an envelope gives the event back. */
  lemma NormalEnvelope(v: Value, e: Event)
    requires IsNormal(v) && IsNormal(e.details) && Denote(v) == Denote(ToValue(e))
    ensures LockedEnvelope(v) && FromValue(v) == Some(e)
  {
    assert v.Obj? && DenoteFields(v.fields) == DenoteFields(Fields(e));
    SortedKeysDistinct(v.fields);
    LockedByMeaning(v.fields, e);
    NormalLookups(v.fields, e);
  }

  // ----- The envelope by name -----

  /** The value has eight fields: those of the event, each under its own name. The details may differ
      in key order. */
  ghost predicate Named(v: Value, e: Event) {
    && v.Obj? && |v.fields| == 8
    && Lookup(v.fields, "ts_utc") == Some(Str(e.tsUtc))
    && Lookup(v.fields, "event_type") == Some(Str(e.eventType))
    && Lookup(v.fields, "run_id") == Some(Str(e.runId))
    && Lookup(v.fields, "vault_id") == Some(Str(e.vaultId))
    && Lookup(v.fields, "actor") == Some(Str(if e.actor.System? then "system" else "user"))
    && Lookup(v.fields, "details").Some? && Denote(Lookup(v.fields, "details").value) == Denote(e.details)
    && Lookup(v.fields, "prev_event_hash") == Some(Str(e.prevHash))
    && Lookup(v.fields, "event_hash") == Some(Str(e.hash))
  }

  /** The envelope in declaration order is named, with the details as they are. */
  lemma EnvelopeNamed(e: Event)
    ensures Named(ToValue(e), e) && Lookup(Fields(e), "details") == Some(e.details)
  {
    assert Lookup(Fields(e), "ts_utc") == Some(Str(e.tsUtc)) by { LookupField(e, 0); }
    assert Lookup(Fields(e), "event_type") == Some(Str(e.eventType)) by { LookupField(e, 1); }
    assert Lookup(Fields(e), "run_id") == Some(Str(e.runId)) by { LookupField(e, 2); }
    assert Lookup(Fields(e), "vault_id") == Some(Str(e.vaultId)) by { LookupField(e, 3); }
    assert Lookup(Fields(e), "actor") == Some(Str(ActorName(e.actor))) by { LookupField(e, 4); }
    assert Lookup(Fields(e), "details") == Some(e.details) by { LookupField(e, 5); }
    assert Lookup(Fields(e), "prev_event_hash") == Some(Str(e.prevHash)) by { LookupField(e, 6); }
    assert Lookup(Fields(e), "event_hash") == Some(Str(e.hash)) by { LookupField(e, 7); }
  }

  lemma SameMeaningAt(a: seq<Entry<Value>>, b: seq<Entry<Value>>, key: string)
    requires DenoteFields(a) == DenoteFields(b)
    ensures Lookup(a, key).Some? <==> Lookup(b, key).Some?
    ensures Lookup(a, key).Some? ==> Denote(Lookup(a, key).value) == Denote(Lookup(b, key).value)
  {
    LookupMeaning(a, key);
    LookupMeaning(b, key);
  }

  lemma SameStringAt(a: seq<Entry<Value>>, b: seq<Entry<Value>>, key: string, s: string)
    requires DenoteFields(a) == DenoteFields(b) && Lookup(b, key) == Some(Str(s))
    ensures Lookup(a, key) == Some(Str(s))
  {
    SameMeaningAt(a, b, key);
  }

  /** Whatever means the same as the envelope, with distinct keys, is named. */
  lemma NamedByMeaning(v: Value, e: Event)
    requires Denote(v) == Denote(ToValue(e)) && v.Obj? && DistinctKeys(v.fields)
    ensures Named(v, e)
  {
    EnvelopeNamed(e);
    LockedByMeaning(v.fields, e);
    SameStringAt(v.fields, Fields(e), "ts_utc", e.tsUtc);
    SameStringAt(v.fields, Fields(e), "event_type", e.eventType);
    SameStringAt(v.fields, Fields(e), "run_id", e.runId);
    SameStringAt(v.fields, Fields(e), "vault_id", e.vaultId);
    SameStringAt(v.fields, Fields(e), "actor", if e.actor.System? then "system" else "user");
    SameMeaningAt(v.fields, Fields(e), "details");
    SameStringAt(v.fields, Fields(e), "prev_event_hash", e.prevHash);
    SameStringAt(v.fields, Fields(e), "event_hash", e.hash);
  }

  lemma SubsetOfSameSize(a: set<string>, b: set<string>)
    requires a <= b && |a| >= |b|
    ensures a == b
  {
    assert b == a + (b - a);
    assert |b| == |a| + |b - a|;
  }

  lemma FoundIsKey(fields: seq<Entry<Value>>, key: string)
    requires Lookup(fields, key).Some?
    ensures key in Keys(fields)
  {
    LookupMeaning(fields, key);
    KeyPresent(fields, key);
  }

  /** As many distinct keys as there are of these, and these among them, are these. */
  lemma OnlyTheseKeys(fields: seq<Entry<Value>>, keys: seq<string>)
    requires DistinctKeys(fields) && |fields| == |keys|
    requires forall i, j :: 0 <= i < j < |keys| ==> keys[i] != keys[j]
    requires forall k :: k in keys ==> Lookup(fields, k).Some?
    ensures forall i :: 0 <= i < |fields| ==> fields[i].key in keys
  {
    var found := Keys(fields);
    CountDistinct(found);
    CountDistinct(keys);
    var a, b := set k | k in keys, set k | k in found;
    forall k | k in a ensures k in b { FoundIsKey(fields, k); }
    SubsetOfSameSize(a, b);
    forall i | 0 <= i < |fields| ensures fields[i].key in keys {
      assert found[i] in b;
    }
  }

  /** Fields with these keys only, which mean the same under each of them, mean the same. */
  lemma SameUnderKeys(a: seq<Entry<Value>>, b: seq<Entry<Value>>, keys: seq<string>)
    requires forall i :: 0 <= i < |a| ==> a[i].key in keys
    requires forall i :: 0 <= i < |b| ==> b[i].key in keys
    requires forall k :: k in keys ==>
      Lookup(a, k).Some? && Lookup(b, k).Some? && Denote(Lookup(a, k).value) == Denote(Lookup(b, k).value)
    ensures DenoteFields(a) == DenoteFields(b)
  {
    forall k | k in keys
      ensures k in DenoteFields(a) && k in DenoteFields(b) && DenoteFields(a)[k] == DenoteFields(b)[k]
    {
      LookupMeaning(a, k);
      LookupMeaning(b, k);
    }
    OnlyKeys(a, keys);
    OnlyKeys(b, keys);
    SameOnKeys(DenoteFields(a), DenoteFields(b), keys);
  }

  lemma SameOnKeys(m: map<string, Meaning>, n: map<string, Meaning>, keys: seq<string>)
    requires forall k :: k in keys ==> k in m && k in n && m[k] == n[k]
    requires (forall k :: k in m ==> k in keys) && forall k :: k in n ==> k in keys
    ensures m == n
  {
    assert m.Keys == n.Keys;
  }

  lemma OnlyKeys(fields: seq<Entry<Value>>, keys: seq<string>)
    requires forall i :: 0 <= i < |fields| ==> fields[i].key in keys
    ensures forall key :: key in DenoteFields(fields) ==> key in keys
  {
    DenoteKeys(fields);
  }

  lemma NamedAt(v: Value, e: Event, i: nat)
    requires Named(v, e) && i < |EVENT_KEYS|
    ensures Lookup(v.fields, EVENT_KEYS[i]).Some?
    ensures Denote(Lookup(v.fields, EVENT_KEYS[i]).value) == Denote(Fields(e)[i].val)
  {
  }

  lemma NamedUnderKeys(v: Value, e: Event, k: string)
    requires Named(v, e) && k in EVENT_KEYS
    ensures Lookup(v.fields, k).Some? && Lookup(Fields(e), k).Some?
    ensures Denote(Lookup(v.fields, k).value) == Denote(Lookup(Fields(e), k).value)
  {
    var i :| 0 <= i < |EVENT_KEYS| && EVENT_KEYS[i] == k;
    NamedAt(v, e, i);
    LookupField(e, i);
  }

  lemma EnvelopeHasKeys(e: Event)
    ensures forall i :: 0 <= i < |Fields(e)| ==> Fields(e)[i].key in EVENT_KEYS
  {
    EnvelopeKeys(e);
    forall i | 0 <= i < |Fields(e)| ensures Fields(e)[i].key in EVENT_KEYS {
      assert Keys(Fields(e))[i] == Fields(e)[i].key;
    }
  }

  /** A named value with distinct keys means what the envelope means. */
  lemma NamedMeans(v: Value, e: Event)
    requires Named(v, e) && DistinctKeys(v.fields)
    ensures LockedEnvelope(v) && Denote(v) == Denote(ToValue(e))
  {
    forall k | k in EVENT_KEYS
      ensures Lookup(v.fields, k).Some? && Lookup(Fields(e), k).Some?
      ensures Denote(Lookup(v.fields, k).value) == Denote(Lookup(Fields(e), k).value)
    {
      NamedUnderKeys(v, e, k);
    }
    KeysDistinct();
    OnlyTheseKeys(v.fields, EVENT_KEYS);
    EnvelopeHasKeys(e);
    SameUnderKeys(v.fields, Fields(e), EVENT_KEYS);
  }

  // ----- Hash and acceptance by name -----

  lemma {:induction false} ZerosAre(n: nat)
    ensures |Zeros(n)| == n && forall i :: 0 <= i < n ==> Zeros(n)[i] == '0'
  {
    if n > 0 {
      ZerosAre(n - 1);
    }
  }

  /** Sixty-four characters `0`. */
  ghost predicate SixtyFourZeros(s: string) {
    |s| == 64 && forall c :: c in s ==> c == '0'
  }

  lemma ZeroHashIs(s: string)
    ensures SixtyFourZeros(s) <==> s == ZERO_HASH
  {
    ZerosAre(64);
    if SixtyFourZeros(s) {
      assert forall i :: 0 <= i < 64 ==> s[i] in s;
    }
  }

  /** The hash is taken of the one print with integers only and keys in dictionary order whose fields
      are the event's under their own names, with sixty-four zeros in place of its hash. */
  ghost predicate HashedAs(host: Host, e: Event, hash: string) {
    exists n, zeros :: SixtyFourZeros(zeros) && PrintedFor(n, e.(hash := zeros)) && hash == host.sha256Hex(Print(n))
  }

  ghost predicate PrintedFor(n: Value, e: Event) {
    Named(n, e) && IntegersOnly(n) && Ascending(n)
  }

  lemma PrintedIsCanonical(n: Value, e: Event)
    requires IntegersOnly(e.details)
    ensures PrintedFor(n, e) ==> Canonical(ToValue(e)) == Some(Print(n))
    ensures n.Obj? && CanonicalOf(ToValue(e), n) ==> PrintedFor(n, e)
  {
    PreimageIntegers(e);
    if n.Obj? && Ascending(n) {
      SortedIffPrecedes(n.fields);
      SortedKeysDistinct(n.fields);
      if Named(n, e) { NamedMeans(n, e); }
      if CanonicalOf(ToValue(e), n) { NamedByMeaning(n, e); }
    }
    if PrintedFor(n, e) {
      CanonicalBytes(ToValue(e), n);
    }
  }

  /** That is what `compute_event_hash` computes. */
  lemma HashedExactly(host: Host, e: Event, hash: string)
    requires IntegersOnly(e.details)
    ensures ComputeEventHash(host, e) == Some(hash) <==> HashedAs(host, e, hash)
  {
    ZeroHashIs(ZERO_HASH);
    var g := e.(hash := ZERO_HASH);
    PreimageIntegers(g);
    NormalizeMeans(Preimage(e));
    var m := Normalize(Preimage(e)).value;
    PrintedIsCanonical(m, g);
    if ComputeEventHash(host, e) == Some(hash) {
      assert PrintedFor(m, g) && hash == host.sha256Hex(Print(m));
    }
    if HashedAs(host, e, hash) {
      var n, zeros :| SixtyFourZeros(zeros) && PrintedFor(n, e.(hash := zeros)) && hash == host.sha256Hex(Print(n));
      ZeroHashIs(zeros);
      PrintedIsCanonical(n, g);
    }
  }

  /** What the log asks of an event: a link of sixty-four hexadecimal digits, an object of details with
      integers only, and what the taxonomy wants. */
  ghost predicate Acceptable(host: Host, e: Event) {
    && |e.prevHash| == 64 && (forall c :: c in e.prevHash ==> c in "0123456789abcdefABCDEF")
    && e.details.Obj? && IntegersOnly(e.details) && host.taxonomy(e.eventType, e.details)
  }

  lemma HexDigits(c: char)
    ensures IsHexDigit(c) <==> c in "0123456789abcdefABCDEF"
  {
    var s := "0123456789abcdefABCDEF";
    if '0' <= c <= '9' { assert s[c as int - '0' as int] == c; }
    if 'a' <= c <= 'f' { assert s[10 + c as int - 'a' as int] == c; }
    if 'A' <= c <= 'F' { assert s[16 + c as int - 'A' as int] == c; }
  }

  lemma HashDigits(s: string)
    ensures IsHash(s) <==> |s| == 64 && forall c :: c in s ==> c in "0123456789abcdefABCDEF"
  {
    forall c ensures IsHexDigit(c) <==> c in "0123456789abcdefABCDEF" { HexDigits(c); }
  }

  /** An event is finalized exactly if it is acceptable; only its hash changes, to the hash of its
      print. */
  lemma FinalizesExactly(host: Host, e: Event)
    ensures FinalizeEvent(host, e).Some? <==> Acceptable(host, e)
    ensures FinalizeEvent(host, e).Some? ==>
      var f := FinalizeEvent(host, e).value; f == e.(hash := f.hash) && HashedAs(host, f, f.hash)
  {
    HashDigits(e.prevHash);
    PreimageIntegers(e.(hash := ZERO_HASH));
    FailsExactlyOnNonIntegers(Preimage(e));
    if FinalizeEvent(host, e).Some? {
      var f := FinalizeEvent(host, e).value;
      HashedExactly(host, f, f.hash);
    }
  }

  // ----- Depth -----

  lemma {:induction false} FlatFields(fields: seq<Entry<Value>>)
    requires forall i :: 0 <= i < |fields| ==> Depth(fields[i].val) == 0
    ensures FieldsDepth(fields) == 0
    decreases fields
  {
    if fields != [] {
      FlatFields(fields[1..]);
    }
  }

  lemma {:induction false} DeepestField(fields: seq<Entry<Value>>, i: nat)
    requires i < |fields| && forall j :: 0 <= j < |fields| && j != i ==> Depth(fields[j].val) == 0
    ensures FieldsDepth(fields) == Depth(fields[i].val)
    decreases fields
  {
    if i == 0 {
      FlatFields(fields[1..]);
    } else {
      assert fields[1..][i - 1] == fields[i];
      DeepestField(fields[1..], i - 1);
    }
  }

  /** The envelope adds one level to its details. */
  lemma EnvelopeDepth(e: Event)
    ensures Depth(ToValue(e)) == 1 + Depth(e.details)
  {
    DeepestField(Fields(e), 5);
  }
}
