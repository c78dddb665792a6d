/** Every interleaving of writers that open one log and append to it. */
module AuditWriters {
  import opened Strings
  import opened Options
  import opened Json
  import opened JsonCanonical
  import opened JsonReader
  import opened AuditEvent
  import opened AuditChain
  import opened AuditTail
  import opened AuditLog

  /** The file, the last hash of each open writer, and the events returned to callers in order
      together with the chain index each was written at. */
  datatype State = State(text: string, writers: map<nat, string>, acks: seq<Event>, ackedAt: seq<nat>)

  datatype Action = Open(id: nat) | Append(id: nat, event: Event, fault: Fault)

  ghost function EventCount(host: Host, text: string): nat {
    match Verify(host, text)
    case None => 0
    case Some(events) => |events|
  }

  ghost function Step(host: Host, s: State, a: Action): State {
    match a
    case Open(id) =>
      if Accepted(host, s.text) then
        s.(writers := s.writers[id := LastHash(Events(host, s.text), ZERO_HASH)])
      else s
    case Append(id, event, fault) =>
      if id !in s.writers then s
      else
        var (text, lastHash, result) := AppendEffect(host, s.text, s.writers[id], event, fault);
        var t := s.(text := text, writers := s.writers[id := lastHash]);
        if result.Appended? then
          t.(acks := s.acks + [result.event], ackedAt := s.ackedAt + [EventCount(host, s.text)])
        else t
  }

  ghost function Run(host: Host, s: State, actions: seq<Action>): State
    decreases |actions|
  {
    if actions == [] then s else Run(host, Step(host, s, actions[0]), actions[1..])
  }

  /** The details of every event are what a `serde_json::Value` can hold. */
  ghost predicate Typed(actions: seq<Action>) {
    forall i :: 0 <= i < |actions| && actions[i].Append? ==> Held(actions[i].event.details)
  }

  /** No event to be appended nests its details too deep. */
  ghost predicate Shallow(actions: seq<Action>) {
    forall i :: 0 <= i < |actions| && actions[i].Append? ==> !TooDeep(actions[i].event.details)
  }

  /** An action that writes a whole record nobody can read. */
  ghost predicate Freezes(host: Host, s: State, a: Action) {
    && a.Append? && a.id in s.writers && TooDeep(a.event.details)
    && !a.fault.OpenFails? && !a.fault.WriteFails?
    && Written(host, s.text, s.writers[a.id], a.event).Some?
  }

  /** The file up to its last newline; the rest is a record torn by a failed write. */
  function Sound(text: string): string {
    text[..LineStart(text, |text|)]
  }

  /** Each acknowledged event sits at its index, linked to the hash before it, in order. */
  ghost predicate AcksPlaced(events: seq<Event>, acks: seq<Event>, ackedAt: seq<nat>) {
    && |acks| == |ackedAt|
    && (forall i :: 0 <= i < |acks| ==> ackedAt[i] < |events| && events[ackedAt[i]] == acks[i])
    && (forall i, j :: 0 <= i < j < |ackedAt| ==> ackedAt[i] < ackedAt[j])
  }

  ghost predicate Inv(host: Host, s: State) {
    && Verify(host, Sound(s.text)).Some?
    && AcksPlaced(Events(host, Sound(s.text)), s.acks, s.ackedAt)
    && forall id :: id in s.writers ==> OnChain(Events(host, Sound(s.text)), s.writers[id])
  }

  ghost predicate OnChain(events: seq<Event>, hash: string) {
    exists p :: 0 <= p <= |events| && HashAt(events, p) == hash
  }

  lemma SoundTerminated(text: string)
    ensures Terminated(Sound(text))
    ensures Terminated(text) ==> Sound(text) == text
  {
  }

  /** A torn record leaves the sound part of a terminated file as it was. */
  lemma SoundIgnoresTorn(text: string, part: string)
    requires Terminated(text) && '\n' !in part
    ensures Sound(text + part) == text
    ensures part != [] ==> !Terminated(text + part)
  {
    LineStartUnique(text + part, |text + part|, |text|);
    assert (text + part)[..|text|] == text;
  }

  lemma OnChainGrows(events: seq<Event>, more: seq<Event>, hash: string)
    requires OnChain(events, hash)
    ensures OnChain(events + more, hash)
  {
    var p :| 0 <= p <= |events| && HashAt(events, p) == hash;
    assert HashAt(events + more, p) == hash;
  }

  lemma OnChainLast(events: seq<Event>)
    ensures OnChain(events, LastHash(events, ZERO_HASH))
  {
    assert HashAt(events, |events|) == LastHash(events, ZERO_HASH);
  }

  /** What an action keeps: the sound part stays a verified chain and grows by prefix extension;
      the file itself only grows. */
  ghost predicate Extends(host: Host, s: State, t: State) {
    && s.text <= t.text
    && Verify(host, Sound(s.text)).Some? && Verify(host, Sound(t.text)).Some?
    && Events(host, Sound(s.text)) <= Events(host, Sound(t.text))
    && s.acks <= t.acks && s.ackedAt <= t.ackedAt
  }

  /** The effect of an append on the state, by how far it got. */
  lemma UnwrittenEffect(host: Host, s: State, a: Action)
    requires a.Append? && a.id in s.writers
    requires a.fault.OpenFails? || Written(host, s.text, s.writers[a.id], a.event).None?
    ensures var t := Step(host, s, a);
      && t.text == s.text && t.acks == s.acks && t.ackedAt == s.ackedAt
      && (t.writers == s.writers
          || (Tail(host, s.text).Some? && t.writers == s.writers[a.id := Tail(host, s.text).value.0]))
  {
    assert s.writers[a.id := s.writers[a.id]] == s.writers;
  }

  lemma TornEffect(host: Host, s: State, a: Action)
    requires a.Append? && a.id in s.writers && a.fault.WriteFails?
    requires Written(host, s.text, s.writers[a.id], a.event).Some?
    ensures var f := Written(host, s.text, s.writers[a.id], a.event).value;
      Tail(host, s.text).Some? && Step(host, s, a) == s.(
        text := s.text + Torn(Record(f), a.fault.kept),
        writers := s.writers[a.id := Tail(host, s.text).value.0])
  {
  }

  lemma RecordedEffect(host: Host, s: State, a: Action)
    requires a.Append? && a.id in s.writers && !a.fault.OpenFails? && !a.fault.WriteFails?
    requires Written(host, s.text, s.writers[a.id], a.event).Some?
    ensures var f, t := Written(host, s.text, s.writers[a.id], a.event).value, Step(host, s, a);
      && Tail(host, s.text).Some?
      && t.text == s.text + Record(f)
      && (t.writers == s.writers[a.id := Tail(host, s.text).value.0] || t.writers == s.writers[a.id := f.hash])
      && ((t.acks == s.acks && t.ackedAt == s.ackedAt)
          || (t.acks == s.acks + [f] && t.ackedAt == s.ackedAt + [EventCount(host, s.text)]))
  {
  }

  /** An append that writes nothing moves at most the writer, and only to the end of the chain. */
  lemma UnwrittenKeeps(host: Host, s: State, a: Action)
    requires host.ReadsJson() && Inv(host, s) && a.Append? && a.id in s.writers
    requires a.fault.OpenFails? || Written(host, s.text, s.writers[a.id], a.event).None?
    ensures Inv(host, Step(host, s, a)) && Extends(host, s, Step(host, s, a))
    ensures Step(host, s, a).text == s.text
  {
    UnwrittenEffect(host, s, a);
    SoundTerminated(s.text);
    if Tail(host, s.text).Some? {
      TailEndsChain(host, s.text);
      OnChainLast(Events(host, s.text));
    }
  }

  /** A torn write adds an unreadable rest behind the sound part. */
  lemma TornKeeps(host: Host, s: State, a: Action)
    requires host.ReadsJson() && Inv(host, s) && a.Append? && a.id in s.writers
    requires a.fault.WriteFails? && Written(host, s.text, s.writers[a.id], a.event).Some?
    ensures Inv(host, Step(host, s, a)) && Extends(host, s, Step(host, s, a))
  {
    var f := Written(host, s.text, s.writers[a.id], a.event).value;
    TornEffect(host, s, a);
    SoundTerminated(s.text);
    TailEndsChain(host, s.text);
    OnChainLast(Events(host, s.text));
    TornIsOneLine(host, f, a.fault.kept);
    SoundIgnoresTorn(s.text, Torn(Record(f), a.fault.kept));
  }

  lemma TornIsOneLine(host: Host, f: Event, kept: nat)
    requires FinalizeEvent(host, f) == Some(f)
    ensures '\n' !in Torn(Record(f), kept)
  {
    HashOfBytes(host, f);
    RecordShape(f);
    assert Torn(Record(f), kept) <= Print(ToValue(f));
  }

  lemma AllOnChainGrow(events: seq<Event>, f: Event, writers: map<nat, string>)
    requires forall id :: id in writers ==> OnChain(events, writers[id])
    ensures forall id :: id in writers ==> OnChain(events + [f], writers[id])
    ensures OnChain(events + [f], LastHash(events, ZERO_HASH)) && OnChain(events + [f], f.hash)
  {
    forall id | id in writers ensures OnChain(events + [f], writers[id]) {
      OnChainGrows(events, [f], writers[id]);
    }
    OnChainLast(events);
    OnChainGrows(events, [f], LastHash(events, ZERO_HASH));
    OnChainLast(events + [f]);
  }

  /** The text after a written record: one more event at the end of the chain. */
  lemma RecordedText(host: Host, s: State, a: Action)
    requires host.ReadsJson() && Inv(host, s) && a.Append? && a.id in s.writers
    requires Held(a.event.details) && !TooDeep(a.event.details)
    requires Written(host, s.text, s.writers[a.id], a.event).Some?
    ensures var f := Written(host, s.text, s.writers[a.id], a.event).value;
      && Accepted(host, s.text) && Sound(s.text) == s.text
      && Accepted(host, s.text + Record(f)) && Sound(s.text + Record(f)) == s.text + Record(f)
      && Events(host, s.text + Record(f)) == Events(host, s.text) + [f]
      && Tail(host, s.text).Some? && Tail(host, s.text).value.0 == LastHash(Events(host, s.text), ZERO_HASH)
  {
    var f := Written(host, s.text, s.writers[a.id], a.event).value;
    SoundTerminated(s.text);
    TailEndsChain(host, s.text);
    AppendVerifiesIff(host, s.text, s.writers[a.id], a.event);
    HashOfBytes(host, f);
    RecordShape(f);
    SoundTerminated(s.text + Record(f));
  }

  lemma PlacedSnoc(events: seq<Event>, f: Event, acks: seq<Event>, ackedAt: seq<nat>)
    requires AcksPlaced(events, acks, ackedAt)
    ensures AcksPlaced(events + [f], acks, ackedAt)
    ensures AcksPlaced(events + [f], acks + [f], ackedAt + [|events|])
  {
  }

  lemma RecordedKeeps(host: Host, s: State, a: Action)
    requires host.ReadsJson() && Inv(host, s) && a.Append? && a.id in s.writers
    requires Held(a.event.details) && !TooDeep(a.event.details)
    requires !a.fault.OpenFails? && !a.fault.WriteFails?
    requires Written(host, s.text, s.writers[a.id], a.event).Some?
    ensures Inv(host, Step(host, s, a)) && Extends(host, s, Step(host, s, a))
    ensures Terminated(Step(host, s, a).text)
  {
    var f := Written(host, s.text, s.writers[a.id], a.event).value;
    RecordedEffect(host, s, a);
    RecordedText(host, s, a);
    AllOnChainGrow(Events(host, s.text), f, s.writers);
    PlacedSnoc(Events(host, s.text), f, s.acks, s.ackedAt);
  }

  /** A record nobody can read freezes the log behind what was there. */
  lemma FreezingStep(host: Host, s: State, a: Action)
    requires host.ReadsJson() && Inv(host, s) && Freezes(host, s, a) && Held(a.event.details)
    ensures var t := Step(host, s, a);
      && Frozen(host, t.text) && Sound(t.text) == t.text
      && t.text == s.text + Record(Written(host, s.text, s.writers[a.id], a.event).value)
  {
    SoundTerminated(s.text);
    RecordedEffect(host, s, a);
    TooDeepFreezes(host, s.text, s.writers[a.id], a.event);
    var f := Written(host, s.text, s.writers[a.id], a.event).value;
    HashOfBytes(host, f);
    RecordShape(f);
    SoundTerminated(s.text + Record(f));
  }

  /** A step keeps the chain exactly when it does not write a record that is nested too deep. */
  lemma StepKeeps(host: Host, s: State, a: Action)
    requires host.ReadsJson() && Inv(host, s) && (a.Append? ==> Held(a.event.details))
    ensures Inv(host, Step(host, s, a)) && Extends(host, s, Step(host, s, a)) <==> !Freezes(host, s, a)
    ensures s.text <= Step(host, s, a).text
    ensures Terminated(s.text) && (a.Append? ==> !a.fault.WriteFails?) ==> Terminated(Step(host, s, a).text)
  {
    SoundTerminated(s.text);
    if Freezes(host, s, a) {
      FreezingStep(host, s, a);
      SoundTerminated(Step(host, s, a).text);
    } else if a.Append? && a.id in s.writers {
      if a.fault.OpenFails? || Written(host, s.text, s.writers[a.id], a.event).None? {
        UnwrittenKeeps(host, s, a);
      } else if a.fault.WriteFails? {
        TornKeeps(host, s, a);
      } else {
        RecordedKeeps(host, s, a);
      }
    } else if a.Open? && Accepted(host, s.text) {
      OnChainLast(Events(host, s.text));
    }
  }

  /** Nothing changes a frozen log: no action writes, and no caller gets an event back. */
  lemma {:induction false} FrozenForever(host: Host, s: State, actions: seq<Action>)
    requires Frozen(host, s.text)
    ensures Run(host, s, actions) == s
    decreases |actions|
  {
    if actions != [] {
      FrozenStep(host, s, actions[0]);
      FrozenForever(host, s, actions[1..]);
    }
  }

  lemma FrozenStep(host: Host, s: State, a: Action)
    requires Frozen(host, s.text)
    ensures Step(host, s, a) == s
  {
    if a.Append? && a.id in s.writers {
      assert s.writers[a.id := s.writers[a.id]] == s.writers;
    }
  }

  /** Keeps the invariant up to the first action that freezes the log, and names that action. */
  lemma {:induction false} RunKeeps(host: Host, s: State, actions: seq<Action>) returns (k: nat)
    requires host.ReadsJson() && Inv(host, s) && Typed(actions)
    ensures k <= |actions|
    ensures Inv(host, Run(host, s, actions[..k])) && Extends(host, s, Run(host, s, actions[..k]))
    ensures Terminated(s.text) && NoTornWrite(actions[..k]) ==> Terminated(Run(host, s, actions[..k]).text)
    ensures k < |actions| ==> Freezes(host, Run(host, s, actions[..k]), actions[k])
    ensures k < |actions| ==> Run(host, s, actions) == Step(host, Run(host, s, actions[..k]), actions[k])
    decreases |actions|
  {
    if actions == [] || Freezes(host, s, actions[0]) {
      k := 0;
      if actions != [] {
        FreezingStep(host, s, actions[0]);
        FrozenForever(host, Step(host, s, actions[0]), actions[1..]);
      }
    } else {
      StepKeeps(host, s, actions[0]);
      var j := RunKeeps(host, Step(host, s, actions[0]), actions[1..]);
      k := j + 1;
      RunFirst(host, s, actions, j);
      ExtendsFurther(host, s, Step(host, s, actions[0]), Run(host, s, actions[..k]));
    }
  }

  /** A prefix of a run begins with its first step. */
  lemma RunFirst(host: Host, s: State, actions: seq<Action>, j: nat)
    requires j < |actions|
    ensures Run(host, s, actions[..j + 1]) == Run(host, Step(host, s, actions[0]), actions[1..][..j])
    ensures NoTornWrite(actions[..j + 1]) ==> actions[0].Append? ==> !actions[0].fault.WriteFails?
    ensures NoTornWrite(actions[..j + 1]) ==> NoTornWrite(actions[1..][..j])
  {
    var front := actions[..j + 1];
    assert front[0] == actions[0] && front[1..] == actions[1..][..j];
    assert forall i :: 0 <= i < j ==> actions[1..][..j][i] == front[i + 1];
  }

  lemma ExtendsFurther(host: Host, s: State, t: State, u: State)
    requires Extends(host, s, t) && Extends(host, t, u)
    ensures Extends(host, s, u)
  {
  }

  /** A log before any writer opens it. */
  ghost predicate Init(host: Host, s: State) {
    Accepted(host, s.text) && s.writers == map[] && s.acks == [] && s.ackedAt == []
  }

  ghost predicate NoTornWrite(actions: seq<Action>) {
    forall i :: 0 <= i < |actions| && actions[i].Append? ==> !actions[i].fault.WriteFails?
  }

  /** Each acknowledged event occurs once in the chain, and they are pairwise different. */
  ghost predicate ExactlyOnce(events: seq<Event>, acks: seq<Event>, ackedAt: seq<nat>) {
    && AcksPlaced(events, acks, ackedAt)
    && (forall i, p :: 0 <= i < |acks| && 0 <= p < |events| && events[p] == acks[i] ==> p == ackedAt[i])
    && (forall i, j :: 0 <= i < j < |acks| ==> acks[i] != acks[j])
  }

  lemma EventsDistinct(host: Host, text: string, p: nat, q: nat)
    requires Accepted(host, text) && CollisionFree(host, AllHashedBytes(Events(host, text)))
    requires p < |Events(host, text)| && q < |Events(host, text)|
    requires Events(host, text)[p] == Events(host, text)[q]
    ensures p == q
  {
    ChainPositions(host, text, p + 1);
    assert HashAt(Events(host, text), q + 1) == HashAt(Events(host, text), p + 1);
  }

  lemma PlacedIsExactlyOnce(host: Host, text: string, acks: seq<Event>, ackedAt: seq<nat>)
    requires Accepted(host, text) && CollisionFree(host, AllHashedBytes(Events(host, text)))
    requires AcksPlaced(Events(host, text), acks, ackedAt)
    ensures ExactlyOnce(Events(host, text), acks, ackedAt)
  {
    var es := Events(host, text);
    forall i, p | 0 <= i < |acks| && 0 <= p < |es| && es[p] == acks[i]
      ensures p == ackedAt[i]
    {
      EventsDistinct(host, text, p, ackedAt[i]);
    }
  }

  /** The sound part of the file is one chain from the zero hash; each event returned to a caller
      is in it exactly once, linked to the hash before it. */
  ghost predicate WellLogged(host: Host, t: State) {
    && Verify(host, Sound(t.text)).Some?
    && var es := Events(host, Sound(t.text));
       && Chain(host, es, ZERO_HASH)
       && AcksPlaced(es, t.acks, t.ackedAt)
       && (forall i :: 0 <= i < |t.acks| ==> t.acks[i].prevHash == HashAt(es, t.ackedAt[i]))
       && (CollisionFree(host, AllHashedBytes(es)) ==> ExactlyOnce(es, t.acks, t.ackedAt))
  }

  lemma InvIsWellLogged(host: Host, t: State)
    requires Inv(host, t)
    ensures WellLogged(host, t)
  {
    SoundTerminated(t.text);
    var es := Events(host, Sound(t.text));
    VerifiedIsChain(host, Lines(Sound(t.text)), ZERO_HASH);
    if CollisionFree(host, AllHashedBytes(es)) {
      PlacedIsExactlyOnce(host, Sound(t.text), t.acks, t.ackedAt);
    }
  }

  /** Every run: up to some action the file grows by prefix extension and stays one verified chain.
      That action, if the run does not end there, writes a whole record whose details are too deep.
      It stops the log for good: later actions neither write nor return an event. */
  lemma EveryRun(host: Host, s: State, actions: seq<Action>) returns (k: nat)
    requires host.ReadsJson() && Init(host, s) && Typed(actions)
    ensures k <= |actions|
    ensures Extends(host, s, Run(host, s, actions[..k])) && WellLogged(host, Run(host, s, actions[..k]))
    ensures NoTornWrite(actions[..k]) ==> Accepted(host, Run(host, s, actions[..k]).text)
    ensures k < |actions| ==>
      var t := Run(host, s, actions[..k]);
      && Freezes(host, t, actions[k])
      && Run(host, s, actions) == Step(host, t, actions[k])
      && Frozen(host, Run(host, s, actions).text)
      && Run(host, s, actions).text
         == t.text + Record(Written(host, t.text, t.writers[actions[k].id], actions[k].event).value)
  {
    SoundTerminated(s.text);
    k := RunKeeps(host, s, actions);
    var t := Run(host, s, actions[..k]);
    SoundTerminated(t.text);
    InvIsWellLogged(host, t);
    if k < |actions| {
      FreezingStep(host, t, actions[k]);
    }
  }

  /** Concurrent appends: over every interleaving of opens and appends, failing or not, of events
      that are not nested too deep, the file grows by prefix extension and stays one verified
      chain, whole when no write was torn. */
  lemma ConcurrentAppends(host: Host, s: State, actions: seq<Action>)
    requires host.ReadsJson() && Init(host, s) && Typed(actions) && Shallow(actions)
    ensures Extends(host, s, Run(host, s, actions)) && WellLogged(host, Run(host, s, actions))
    ensures NoTornWrite(actions) ==> Accepted(host, Run(host, s, actions).text)
  {
    var k := EveryRun(host, s, actions);
    assert k == |actions|;
    assert actions[..k] == actions;
  }
}
