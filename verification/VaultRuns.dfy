/** What the methods of the vault do, seen as runs of the world of instances and locks: each call,
    finished or stopped after any of its file-system calls, is a short run, and over any sequence of
    calls the vault is a write-once map. */
module VaultRuns {
  import opened Options
  import opened VaultDisk
  import opened VaultFileSystem
  import opened VaultStorage
  import Storage = VaultStorage
  import opened VaultWorld

  /** The generation a rotation has published, and the vault it holds. */
  datatype Published = Published(name: string, dek: string, state: KeyState, v: Vault)

  /** A call of one instance and the disk it leaves. `ok` says that its change became visible. */
  datatype Call =
    | Opening(i: nat)
    | Closing(i: nat)
    | BlobWrite(i: nat, id: string, plaintext: string, nonce: nat, ok: bool, after: Disk)
    | DbWrite(i: nat, bytes: string, nonce: nat, ok: bool, after: Disk)
    /** `VAULT_IN_USE`. */
    | Refusal(i: nat)
    | Rotation(i: nat, published: Option<Published>, after: Disk)
    | Death

  /** The run a call amounts to. A process that dies inside a call makes the call up to there and then
      closes. */
  function Actions(call: Call): seq<Action> {
    match call
    case Opening(i) => [Action.OpenVault(i)]
    case Closing(i) => [Close(i)]
    case BlobWrite(i, id, plaintext, nonce, ok, after) =>
      (if ok then [Write(i, id, plaintext, nonce)] else []) + [Touch(i, after)]
    case DbWrite(i, bytes, nonce, ok, after) =>
      (if ok then [WriteDb(i, bytes, nonce)] else []) + [Touch(i, after)]
    case Refusal(i) => [Upgrade(i)]
    case Rotation(i, published, after) => [Upgrade(i), Turn(i, published, after), Downgrade(i)]
    case Death => [Crash]
  }

  function Turn(i: nat, published: Option<Published>, after: Disk): Action {
    match published
    case None => Touch(i, after)
    case Some(p) => Action.Swap(i, p.name, p.dek, p.state, p.v, after)
  }

  function AfterCall(c: Cipher, w: World, call: Call): World {
    RunTo(c, w, Actions(call), |Actions(call)|)
  }

  /** The call can happen in this world. */
  ghost predicate Happens(c: Cipher, w: World, call: Call) {
    && Runs(c, w, Actions(call), |Actions(call)|)
    && (call.BlobWrite? && call.ok ==> call.i in w.instances && Fits(w, call.i, call.id))
    && (call.Refusal? ==> w.locks.Keys != {call.i})
    && (call.Rotation? ==> w.locks.Keys == {call.i})
  }

  lemma OneAction(c: Cipher, w: World, a: Action)
    ensures RunTo(c, w, [a], 1) == After(c, w, a)
    ensures Runs(c, w, [a], 1) <==> Enabled(c, w, a)
  {
    assert RunTo(c, w, [a], 0) == w;
  }

  lemma TwoActions(c: Cipher, w: World, a: Action, b: Action)
    ensures RunTo(c, w, [a, b], 2) == After(c, After(c, w, a), b)
    ensures Runs(c, w, [a, b], 2) <==> Enabled(c, w, a) && Enabled(c, After(c, w, a), b)
  {
    assert RunTo(c, w, [a, b], 0) == w;
    assert RunTo(c, w, [a, b], 1) == After(c, w, a);
    assert Runs(c, w, [a, b], 1) <==> Enabled(c, w, a);
  }

  lemma ThreeActions(c: Cipher, w: World, a: Action, b: Action, d: Action)
    ensures RunTo(c, w, [a, b, d], 3) == After(c, After(c, After(c, w, a), b), d)
    ensures Runs(c, w, [a, b, d], 3)
      <==> Enabled(c, w, a) && Enabled(c, After(c, w, a), b) && Enabled(c, After(c, After(c, w, a), b), d)
  {
    var s := [a, b, d];
    assert RunTo(c, w, s, 0) == w;
    assert RunTo(c, w, s, 1) == After(c, w, a);
    assert RunTo(c, w, s, 2) == After(c, After(c, w, a), b);
    assert Runs(c, w, s, 1) <==> Enabled(c, w, a);
    assert Runs(c, w, s, 2) <==> Enabled(c, w, a) && Enabled(c, After(c, w, a), b);
  }

  lemma ThreeSteps(c: Cipher, w: World, call: Call, a: Action, w1: World, b: Action, w2: World, d: Action, w3: World)
    requires Actions(call) == [a, b, d]
    requires Enabled(c, w, a) && After(c, w, a) == w1
    requires Enabled(c, w1, b) && After(c, w1, b) == w2
    requires Enabled(c, w2, d) && After(c, w2, d) == w3
    ensures Runs(c, w, Actions(call), |Actions(call)|) && AfterCall(c, w, call) == w3
  {
    ThreeActions(c, w, a, b, d);
  }

  // ----- The calls as runs -----

  /** An item sealed into the open generation, then changes that opening does not see. */
  lemma StoreThenTouch(c: Cipher, w: World, i: nat, item: Item, plaintext: string, nonce: nat, d: Disk)
    requires i in w.instances && CoherentInstance(c, w, i)
    requires Alike(Holding(c, w.instances[i].dek, ViewOf(w.disk).value, item, nonce, plaintext), ViewOf(d))
    ensures Enabled(c, w.(disk := Stored(c, w, i, item, plaintext, nonce)), Touch(i, d))
  {
    var inst := w.instances[i];
    ViewWithFiles(w.disk, FilesAt(w.disk, inst.place)[
      item := Sealed(c, inst.dek, inst.cfg.encrypted, nonce, plaintext)]);
  }

  lemma BlobWriteHappens(c: Cipher, w: World, i: nat, id: string, plaintext: string, nonce: nat, ok: bool, d: Disk)
    requires i in w.instances && CoherentInstance(c, w, i) && (ok ==> Fits(w, i, id))
    requires var base := ViewOf(w.disk).value;
      Alike(if ok then Holding(c, w.instances[i].dek, base, Blob(id), nonce, plaintext) else base, ViewOf(d))
    ensures var call := BlobWrite(i, id, plaintext, nonce, ok, d);
      Happens(c, w, call) && AfterCall(c, w, call) == w.(disk := d)
  {
    if ok {
      StoreThenTouch(c, w, i, Blob(id), plaintext, nonce, d);
      TwoActions(c, w, Write(i, id, plaintext, nonce), Touch(i, d));
      assert [Write(i, id, plaintext, nonce)] + [Touch(i, d)] == [Write(i, id, plaintext, nonce), Touch(i, d)];
    } else {
      OneAction(c, w, Touch(i, d));
      assert [] + [Touch(i, d)] == [Touch(i, d)];
    }
  }

  lemma DbWriteHappens(c: Cipher, w: World, i: nat, bytes: string, nonce: nat, ok: bool, d: Disk)
    requires i in w.instances && CoherentInstance(c, w, i)
    requires var base := ViewOf(w.disk).value;
      Alike(if ok then Holding(c, w.instances[i].dek, base, Db, nonce, bytes) else base, ViewOf(d))
    ensures var call := DbWrite(i, bytes, nonce, ok, d);
      Happens(c, w, call) && AfterCall(c, w, call) == w.(disk := d)
  {
    if ok {
      OpenIsThere(w.disk);
      StoreThenTouch(c, w, i, Db, bytes, nonce, d);
      TwoActions(c, w, WriteDb(i, bytes, nonce), Touch(i, d));
      assert [WriteDb(i, bytes, nonce)] + [Touch(i, d)] == [WriteDb(i, bytes, nonce), Touch(i, d)];
    } else {
      OneAction(c, w, Touch(i, d));
      assert [] + [Touch(i, d)] == [Touch(i, d)];
    }
  }

  /** The world in the middle of a granted upgrade. */
  function Granted(w: World, i: nat): World {
    w.(locks := w.locks[i := Exclusive])
  }

  lemma TurnEnabled(c: Cipher, w: World, i: nat, published: Option<Published>, d: Disk)
    requires Settled(c, w) && i in w.instances && w.locks.Keys == {i} && ViewOf(d).Some?
    requires published.None? ==> ViewOf(d) == ViewOf(w.disk)
    requires published.Some? ==> Turns(c, w.instances[i], ViewOf(w.disk).value, ViewOf(d).value, published.value)
    ensures Enabled(c, Granted(w, i), Turn(i, published, d))
  {
    OpenIsThere(w.disk);
    OpenIsThere(d);
    assert Follows(c, w, i);
  }

  /** The new view is the complete published generation, elsewhere, with the vault of the old one. */
  ghost predicate Turns(c: Cipher, inst: Instance, base: View, view: View, p: Published) {
    && view == View(inst.cfg, base.kek, Generation(p.name), view.files) && inst.place != Generation(p.name)
    && Holds(c, inst.dek, inst.cfg.encrypted, base.files, p.v)
    && Complete(c, base.kek, inst.cfg.encrypted, view.files, p.state, p.dek, p.v)
    && p.state.storage == inst.keyState.storage
  }

  /** The world behind a rotation. */
  function TurnedWorld(w: World, i: nat, published: Option<Published>, d: Disk): World
    requires i in w.instances
  {
    match published
    case None => w.(disk := d)
    case Some(p) =>
      w.(disk := d, instances := w.instances[i := Instance(Generation(p.name), p.dek, w.instances[i].cfg, p.state)],
         epoch := w.epoch + 1, since := w.since[i := w.epoch + 1])
  }

  /** The new generation may be published, or nothing that opening sees has changed. */
  ghost predicate MayTurn(c: Cipher, w: World, i: nat, published: Option<Published>, view: Option<View>)
    requires i in w.instances && ViewOf(w.disk).Some?
  {
    match published
    case None => view == ViewOf(w.disk)
    case Some(p) => view.Some? && Turns(c, w.instances[i], ViewOf(w.disk).value, view.value, p)
  }

  lemma TurnSteps(c: Cipher, w: World, i: nat, published: Option<Published>, d: Disk)
    requires i in w.instances && w.locks.Keys == {i} && w.locks[i] == Shared
    ensures After(c, w, Upgrade(i)) == Granted(w, i)
    ensures After(c, Granted(w, i), Turn(i, published, d)) == Granted(TurnedWorld(w, i, published, d), i)
    ensures After(c, Granted(TurnedWorld(w, i, published, d), i), Downgrade(i)) == TurnedWorld(w, i, published, d)
  {
    assert w.locks[i := Exclusive][i := Shared] == w.locks;
  }

  lemma RotationHappens(c: Cipher, w: World, i: nat, published: Option<Published>, d: Disk)
    requires Settled(c, w) && i in w.instances && w.locks.Keys == {i} && w.locks[i] == Shared
    requires MayTurn(c, w, i, published, ViewOf(d))
    ensures Happens(c, w, Rotation(i, published, d))
    ensures AfterCall(c, w, Rotation(i, published, d)) == TurnedWorld(w, i, published, d)
  {
    TurnEnabled(c, w, i, published, d);
    TurnSteps(c, w, i, published, d);
    var w1, w3 := Granted(w, i), TurnedWorld(w, i, published, d);
    ThreeSteps(c, w, Rotation(i, published, d), Upgrade(i), w1, Turn(i, published, d), Granted(w3, i), Downgrade(i),
               w3);
  }

  lemma RotationSettles(c: Cipher, w: World, i: nat, published: Option<Published>, d: Disk)
    requires Settled(c, w) && i in w.instances && w.locks.Keys == {i} && w.locks[i] == Shared
    requires MayTurn(c, w, i, published, ViewOf(d))
    ensures Happens(c, w, Rotation(i, published, d))
    ensures var w' := AfterCall(c, w, Rotation(i, published, d));
      && Settled(c, w') && w'.disk == d && i in w'.instances && w'.locks == w.locks
      && w'.instances[i] == TurnedWorld(w, i, published, d).instances[i]
  {
    RotationHappens(c, w, i, published, d);
    CallSettled(c, w, Rotation(i, published, d));
  }

  // ----- The methods as calls -----

  /** The object is instance `i` of the world, on the world's disk, and holds its shared lock. */
  ghost predicate Mirrors(w: World, i: nat, vault: VaultStorage)
    reads vault, vault.fs
  {
    && vault.fs.Valid() && Settled(vault.cipher, w) && w.disk == vault.fs.disk
    && i in w.instances && w.instances[i] == vault.Memory() && w.locks[i] == Shared
  }

  lemma MirrorStores(w: World, i: nat, vault: VaultStorage, v: Vault)
    requires Mirrors(w, i, vault) && Represents(vault.cipher, w, v)
    ensures vault.Stores(v)
  {
    assert Follows(vault.cipher, w, i);
  }

  /** A blob write stopped where this view was exposed. */
  lemma BlobWriteStops(c: Cipher, w: World, i: nat, id: string, plaintext: string, nonce: nat, ok: bool,
                       before: Trace, published: nat, after: Trace, k: nat, d: Disk)
    requires i in w.instances && CoherentInstance(c, w, i) && (ok ==> Fits(w, i, id))
    requires before != [] && before[|before| - 1] == ViewOf(w.disk)
    requires var base := ViewOf(w.disk).value;
      AlikeThen(base, if ok then Holding(c, w.instances[i].dek, base, Blob(id), nonce, plaintext) else base,
                before, published, after)
    requires |before| - 1 <= k < |after| && ViewOf(d) == after[k]
    ensures Happens(c, w, BlobWrite(i, id, plaintext, nonce, ok && k >= published, d))
  {
    BlobWriteHappens(c, w, i, id, plaintext, nonce, ok && k >= published, d);
  }

  /** `write_blob` is a call, and so is every part of it that a death leaves. */
  method WriteBlob(vault: VaultStorage, ghost i: nat, id: string, plaintext: string, suffix: nat, ghost v: Vault,
                   ghost w: World)
    returns (ok: bool, ghost published: nat, ghost nonce: nat)
    requires Lawful(vault.cipher) && Mirrors(w, i, vault) && Represents(vault.cipher, w, v)
    modifies vault.fs
    ensures var call := BlobWrite(i, id, plaintext, nonce, ok, vault.fs.disk);
      Happens(vault.cipher, w, call) && Mirrors(AfterCall(vault.cipher, w, call), i, vault)
    ensures forall k, d :: |old(vault.fs.trace)| - 1 <= k < |vault.fs.trace| && ViewOf(d) == vault.fs.trace[k] ==>
      Happens(vault.cipher, w, BlobWrite(i, id, plaintext, nonce, ok && k >= published, d))
    ensures vault.fs.failures == old(vault.fs.failures)
            && Partial(id, suffix) !in old(FilesAt(w.disk, vault.generationRoot))
      ==> (ok <==> BlobIdText(id) && id !in v.blobs)
  {
    ghost var c, before := vault.cipher, vault.fs.trace;
    assert Follows(c, w, i);
    MirrorStores(w, i, vault, v);
    OpenIsThere(w.disk);
    NamesAre(id);
    ok, published, nonce := vault.WriteBlob(id, plaintext, suffix, v);
    assert ok ==> Fits(w, i, id);
    BlobWriteHappens(c, w, i, id, plaintext, nonce, ok, vault.fs.disk);
    CallSettled(c, w, BlobWrite(i, id, plaintext, nonce, ok, vault.fs.disk));
    forall k, d | |before| - 1 <= k < |vault.fs.trace| && ViewOf(d) == vault.fs.trace[k]
      ensures Happens(c, w, BlobWrite(i, id, plaintext, nonce, ok && k >= published, d))
    {
      BlobWriteStops(c, w, i, id, plaintext, nonce, ok, before, published, vault.fs.trace, k, d);
    }
  }

  lemma CallSettled(c: Cipher, w: World, call: Call)
    requires Settled(c, w) && Happens(c, w, call)
    ensures Settled(c, AfterCall(c, w, call))
  {
    RunSettled(c, w, Actions(call), |Actions(call)|);
  }

  /** `write_sqlite_bytes` is a call unless its write is torn; stopped in the middle it has either
      written or not. */
  method WriteSqliteBytes(vault: VaultStorage, ghost i: nat, bytes: string, ghost v: Vault, ghost w: World)
    returns (ok: bool, torn: bool, ghost nonce: nat)
    requires Lawful(vault.cipher) && Mirrors(w, i, vault) && Represents(vault.cipher, w, v)
    modifies vault.fs
    ensures !torn ==>
      var call := DbWrite(i, bytes, nonce, ok, vault.fs.disk);
      Happens(vault.cipher, w, call) && Mirrors(AfterCall(vault.cipher, w, call), i, vault)
    ensures !torn ==> vault.fs.trace == Observe(old(vault.fs.trace), ViewOf(vault.fs.disk))
    ensures torn ==> !ok && vault.fs.failures > old(vault.fs.failures)
  {
    ghost var c := vault.cipher;
    assert Follows(c, w, i);
    MirrorStores(w, i, vault, v);
    ok, torn, nonce := vault.WriteSqliteBytes(bytes, v);
    if !torn {
      DbWriteHappens(c, w, i, bytes, nonce, ok, vault.fs.disk);
      CallSettled(c, w, DbWrite(i, bytes, nonce, ok, vault.fs.disk));
    }
  }

  /** A rotation stopped where this view was exposed. */
  lemma RotationStops(c: Cipher, w: World, i: nat, published: Option<Published>, before: Trace, after: Trace,
                      k: nat, d: Disk)
    requires Settled(c, w) && i in w.instances && w.locks.Keys == {i} && w.locks[i] == Shared
    requires before != [] && before[|before| - 1] == ViewOf(w.disk)
    requires before <= after && |after| <= |before| + 1
    requires |after| > |before| ==> MayTurn(c, w, i, published, after[|before|])
    requires |before| - 1 <= k < |after| && ViewOf(d) == after[k]
    ensures Happens(c, w, Rotation(i, if k < |before| then None else published, d))
  {
    RotationHappens(c, w, i, if k < |before| then None else published, d);
  }

  /** `rotate_locked` publishes, if it does, what an exclusive holder may publish. */
  method RotateAlone(vault: VaultStorage, ghost i: nat, newKeyId: string, newDek: string, suffix: string,
                     temporary: string, ghost v: Vault, ghost w: World)
    returns (ok: bool, swapped: bool, ghost published: Option<Published>)
    requires Lawful(vault.cipher) && Mirrors(w, i, vault) && Represents(vault.cipher, w, v)
    requires |newDek| == DEK_LENGTH && Digits(suffix) && suffix != "0"
    modifies vault, vault.fs
    ensures vault.fs.Valid() && MayTurn(vault.cipher, w, i, published, ViewOf(vault.fs.disk))
    ensures vault.fs.trace == old(vault.fs.trace) + if swapped then [ViewOf(vault.fs.disk)] else []
    ensures published.Some? <==> swapped
    ensures vault.Memory() == TurnedWorld(w, i, published, vault.fs.disk).instances[i]
    ensures ok ==> swapped && vault.keyState.keyId == newKeyId
  {
    assert Follows(vault.cipher, w, i);
    MirrorStores(w, i, vault, v);
    ok, swapped := vault.RotateLocked(newKeyId, newDek, suffix, temporary, v);
    published := if swapped then Some(Published(PREFIX + suffix, newDek, vault.keyState, v)) else None;
  }

  lemma RefusalHappens(c: Cipher, w: World, i: nat)
    requires i in w.instances && i in w.locks && w.locks[i] == Shared && w.locks.Keys != {i}
    ensures Happens(c, w, Refusal(i)) && AfterCall(c, w, Refusal(i)) == w
  {
    OneAction(c, w, Upgrade(i));
  }

  /** `rotate_dek`: refused when another instance holds the lock, as `sole` says; otherwise the
      rotation, and the shared lock again. Stopped anywhere it is a rotation that has published the
      new generation or has not. */
  method RotateDek(vault: VaultStorage, ghost i: nat, sole: bool, newKeyId: string, newDek: string, suffix: string,
                   temporary: string, ghost v: Vault, ghost w: World)
    returns (ok: bool, swapped: bool, ghost call: Call)
    requires Lawful(vault.cipher) && Mirrors(w, i, vault) && Represents(vault.cipher, w, v)
    requires |newDek| == DEK_LENGTH && Digits(suffix) && suffix != "0" && (sole <==> w.locks.Keys == {i})
    modifies vault, vault.fs
    ensures Happens(vault.cipher, w, call) && Mirrors(AfterCall(vault.cipher, w, call), i, vault)
    ensures !sole ==> !ok && call == Refusal(i) && AfterCall(vault.cipher, w, call) == w
    ensures sole ==> call.Rotation? && call.i == i && call.after == vault.fs.disk && (swapped <==> call.published.Some?)
    ensures sole ==>
      forall k, d :: |old(vault.fs.trace)| - 1 <= k < |vault.fs.trace| && ViewOf(d) == vault.fs.trace[k] ==>
        Happens(vault.cipher, w, Rotation(i, if k < |old(vault.fs.trace)| then None else call.published, d))
    ensures ok ==> swapped && vault.keyState.keyId == newKeyId
  {
    ghost var c, before := vault.cipher, vault.fs.trace;
    if !sole {
      ok, swapped, call := false, false, Refusal(i);
      RefusalHappens(c, w, i);
      return;
    }
    ghost var published;
    ok, swapped, published := RotateAlone(vault, i, newKeyId, newDek, suffix, temporary, v, w);
    call := Rotation(i, published, vault.fs.disk);
    RotationSettles(c, w, i, published, vault.fs.disk);
    forall k, d | |before| - 1 <= k < |vault.fs.trace| && ViewOf(d) == vault.fs.trace[k]
      ensures Happens(c, w, Rotation(i, if k < |before| then None else published, d))
    {
      RotationStops(c, w, i, published, before, vault.fs.trace, k, d);
    }
  }

  /** `open`, when no file-system call fails, on a vault that nobody holds exclusively. */
  method OpenAs(fs: FileSystem, c: Cipher, ghost i: nat, ghost w: World) returns (done: bool, vault: VaultStorage?)
    requires fs.Valid() && Settled(c, w) && w.disk == fs.disk && Enabled(c, w, Action.OpenVault(i))
    modifies fs
    ensures fs.disk == old(fs.disk) && (done <==> vault != null) && Went(done, old(fs.failures), fs.failures)
    ensures done ==>
      && fresh(vault) && vault.fs == fs && vault.cipher == c
      && Happens(c, w, Opening(i)) && Mirrors(AfterCall(c, w, Opening(i)), i, vault)
  {
    var found;
    done, found := Storage.OpenVault(fs, c);
    vault := null;
    if done {
      vault := new VaultStorage(fs, c, found.value);
      OneAction(c, w, Action.OpenVault(i));
      CallSettled(c, w, Opening(i));
    }
  }

  // ----- Creation -----

  /** One instance that holds the vault it has created. */
  function NewWorld(d: Disk, i: nat, inst: Instance): World {
    World(d, map[i := Shared], map[i := inst], 0, map[i := 0])
  }

  /** A disk that nobody has open. */
  function ClosedWorld(d: Disk): World {
    World(d, map[], map[], 0, map[])
  }

  /** A view of creation that opens at all opens to the empty vault, and a run can start on it. */
  lemma FirstSettled(c: Cipher, birth: Birth, d: Disk)
    requires ViewOf(d).Some? && First(c, birth, ViewOf(d).value) && NoData(birth.files)
    ensures Settled(c, ClosedWorld(d)) && Represents(c, ClosedWorld(d), EMPTY_VAULT)
    ensures StoredIn(c, ClosedWorld(d), birth.storage)
  {
    FirstIsEmpty(c, birth, ViewOf(d).value);
  }

  /** A run can start here, on the empty vault and with this key storage. */
  ghost predicate BornWorld(c: Cipher, w: World, storage: KeyStorage) {
    Settled(c, w) && Represents(c, w, EMPTY_VAULT) && StoredIn(c, w, storage)
  }

  lemma NewSettled(c: Cipher, d: Disk, i: nat)
    requires Open(c, d).Some?
    ensures Settled(c, NewWorld(d, i, Open(c, d).value))
  {
    OpensWhereItResolves(c, d);
  }

  /** `create` in a directory without leftover data: what it returns starts a run on the empty vault,
      and whatever a death in it leaves either opens to nothing or starts such a run. */
  method CreateAs(fs: FileSystem, c: Cipher, ghost i: nat, cfg: Config, newKek: string, dek: string,
                  storage: KeyStorage, temporary: string, lockFree: bool)
    returns (result: CreateResult, vault: VaultStorage?)
    requires fs.Valid() && Lawful(c) && |dek| == DEK_LENGTH && NoData(FirstFiles(fs.disk))
    modifies fs
    ensures vault != null <==> result == Created
    ensures result == Created ==>
      && fresh(vault) && vault.fs == fs && vault.cipher == c && vault.dek == dek && vault.cfg == cfg
      && Mirrors(NewWorld(fs.disk, i, vault.Memory()), i, vault)
      && Represents(c, NewWorld(fs.disk, i, vault.Memory()), EMPTY_VAULT)
      && StoredIn(c, NewWorld(fs.disk, i, vault.Memory()), storage)
    ensures forall k, d :: |old(fs.trace)| <= k < |fs.trace| && ViewOf(d) == fs.trace[k] ==>
      ViewOf(d).None? || BornWorld(c, ClosedWorld(d), storage)
  {
    ghost var birth, before := BirthAt(fs.disk, newKek, storage), fs.trace;
    result := CreateVault(fs, c, cfg, newKek, dek, storage, temporary, lockFree);
    vault := null;
    if result == Created {
      vault := new VaultStorage(fs, c, Open(c, fs.disk).value);
      NewSettled(c, fs.disk, i);
      FirstSettled(c, birth, fs.disk);
    }
    forall k, d | |before| <= k < |fs.trace| && ViewOf(d) == fs.trace[k]
      ensures ViewOf(d).None? || BornWorld(c, ClosedWorld(d), storage)
    {
      if ViewOf(d).Some? {
        FirstSettled(c, birth, d);
      }
    }
  }

  // ----- Sequences of calls -----

  function CallsTo(c: Cipher, w: World, calls: seq<Call>, n: nat): World
    requires n <= |calls|
  {
    if n == 0 then w else AfterCall(c, CallsTo(c, w, calls, n - 1), calls[n - 1])
  }

  ghost predicate CallsHappen(c: Cipher, w: World, calls: seq<Call>, n: nat)
    requires n <= |calls|
  {
    n == 0 || (CallsHappen(c, w, calls, n - 1) && Happens(c, CallsTo(c, w, calls, n - 1), calls[n - 1]))
  }

  /** What a call does to the abstract vault. */
  function AbstractCall(v: Vault, call: Call): Vault {
    match call
    case BlobWrite(_, id, plaintext, _, ok, _) => if ok then PutBlob(v, id, plaintext) else v
    case DbWrite(_, bytes, _, ok, _) => if ok then v.(db := Some(bytes)) else v
    case _ => v
  }

  function AbstractCalls(v: Vault, calls: seq<Call>, n: nat): Vault
    requires n <= |calls|
  {
    if n == 0 then v else AbstractCall(AbstractCalls(v, calls, n - 1), calls[n - 1])
  }

  /** A blob is written only under a valid id that is free. */
  predicate FreeWrite(v: Vault, call: Call) {
    call.BlobWrite? && call.ok ==> ValidBlobId(call.id) && call.id !in v.blobs
  }

  lemma AbstractActions(v: Vault, call: Call)
    requires FreeWrite(v, call)
    ensures AbstractTo(v, Actions(call), |Actions(call)|) == AbstractCall(v, call)
  {
    var actions := Actions(call);
    assert AbstractTo(v, actions, 0) == v;
    assert AbstractTo(v, actions, 1) == Abstract(v, actions[0]);
    if |actions| > 1 {
      assert AbstractTo(v, actions, 2) == Abstract(Abstract(v, actions[0]), actions[1]);
    }
  }

  /** A call does to the represented vault what it does to the abstract one. */
  lemma CallRefines(c: Cipher, w: World, v: Vault, call: Call)
    requires Lawful(c) && Settled(c, w) && Represents(c, w, v) && Happens(c, w, call)
    ensures Settled(c, AfterCall(c, w, call)) && Represents(c, AfterCall(c, w, call), AbstractCall(v, call))
    ensures FreeWrite(v, call)
  {
    if call.BlobWrite? && call.ok {
      assert Follows(c, w, call.i);
      WriteRefines(c, w, v, call.i, call.id, call.plaintext, call.nonce);
    }
    CallSettled(c, w, call);
    RunRefines(c, w, v, Actions(call), |Actions(call)|);
    AbstractActions(v, call);
  }

  /** Over every sequence of calls, stopped ones included, the disk opens with the key storage the
      vault was created with. */
  lemma {:induction false} CallsStorage(c: Cipher, w: World, calls: seq<Call>, n: nat, storage: KeyStorage)
    requires StoredIn(c, w, storage) && n <= |calls| && CallsHappen(c, w, calls, n)
    ensures StoredIn(c, CallsTo(c, w, calls, n), storage)
  {
    if n > 0 {
      CallsStorage(c, w, calls, n - 1, storage);
      CallStorage(c, CallsTo(c, w, calls, n - 1), calls[n - 1], storage);
    }
  }

  lemma CallStorage(c: Cipher, w: World, call: Call, storage: KeyStorage)
    requires StoredIn(c, w, storage) && Happens(c, w, call)
    ensures StoredIn(c, AfterCall(c, w, call), storage)
  {
    RunStorage(c, w, Actions(call), |Actions(call)|, storage);
  }

  /** The call wrote this id. */
  predicate Wrote(call: Call, id: string) {
    call.BlobWrite? && call.ok && call.id == id
  }

  /** Whenever one of the first calls writes an id, the id is free. */
  ghost predicate FreeWrites(v: Vault, calls: seq<Call>, n: nat)
    requires n <= |calls|
  {
    n == 0 || (FreeWrites(v, calls, n - 1) && FreeWrite(AbstractCalls(v, calls, n - 1), calls[n - 1]))
  }

  lemma NextCall(c: Cipher, w: World, v: Vault, calls: seq<Call>, n: nat)
    requires 0 < n <= |calls|
    ensures CallsTo(c, w, calls, n) == AfterCall(c, CallsTo(c, w, calls, n - 1), calls[n - 1])
    ensures AbstractCalls(v, calls, n) == AbstractCall(AbstractCalls(v, calls, n - 1), calls[n - 1])
    ensures FreeWrites(v, calls, n)
      <==> FreeWrites(v, calls, n - 1) && FreeWrite(AbstractCalls(v, calls, n - 1), calls[n - 1])
  {
  }

  /** Over every sequence of calls the world stays settled, the disk opens to what the abstract calls
      have made, and no id is written twice. */
  lemma {:induction false} CallsRefine(c: Cipher, w: World, v: Vault, calls: seq<Call>, n: nat)
    requires Lawful(c) && Settled(c, w) && Represents(c, w, v) && n <= |calls| && CallsHappen(c, w, calls, n)
    ensures Settled(c, CallsTo(c, w, calls, n)) && Represents(c, CallsTo(c, w, calls, n), AbstractCalls(v, calls, n))
    ensures FreeWrites(v, calls, n)
  {
    if n > 0 {
      CallsRefine(c, w, v, calls, n - 1);
      CallRefines(c, CallsTo(c, w, calls, n - 1), AbstractCalls(v, calls, n - 1), calls[n - 1]);
      NextCall(c, w, v, calls, n);
    }
  }

  /** What is there stays as it is, and is not written again. */
  lemma {:induction false} CallsKeep(v: Vault, calls: seq<Call>, k: nat, n: nat, id: string)
    requires k <= n <= |calls| && FreeWrites(v, calls, n) && id in AbstractCalls(v, calls, k).blobs
    ensures id in AbstractCalls(v, calls, n).blobs
    ensures AbstractCalls(v, calls, n).blobs[id] == AbstractCalls(v, calls, k).blobs[id]
    ensures forall j :: k <= j < n ==> !Wrote(calls[j], id)
  {
    if k < n {
      CallsKeep(v, calls, k, n - 1, id);
    }
  }

  lemma {:induction false} CallsOrigin(v: Vault, calls: seq<Call>, n: nat, id: string)
    requires n <= |calls|
    ensures id in AbstractCalls(v, calls, n).blobs
      ==> id in v.blobs || exists k :: 0 <= k < n && Wrote(calls[k], id)
  {
    if n > 0 {
      CallsOrigin(v, calls, n - 1, id);
      if id in AbstractCalls(v, calls, n).blobs && id !in AbstractCalls(v, calls, n - 1).blobs {
        assert Wrote(calls[n - 1], id);
      }
    }
  }

  lemma {:induction false} FreeShorter(v: Vault, calls: seq<Call>, m: nat, n: nat)
    requires m <= n <= |calls| && FreeWrites(v, calls, n)
    ensures FreeWrites(v, calls, m)
  {
    if m < n {
      FreeShorter(v, calls, m, n - 1);
    }
  }

  /** An id that a call wrote was not there at the start, is written by no other call, and holds its
      plaintext at the end. */
  lemma WrittenOnce(v: Vault, calls: seq<Call>, n: nat, k: nat, id: string)
    requires k < n <= |calls| && FreeWrites(v, calls, n) && Wrote(calls[k], id)
    ensures id !in v.blobs && id in AbstractCalls(v, calls, n).blobs
    ensures AbstractCalls(v, calls, n).blobs[id] == calls[k].plaintext
    ensures forall j :: 0 <= j < n && Wrote(calls[j], id) ==> j == k
  {
    FreeShorter(v, calls, k + 1, n);
    FreeShorter(v, calls, k, n);
    CallsKeep(v, calls, k + 1, n, id);
    if id in v.blobs {
      CallsKeep(v, calls, 0, k, id);
    }
    forall j | 0 <= j < n && Wrote(calls[j], id) ensures j == k {
      if j < k {
        FreeShorter(v, calls, j + 1, n);
        CallsKeep(v, calls, j + 1, n, id);
      }
    }
  }

  /** The bytes an id holds behind a sequence of calls. */
  ghost predicate HeldAfter(v: Vault, calls: seq<Call>, id: string, held: Option<string>) {
    && (held.Some? <==> id in v.blobs || exists k :: 0 <= k < |calls| && Wrote(calls[k], id))
    && (id in v.blobs ==> held == Some(v.blobs[id]))
    && (forall k :: 0 <= k < |calls| && Wrote(calls[k], id) ==> held == Some(calls[k].plaintext))
    && (forall j, k :: 0 <= j < |calls| && 0 <= k < |calls| && Wrote(calls[j], id) && Wrote(calls[k], id) ==> j == k)
  }

  lemma CallsHold(v: Vault, calls: seq<Call>, id: string)
    requires FreeWrites(v, calls, |calls|)
    ensures var after := AbstractCalls(v, calls, |calls|);
      HeldAfter(v, calls, id, if id in after.blobs then Some(after.blobs[id]) else None)
  {
    CallsOrigin(v, calls, |calls|, id);
    if id in v.blobs {
      CallsKeep(v, calls, 0, |calls|, id);
    }
    forall k | 0 <= k < |calls| && Wrote(calls[k], id)
      ensures id in AbstractCalls(v, calls, |calls|).blobs
      ensures AbstractCalls(v, calls, |calls|).blobs[id] == calls[k].plaintext
      ensures forall j :: 0 <= j < |calls| && Wrote(calls[j], id) ==> j == k
    {
      WrittenOnce(v, calls, |calls|, k, id);
    }
  }

  /** Write once, for the methods: after any sequence of calls, `read_blob` of any open instance
      returns exactly the bytes of the single successful `write_blob` of that id, or what the vault
      held under it at the start, or nothing. */
  method ReadAfterCalls(vault: VaultStorage, ghost i: nat, id: string, ghost w: World, ghost v: Vault,
                        ghost calls: seq<Call>)
    returns (done: bool, plaintext: Option<string>)
    requires Lawful(vault.cipher) && Settled(vault.cipher, w) && Represents(vault.cipher, w, v)
    requires CallsHappen(vault.cipher, w, calls, |calls|)
    requires Mirrors(CallsTo(vault.cipher, w, calls, |calls|), i, vault) && BlobIdText(id)
    modifies vault.fs
    ensures Mirrors(CallsTo(vault.cipher, w, calls, |calls|), i, vault)
    ensures Went(done, old(vault.fs.failures), vault.fs.failures)
    ensures done ==> HeldAfter(v, calls, id, plaintext)
  {
    ghost var last, after := CallsTo(vault.cipher, w, calls, |calls|), AbstractCalls(v, calls, |calls|);
    CallsRefine(vault.cipher, w, v, calls, |calls|);
    MirrorStores(last, i, vault, after);
    done, plaintext := vault.ReadBlob(id, after);
    CallsHold(v, calls, id);
  }
}
