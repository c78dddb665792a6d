/** Several instances on one vault, their locks, crashes, and what a run of them means. */
module VaultWorld {
  import opened Options
  import opened Strings
  import opened VaultDisk

  datatype Mode = Shared | Exclusive

  /** The disk, who holds the lock how, and the open instances. `epoch` counts the published rotations
      and `since` remembers the count at which an instance last took over a generation. */
  datatype World = World(disk: Disk, locks: map<nat, Mode>, instances: map<nat, Instance>,
                         epoch: nat, since: map<nat, nat>)

  datatype Action =
    /** `open`: waits until nobody holds the lock exclusively, takes it shared, and loads. */
    | OpenVault(i: nat)
    | Close(i: nat)
    /** A change of interrupted writes, or of a directory that opening does not see. */
    | Touch(i: nat, after: Disk)
    /** The hard link that publishes a blob. */
    | Write(i: nat, id: string, plaintext: string, nonce: nat)
    | WriteDb(i: nat, plaintext: string, nonce: nat)
    /** `lock_exclusive_for_rotation` as one step. */
    | Upgrade(i: nat)
    | Downgrade(i: nat)
    /** The pointer swap of a rotation that has prepared a complete generation for vault `v`. */
    | Swap(i: nat, name: string, dek: string, state: KeyState, v: Vault, after: Disk)
    | Crash
    /** The two halves of `lock_exclusive_for_rotation`. */
    | Unlock(i: nat)
    | TryLock(i: nat)

  predicate Exists(d: Disk, place: Place) {
    place.Flat? || place.name in d.gens
  }

  /** The write finds its directory, a valid id, and the name free. */
  predicate Fits(w: World, i: nat, id: string)
    requires i in w.instances
  {
    && Exists(w.disk, w.instances[i].place) && ValidBlobId(id)
    && Blob(id) !in FilesAt(w.disk, w.instances[i].place)
  }

  function Stored(c: Cipher, w: World, i: nat, item: Item, plaintext: string, nonce: nat): Disk
    requires i in w.instances
  {
    var inst := w.instances[i];
    WithFiles(w.disk, inst.place,
              FilesAt(w.disk, inst.place)[item := Sealed(c, inst.dek, inst.cfg.encrypted, nonce, plaintext)])
  }

  /** When an action can happen. Reading and writing ask for no lock: an instance that could not take
      its shared lock back stays usable. */
  ghost predicate Enabled(c: Cipher, w: World, a: Action) {
    match a
    case OpenVault(i) => i !in w.instances && i !in w.locks && forall j :: j in w.locks ==> w.locks[j] == Shared
    case Close(i) => i in w.instances
    case Touch(i, after) =>
      && i in w.instances && ViewOf(w.disk).Some? && ViewOf(after).Some?
      && ViewOf(after).value == ViewOf(w.disk).value.(files := ViewOf(after).value.files)
      && SameData(ViewOf(w.disk).value.files, ViewOf(after).value.files)
    case Write(i, _, _, _) => i in w.instances
    case WriteDb(i, _, _) => i in w.instances
    case Upgrade(i) => i in w.instances && i in w.locks && w.locks[i] == Shared
    case Downgrade(i) => i in w.locks && w.locks[i] == Exclusive
    case Swap(i, name, dek, state, v, after) =>
      && i in w.instances && i in w.locks && w.locks[i] == Exclusive && ViewOf(w.disk).Some?
      && Exists(w.disk, w.instances[i].place) && state.storage == w.instances[i].keyState.storage
      && (forall j :: j in w.instances ==> w.instances[j].place != Generation(name))
      && Holds(c, w.instances[i].dek, w.instances[i].cfg.encrypted, FilesAt(w.disk, w.instances[i].place), v)
      && name in after.gens
      && ViewOf(after) == Some(View(w.instances[i].cfg, ViewOf(w.disk).value.kek, Generation(name), after.gens[name]))
      && Complete(c, ViewOf(w.disk).value.kek, w.instances[i].cfg.encrypted, after.gens[name], state, dek, v)
    case Crash => true
    case Unlock(i) => i in w.instances && i in w.locks && w.locks[i] == Shared
    case TryLock(i) => i in w.instances && i !in w.locks && forall j :: j in w.locks ==> w.locks[j] == Shared
  }

  /** The world after an action. */
  function After(c: Cipher, w: World, a: Action): World {
    match a
    case OpenVault(i) =>
      var found := Open(c, w.disk);
      if found.None? then w
      else w.(locks := w.locks[i := Shared], instances := w.instances[i := found.value],
              since := w.since[i := w.epoch])
    case Close(i) => w.(locks := w.locks - {i}, instances := w.instances - {i}, since := w.since - {i})
    case Touch(_, after) => w.(disk := after)
    case Write(i, id, plaintext, nonce) =>
      if i in w.instances && Fits(w, i, id) then w.(disk := Stored(c, w, i, Blob(id), plaintext, nonce)) else w
    case WriteDb(i, plaintext, nonce) =>
      if i in w.instances && Exists(w.disk, w.instances[i].place) then
        w.(disk := Stored(c, w, i, Db, plaintext, nonce))
      else w
    case Upgrade(i) => if w.locks.Keys == {i} then w.(locks := w.locks[i := Exclusive]) else w
    case Downgrade(i) => w.(locks := w.locks[i := Shared])
    case Swap(i, name, dek, state, _, after) =>
      if i !in w.instances then w
      else w.(disk := after, instances := w.instances[i := Instance(Generation(name), dek, w.instances[i].cfg, state)],
              epoch := w.epoch + 1, since := w.since[i := w.epoch + 1])
    case Crash => w.(locks := map[], instances := map[], since := map[])
    case Unlock(i) => w.(locks := w.locks - {i})
    case TryLock(i) => w.(locks := w.locks[i := if w.locks == map[] then Exclusive else Shared])
  }

  // ----- What the actions keep -----

  ghost predicate CoherentInstance(c: Cipher, w: World, i: nat)
    requires i in w.instances
  {
    Open(c, w.disk) == Some(w.instances[i])
  }

  /** An exclusive holder is alone. */
  predicate Exclusion(locks: map<nat, Mode>) {
    forall i :: i in locks && locks[i] == Exclusive ==> locks.Keys == {i}
  }

  /** The instance lives in the active generation: a test that needs no key. */
  predicate Current(w: World, i: nat)
    requires i in w.instances
  {
    Resolve(w.disk) == Some(w.instances[i].place)
  }

  /** The instance has the latest rotation, agrees with the disk, and lives in the active generation; or
      it has not, does not, and lives elsewhere. */
  ghost predicate Follows(c: Cipher, w: World, i: nat)
    requires i in w.instances && i in w.since
  {
    && w.since[i] <= w.epoch
    && (CoherentInstance(c, w, i) <==> w.since[i] == w.epoch)
    && (CoherentInstance(c, w, i) <==> Current(w, i))
  }

  /** The disk opens, the locks exclude each other, and an instance agrees with the disk exactly if no
      rotation has been published since it last took over a generation. */
  ghost predicate Tracked(c: Cipher, w: World) {
    && Open(c, w.disk).Some? && Exclusion(w.locks)
    && w.locks.Keys <= w.instances.Keys == w.since.Keys
    && forall i :: i in w.instances ==> Follows(c, w, i)
  }

  lemma StoreOpens(c: Cipher, d: Disk, place: Place, item: Item, content: Content)
    requires ViewOf(d).Some? && Exists(d, place) && (item.Blob? || item.Db?)
    ensures Open(c, WithFiles(d, place, FilesAt(d, place)[item := content])) == Open(c, d)
  {
    var files := FilesAt(d, place)[item := content];
    if place == ViewOf(d).value.place {
      ViewWithFiles(d, files);
    } else {
      StoreElsewhere(d, place, files);
    }
  }

  lemma StoreElsewhere(d: Disk, place: Place, files: Files)
    requires ViewOf(d).Some? && Exists(d, place) && place != ViewOf(d).value.place
    ensures ViewOf(WithFiles(d, place, files)) == ViewOf(d)
  {
  }

  lemma SwapOpens(c: Cipher, w: World, a: Action)
    requires a.Swap? && Enabled(c, w, a)
    ensures Open(c, After(c, w, a).disk) == Some(After(c, w, a).instances[a.i])
    ensures Open(c, After(c, w, a).disk).value.place == Generation(a.name)
  {
    OpensComplete(c, a.after, ViewOf(a.after).value, a.state, a.dek, a.v);
  }

  /** Every action but a swap leaves what opening finds. */
  lemma OpensAsBefore(c: Cipher, w: World, a: Action)
    requires Open(c, w.disk).Some? && Enabled(c, w, a) && !a.Swap?
    ensures Open(c, After(c, w, a).disk) == Open(c, w.disk)
  {
    match a
    case Touch(i, after) =>
      SameDataOpens(c, ViewOf(w.disk).value, ViewOf(after).value.files, "", Vault(map[], None));
    case Write(i, id, plaintext, nonce) =>
      if Fits(w, i, id) {
        var inst := w.instances[i];
        StoreOpens(c, w.disk, inst.place, Blob(id), Sealed(c, inst.dek, inst.cfg.encrypted, nonce, plaintext));
      }
    case WriteDb(i, plaintext, nonce) =>
      var inst := w.instances[i];
      if Exists(w.disk, inst.place) {
        StoreOpens(c, w.disk, inst.place, Db, Sealed(c, inst.dek, inst.cfg.encrypted, nonce, plaintext));
      }
    case _ =>
  }

  lemma ExclusionKept(c: Cipher, w: World, a: Action)
    requires Exclusion(w.locks) && Enabled(c, w, a)
    ensures Exclusion(After(c, w, a).locks)
  {
    match a
    case OpenVault(i) => assert forall j :: j in w.locks ==> w.locks[j] == Shared;
    case TryLock(i) =>
    case _ =>
  }

  lemma OpensWhereItResolves(c: Cipher, d: Disk)
    requires Open(c, d).Some?
    ensures Resolve(d) == Some(Open(c, d).value.place)
  {
  }

  /** A swap takes one instance along and leaves the others behind. */
  lemma SwapTracked(c: Cipher, w: World, a: Action)
    requires a.Swap? && Tracked(c, w) && Enabled(c, w, a)
    ensures var w' := After(c, w, a); forall j :: j in w'.instances ==> j in w'.since && Follows(c, w', j)
  {
    var w' := After(c, w, a);
    SwapOpens(c, w, a);
    OpensWhereItResolves(c, w'.disk);
    forall j | j in w'.instances ensures j in w'.since && Follows(c, w', j) {
      if j != a.i {
        assert Follows(c, w, j) && w.instances[j].place != Generation(a.name);
      }
    }
  }

  lemma OthersTracked(c: Cipher, w: World, a: Action)
    requires !a.Swap? && Tracked(c, w) && Enabled(c, w, a)
    ensures var w' := After(c, w, a);
      && Open(c, w'.disk) == Open(c, w.disk)
      && forall j :: j in w'.instances ==> j in w'.since && Follows(c, w', j)
  {
    var w' := After(c, w, a);
    OpensAsBefore(c, w, a);
    OpensWhereItResolves(c, w.disk);
    OpensWhereItResolves(c, w'.disk);
    forall j | j in w'.instances ensures j in w'.since && Follows(c, w', j) {
      if j in w.instances {
        assert Follows(c, w, j);
      }
    }
  }

  /** Every action keeps a world tracked. */
  lemma TrackedKept(c: Cipher, w: World, a: Action)
    requires Tracked(c, w) && Enabled(c, w, a)
    ensures Tracked(c, After(c, w, a))
  {
    var w' := After(c, w, a);
    ExclusionKept(c, w, a);
    if a.Swap? {
      SwapOpens(c, w, a);
      SwapTracked(c, w, a);
    } else {
      OthersTracked(c, w, a);
    }
  }

  // ----- Runs -----

  function RunTo(c: Cipher, w: World, actions: seq<Action>, n: nat): World
    requires n <= |actions|
  {
    if n == 0 then w else After(c, RunTo(c, w, actions, n - 1), actions[n - 1])
  }

  /** The first actions can happen one after the other. */
  ghost predicate Runs(c: Cipher, w: World, actions: seq<Action>, n: nat)
    requires n <= |actions|
  {
    n == 0 || (Runs(c, w, actions, n - 1) && Enabled(c, RunTo(c, w, actions, n - 1), actions[n - 1]))
  }

  /** At every point of every run the locks exclude each other, and an instance is coherent exactly if
      no rotation has been published since it opened or rotated last. */
  lemma {:induction false} RunTracked(c: Cipher, w: World, actions: seq<Action>, n: nat)
    requires Tracked(c, w) && n <= |actions| && Runs(c, w, actions, n)
    ensures Tracked(c, RunTo(c, w, actions, n))
  {
    if n > 0 {
      RunTracked(c, w, actions, n - 1);
      TrackedKept(c, RunTo(c, w, actions, n - 1), actions[n - 1]);
    }
  }

  // ----- The upgrade of the lock as one step -----

  /** Every instance holds the lock and is coherent. */
  ghost predicate Settled(c: Cipher, w: World) {
    && Tracked(c, w) && w.locks.Keys == w.instances.Keys
    && forall i :: i in w.instances ==> w.since[i] == w.epoch
  }

  predicate Atomic(actions: seq<Action>) {
    forall k :: 0 <= k < |actions| ==> !actions[k].Unlock?
  }

  lemma SettledKept(c: Cipher, w: World, a: Action)
    requires Settled(c, w) && Enabled(c, w, a) && !a.Unlock?
    ensures Settled(c, After(c, w, a))
  {
    TrackedKept(c, w, a);
    LocksKept(c, w, a);
    if a.Swap? {
      assert w.locks.Keys == {a.i};
    }
  }

  lemma LocksKept(c: Cipher, w: World, a: Action)
    requires Enabled(c, w, a) && !a.Unlock? && w.locks.Keys == w.instances.Keys
    ensures After(c, w, a).locks.Keys == After(c, w, a).instances.Keys
  {
  }

  /** With the upgrade as one step, at every point of every run all instances are coherent. */
  lemma {:induction false} RunSettled(c: Cipher, w: World, actions: seq<Action>, n: nat)
    requires Settled(c, w) && n <= |actions| && Runs(c, w, actions, n) && Atomic(actions)
    ensures Settled(c, RunTo(c, w, actions, n))
  {
    if n > 0 {
      RunSettled(c, w, actions, n - 1);
      SettledKept(c, RunTo(c, w, actions, n - 1), actions[n - 1]);
    }
  }

  /** The upgrade in one step is what the code's two steps make when nothing comes between them: the
      lock is granted exactly to a sole holder, and a refusal leaves the world as it was. */
  lemma UpgradeExactly(c: Cipher, w: World, i: nat)
    requires Enabled(c, w, Upgrade(i)) && Exclusion(w.locks)
    ensures var unlocked := After(c, w, Unlock(i));
      && Enabled(c, w, Unlock(i)) && Enabled(c, unlocked, TryLock(i))
      && After(c, unlocked, TryLock(i)) == After(c, w, Upgrade(i))
    ensures var w' := After(c, w, Upgrade(i));
      if exists j :: j in w.locks && j != i then w' == w
      else w'.locks == map[i := Exclusive] && w'.disk == w.disk && w'.instances == w.instances
  {
    var rest := w.locks - {i};
    if j :| j in w.locks && j != i {
      assert j in rest;
      assert rest[i := Shared] == w.locks;
    } else {
      assert w.locks.Keys == {i};
      assert rest == map[];
      assert w.locks[i := Exclusive] == rest[i := Exclusive] == map[i := Exclusive];
    }
  }

  // ----- The abstract vault -----

  /** The disk opens to this vault. */
  ghost predicate Represents(c: Cipher, w: World, v: Vault) {
    && Open(c, w.disk).Some?
    && var i := Open(c, w.disk).value; Holds(c, i.dek, i.cfg.encrypted, ViewOf(w.disk).value.files, v)
  }

  /** A write the abstract map takes. */
  predicate Accepts(v: Vault, a: Action) {
    a.Write? && ValidBlobId(a.id) && a.id !in v.blobs
  }

  /** What an action does to the abstract vault: a new blob, a new database, or nothing. */
  function Abstract(v: Vault, a: Action): Vault {
    if Accepts(v, a) then PutBlob(v, a.id, a.plaintext)
    else if a.WriteDb? then v.(db := Some(a.plaintext))
    else v
  }

  lemma HoldsOne(c: Cipher, dek: string, encrypted: bool, files: Files, v1: Vault, v2: Vault)
    requires Holds(c, dek, encrypted, files, v1) && Holds(c, dek, encrypted, files, v2)
    ensures v1 == v2
  {
    assert forall id :: id in v1.blobs <==> Blob(id) in files;
    assert forall id :: id in v2.blobs <==> Blob(id) in files;
    assert v1.blobs == v2.blobs;
  }

  lemma WriteRefines(c: Cipher, w: World, v: Vault, i: nat, id: string, plaintext: string, nonce: nat)
    requires Lawful(c) && Represents(c, w, v) && i in w.instances && CoherentInstance(c, w, i)
    ensures Fits(w, i, id) <==> ValidBlobId(id) && id !in v.blobs
    ensures Represents(c, After(c, w, Write(i, id, plaintext, nonce)), Abstract(v, Write(i, id, plaintext, nonce)))
  {
    if Fits(w, i, id) {
      var inst := w.instances[i];
      AddBlob(c, ViewOf(w.disk).value, inst.dek, v, id, nonce, plaintext);
      ViewWithFiles(w.disk, FilesAt(w.disk, inst.place)[
        Blob(id) := Sealed(c, inst.dek, inst.cfg.encrypted, nonce, plaintext)]);
    }
  }

  lemma WriteDbRefines(c: Cipher, w: World, v: Vault, i: nat, plaintext: string, nonce: nat)
    requires Lawful(c) && Represents(c, w, v) && i in w.instances && CoherentInstance(c, w, i)
    ensures Represents(c, After(c, w, WriteDb(i, plaintext, nonce)), v.(db := Some(plaintext)))
  {
    var inst := w.instances[i];
    ReplaceDb(c, ViewOf(w.disk).value, inst.dek, v, nonce, plaintext);
    ViewWithFiles(w.disk, FilesAt(w.disk, inst.place)[
      Db := Sealed(c, inst.dek, inst.cfg.encrypted, nonce, plaintext)]);
  }

  lemma SwapRefines(c: Cipher, w: World, v: Vault, a: Action)
    requires a.Swap? && Enabled(c, w, a) && Represents(c, w, v) && CoherentInstance(c, w, a.i)
    ensures Represents(c, After(c, w, a), v)
  {
    var inst := w.instances[a.i];
    HoldsOne(c, inst.dek, inst.cfg.encrypted, ViewOf(w.disk).value.files, v, a.v);
    OpensComplete(c, a.after, ViewOf(a.after).value, a.state, a.dek, a.v);
  }

  lemma TouchRefines(c: Cipher, w: World, v: Vault, a: Action)
    requires a.Touch? && Enabled(c, w, a) && Represents(c, w, v)
    ensures Represents(c, After(c, w, a), v)
  {
    var inst := Open(c, w.disk).value;
    SameDataOpens(c, ViewOf(w.disk).value, ViewOf(a.after).value.files, inst.dek, v);
  }

  /** Every action of a coherent instance does to the represented vault what it does to the abstract
      one. */
  lemma CoherentStepRefines(c: Cipher, w: World, v: Vault, a: Action)
    requires Lawful(c) && Tracked(c, w) && Enabled(c, w, a) && Represents(c, w, v)
    requires a.Write? || a.WriteDb? || a.Swap? ==> CoherentInstance(c, w, a.i)
    ensures Represents(c, After(c, w, a), Abstract(v, a))
  {
    match a
    case Write(i, id, plaintext, nonce) => WriteRefines(c, w, v, i, id, plaintext, nonce);
    case WriteDb(i, plaintext, nonce) => WriteDbRefines(c, w, v, i, plaintext, nonce);
    case Swap(_, _, _, _, _, _) => SwapRefines(c, w, v, a);
    case Touch(_, _) => TouchRefines(c, w, v, a);
    case _ =>
  }

  lemma StepRefines(c: Cipher, w: World, v: Vault, a: Action)
    requires Lawful(c) && Settled(c, w) && Enabled(c, w, a) && Represents(c, w, v)
    ensures Represents(c, After(c, w, a), Abstract(v, a))
  {
    if a.Write? || a.WriteDb? || a.Swap? {
      assert Follows(c, w, a.i);
    }
    CoherentStepRefines(c, w, v, a);
  }

  function AbstractTo(v: Vault, actions: seq<Action>, n: nat): Vault
    requires n <= |actions|
  {
    if n == 0 then v else Abstract(AbstractTo(v, actions, n - 1), actions[n - 1])
  }

  /** At every point of every run the disk opens to what the abstract run has made. */
  lemma {:induction false} RunRefines(c: Cipher, w: World, v: Vault, actions: seq<Action>, n: nat)
    requires Lawful(c) && Settled(c, w) && Represents(c, w, v)
    requires n <= |actions| && Runs(c, w, actions, n) && Atomic(actions)
    ensures Represents(c, RunTo(c, w, actions, n), AbstractTo(v, actions, n))
  {
    if n > 0 {
      RunRefines(c, w, v, actions, n - 1);
      RunSettled(c, w, actions, n - 1);
      StepRefines(c, RunTo(c, w, actions, n - 1), AbstractTo(v, actions, n - 1), actions[n - 1]);
    }
  }

  // ----- The key storage -----

  /** The disk opens with this key storage, and every instance has it in memory. */
  ghost predicate StoredIn(c: Cipher, w: World, storage: KeyStorage) {
    && Open(c, w.disk).Some? && Open(c, w.disk).value.keyState.storage == storage
    && forall i :: i in w.instances ==> w.instances[i].keyState.storage == storage
  }

  lemma StorageKept(c: Cipher, w: World, a: Action, storage: KeyStorage)
    requires StoredIn(c, w, storage) && Enabled(c, w, a)
    ensures StoredIn(c, After(c, w, a), storage)
  {
    if a.Swap? {
      SwapOpens(c, w, a);
    } else {
      OpensAsBefore(c, w, a);
    }
  }

  /** Over every run, whatever the locks do, the key storage stays the one the vault began with. */
  lemma {:induction false} RunStorage(c: Cipher, w: World, actions: seq<Action>, n: nat, storage: KeyStorage)
    requires StoredIn(c, w, storage) && n <= |actions| && Runs(c, w, actions, n)
    ensures StoredIn(c, RunTo(c, w, actions, n), storage)
  {
    if n > 0 {
      RunStorage(c, w, actions, n - 1, storage);
      StorageKept(c, RunTo(c, w, actions, n - 1), actions[n - 1], storage);
    }
  }

  // ----- Write once -----

  lemma {:induction false} BlobStays(v: Vault, actions: seq<Action>, k: nat, n: nat, id: string)
    requires k <= n <= |actions| && id in AbstractTo(v, actions, k).blobs
    ensures id in AbstractTo(v, actions, n).blobs
    ensures AbstractTo(v, actions, n).blobs[id] == AbstractTo(v, actions, k).blobs[id]
  {
    if k < n {
      BlobStays(v, actions, k, n - 1, id);
    }
  }

  /** The accepted write of an id, if there is one before `n`. */
  ghost predicate WrittenAt(v: Vault, actions: seq<Action>, k: nat, id: string)
    requires k < |actions|
  {
    Accepts(AbstractTo(v, actions, k), actions[k]) && actions[k].id == id
  }

  ghost predicate WrittenBefore(v: Vault, actions: seq<Action>, n: nat, id: string)
    requires n <= |actions|
  {
    exists k :: 0 <= k < n && WrittenAt(v, actions, k, id)
  }

  lemma {:induction false} BlobOrigin(v: Vault, actions: seq<Action>, n: nat, id: string)
    requires n <= |actions| && id in AbstractTo(v, actions, n).blobs && id !in v.blobs
    ensures WrittenBefore(v, actions, n, id)
  {
    if id in AbstractTo(v, actions, n - 1).blobs {
      BlobOrigin(v, actions, n - 1, id);
      var k :| 0 <= k < n - 1 && WrittenAt(v, actions, k, id);
    } else {
      assert WrittenAt(v, actions, n - 1, id);
    }
  }

  lemma WrittenStays(v: Vault, actions: seq<Action>, k: nat, n: nat, id: string)
    requires k < n <= |actions| && WrittenAt(v, actions, k, id)
    ensures id in AbstractTo(v, actions, n).blobs && AbstractTo(v, actions, n).blobs[id] == actions[k].plaintext
  {
    BlobStays(v, actions, k + 1, n, id);
  }

  lemma AcceptedOnce(v: Vault, actions: seq<Action>, j: nat, k: nat, id: string)
    requires j < |actions| && k < |actions| && WrittenAt(v, actions, j, id) && WrittenAt(v, actions, k, id)
    ensures j == k && id !in v.blobs
  {
    if j < k {
      BlobStays(v, actions, j + 1, k, id);
    } else if k < j {
      BlobStays(v, actions, k + 1, j, id);
    }
    if id in v.blobs {
      BlobStays(v, actions, 0, j, id);
    }
  }

  /** What an instance reads under an id. */
  function BlobRead(c: Cipher, w: World, i: nat, id: string): Option<string>
    requires i in w.instances
  {
    var inst := w.instances[i];
    Read(c, inst.dek, inst.cfg.encrypted, FilesAt(w.disk, inst.place), Blob(id))
  }

  lemma ReadsVault(c: Cipher, w: World, v: Vault, i: nat, id: string)
    requires Represents(c, w, v) && i in w.instances && CoherentInstance(c, w, i)
    ensures BlobRead(c, w, i, id) == if id in v.blobs then Some(v.blobs[id]) else None
  {
    var inst := w.instances[i];
    ReadPlain(c, inst.dek, inst.cfg.encrypted, ViewOf(w.disk).value.files, v, Blob(id));
  }

  /** The vault is a write-once map over every run of opening, writing, rotating, crashing and
      reopening: what any open instance reads under an id is exactly what the single accepted write
      of that id wrote, or what the vault held under it at the start, or nothing. */
  lemma WriteOnce(c: Cipher, w: World, v: Vault, actions: seq<Action>, n: nat, i: nat, id: string)
    requires Lawful(c) && Settled(c, w) && Represents(c, w, v)
    requires n <= |actions| && Runs(c, w, actions, n) && Atomic(actions)
    requires i in RunTo(c, w, actions, n).instances
    ensures var read := BlobRead(c, RunTo(c, w, actions, n), i, id);
      && (read.Some? <==> id in v.blobs || WrittenBefore(v, actions, n, id))
      && (id in v.blobs ==> read == Some(v.blobs[id]))
      && (forall k :: 0 <= k < n && WrittenAt(v, actions, k, id) ==> read == Some(actions[k].plaintext))
  {
    RunSettled(c, w, actions, n);
    RunRefines(c, w, v, actions, n);
    var after := RunTo(c, w, actions, n);
    assert CoherentInstance(c, after, i);
    ReadsVault(c, after, AbstractTo(v, actions, n), i, id);
    if id in v.blobs {
      BlobStays(v, actions, 0, n, id);
    } else if id in AbstractTo(v, actions, n).blobs {
      BlobOrigin(v, actions, n, id);
    }
    forall k | 0 <= k < n && WrittenAt(v, actions, k, id)
      ensures BlobRead(c, after, i, id) == Some(actions[k].plaintext)
    {
      WrittenStays(v, actions, k, n, id);
    }
  }

  /** A write is refused, and changes nothing, exactly if the id is malformed or already written. */
  lemma SecondWriteRefused(c: Cipher, w: World, v: Vault, actions: seq<Action>, n: nat)
    requires Lawful(c) && Settled(c, w) && Represents(c, w, v)
    requires n < |actions| && Runs(c, w, actions, n + 1) && Atomic(actions) && actions[n].Write?
    ensures (Fits(RunTo(c, w, actions, n), actions[n].i, actions[n].id) <==> WrittenAt(v, actions, n, actions[n].id))
    ensures !WrittenAt(v, actions, n, actions[n].id) ==> RunTo(c, w, actions, n + 1) == RunTo(c, w, actions, n)
  {
    var before := RunTo(c, w, actions, n);
    var a := actions[n];
    RunSettled(c, w, actions, n);
    RunRefines(c, w, v, actions, n);
    assert Enabled(c, before, a) && CoherentInstance(c, before, a.i);
    WriteRefines(c, before, AbstractTo(v, actions, n), a.i, a.id, a.plaintext, a.nonce);
  }

  // ----- The upgrade of the lock as two steps -----

  /** How many rotations are published between two points of a run. */
  function Swaps(actions: seq<Action>, m: nat, n: nat): nat
    requires m <= n <= |actions|
  {
    if m == n then 0 else Swaps(actions, m, n - 1) + if actions[n - 1].Swap? then 1 else 0
  }

  /** The instance lives on between two points and does not itself rotate. */
  predicate Idle(actions: seq<Action>, m: nat, n: nat, i: nat)
    requires m <= n <= |actions|
  {
    m == n || (Idle(actions, m, n - 1, i) && Leaves(actions[n - 1], i))
  }

  predicate Leaves(a: Action, i: nat) {
    a != Crash && (a.OpenVault? || a.Close? || a.Swap? ==> a.i != i)
  }

  lemma LeavesKeeps(c: Cipher, w: World, a: Action, i: nat)
    requires Enabled(c, w, a) && Leaves(a, i) && i in w.instances
    ensures var w' := After(c, w, a);
      && i in w'.instances && w'.instances[i] == w.instances[i]
      && (i in w.since ==> i in w'.since && w'.since[i] == w.since[i])
      && w'.epoch == w.epoch + if a.Swap? then 1 else 0
  {
  }

  lemma {:induction false} EpochCounts(c: Cipher, w: World, actions: seq<Action>, m: nat, n: nat, i: nat)
    requires m <= n <= |actions| && Runs(c, w, actions, n) && Idle(actions, m, n, i)
    requires i in RunTo(c, w, actions, m).instances && i in RunTo(c, w, actions, m).since
    ensures RunTo(c, w, actions, n).epoch == RunTo(c, w, actions, m).epoch + Swaps(actions, m, n)
    ensures i in RunTo(c, w, actions, n).instances && i in RunTo(c, w, actions, n).since
    ensures RunTo(c, w, actions, n).since[i] == RunTo(c, w, actions, m).since[i]
  {
    if m < n {
      EpochCounts(c, w, actions, m, n - 1, i);
      LeavesKeeps(c, RunTo(c, w, actions, n - 1), actions[n - 1], i);
    }
  }

  lemma {:induction false} RunsShorter(c: Cipher, w: World, actions: seq<Action>, m: nat, n: nat)
    requires m <= n <= |actions| && Runs(c, w, actions, n)
    ensures Runs(c, w, actions, m)
  {
    if m < n {
      RunsShorter(c, w, actions, m, n - 1);
    }
  }

  /** With the upgrade as two steps, an instance that was coherent when it unlocked is coherent later
      exactly if no rotation was published in between. */
  lemma CoherentIffNoRotation(c: Cipher, w: World, actions: seq<Action>, m: nat, n: nat, i: nat)
    requires Tracked(c, w) && m <= n <= |actions| && Runs(c, w, actions, n) && Idle(actions, m, n, i)
    requires i in RunTo(c, w, actions, m).instances && CoherentInstance(c, RunTo(c, w, actions, m), i)
    ensures i in RunTo(c, w, actions, n).instances
    ensures CoherentInstance(c, RunTo(c, w, actions, n), i) <==> Swaps(actions, m, n) == 0
  {
    RunsShorter(c, w, actions, m, n);
    RunTracked(c, w, actions, m);
    RunTracked(c, w, actions, n);
    EpochCounts(c, w, actions, m, n, i);
  }

  /** A refused upgrade changes nothing in memory: whatever the other instances do between its two
      steps and behind them, the instance stays on its generation with its keys. */
  lemma {:induction false} RefusedKeepsMemory(c: Cipher, w: World, actions: seq<Action>, m: nat, n: nat, i: nat)
    requires m <= n <= |actions| && Runs(c, w, actions, n) && Idle(actions, m, n, i)
    requires i in RunTo(c, w, actions, m).instances
    ensures i in RunTo(c, w, actions, n).instances
    ensures RunTo(c, w, actions, n).instances[i] == RunTo(c, w, actions, m).instances[i]
  {
    if m < n {
      RefusedKeepsMemory(c, w, actions, m, n - 1, i);
      LeavesKeeps(c, RunTo(c, w, actions, n - 1), actions[n - 1], i);
    }
  }

  // ----- What the gap between the two steps costs -----

  lemma WriteElsewhere(c: Cipher, w: World, v: Vault, i: nat, item: Item, plaintext: string, nonce: nat)
    requires Represents(c, w, v) && i in w.instances && !Current(w, i) && Exists(w.disk, w.instances[i].place)
    ensures Represents(c, w.(disk := Stored(c, w, i, item, plaintext, nonce)), v)
  {
    OpensWhereItResolves(c, w.disk);
    StoreElsewhere(w.disk, w.instances[i].place,
                   FilesAt(w.disk, w.instances[i].place)[
                     item := Sealed(c, w.instances[i].dek, w.instances[i].cfg.encrypted, nonce, plaintext)]);
  }

  /** An accepted blob is in the vault exactly if its writer lives in the active generation. Otherwise
      it lands in the retired generation, if the directory is still there. */
  lemma WriteKeptIff(c: Cipher, w: World, v: Vault, i: nat, id: string, plaintext: string, nonce: nat)
    requires Lawful(c) && Tracked(c, w) && Represents(c, w, v) && i in w.instances
    requires Fits(w, i, id) && id !in v.blobs
    ensures Represents(c, After(c, w, Write(i, id, plaintext, nonce)), PutBlob(v, id, plaintext)) <==> Current(w, i)
  {
    assert Follows(c, w, i);
    if Current(w, i) {
      WriteRefines(c, w, v, i, id, plaintext, nonce);
    } else {
      WriteElsewhere(c, w, v, i, Blob(id), plaintext, nonce);
      var w' := After(c, w, Write(i, id, plaintext, nonce));
      assert id in PutBlob(v, id, plaintext).blobs;
      if Represents(c, w', PutBlob(v, id, plaintext)) {
        RepresentsOne(c, w', v, PutBlob(v, id, plaintext));
      }
    }
  }

  lemma RepresentsOne(c: Cipher, w: World, v1: Vault, v2: Vault)
    requires Represents(c, w, v1) && Represents(c, w, v2)
    ensures v1 == v2
  {
    var i := Open(c, w.disk).value;
    HoldsOne(c, i.dek, i.cfg.encrypted, ViewOf(w.disk).value.files, v1, v2);
  }

  /** A rotation keeps the vault exactly if the rotating instance's generation still holds it. That is
      so when the instance lives in the active generation; so a rotation that loses something is made
      from a retired generation whose directory is still there. */
  lemma SwapKeptIff(c: Cipher, w: World, v: Vault, a: Action)
    requires Tracked(c, w) && a.Swap? && Enabled(c, w, a) && Represents(c, w, v)
    ensures Represents(c, After(c, w, a), a.v)
    ensures Represents(c, After(c, w, a), v) <==> a.v == v
    ensures Current(w, a.i) ==> a.v == v
    ensures a.v != v ==> !Current(w, a.i) && Exists(w.disk, w.instances[a.i].place)
  {
    OpensComplete(c, a.after, ViewOf(a.after).value, a.state, a.dek, a.v);
    assert Represents(c, After(c, w, a), a.v);
    if Represents(c, After(c, w, a), v) {
      RepresentsOne(c, After(c, w, a), v, a.v);
    }
    assert Follows(c, w, a.i);
    if Current(w, a.i) {
      SwapRefines(c, w, v, a);
      RepresentsOne(c, After(c, w, a), v, a.v);
    }
  }

  /** Once the retired generation is removed, an instance left on it can neither write nor rotate. */
  lemma RemovalProtects(c: Cipher, w: World, a: Action)
    requires (a.Write? || a.WriteDb? || a.Swap?) && a.i in w.instances
    requires !Exists(w.disk, w.instances[a.i].place)
    ensures After(c, w, a) == w || !Enabled(c, w, a)
  {
  }

  /** Every write and every rotation of the run is made by an instance that lives in the active
      generation at that moment, as the code could test behind `try_lock`. */
  ghost predicate Guarded(c: Cipher, w: World, actions: seq<Action>, n: nat)
    requires n <= |actions|
  {
    n == 0 || (Guarded(c, w, actions, n - 1) && GuardedStep(RunTo(c, w, actions, n - 1), actions[n - 1]))
  }

  predicate GuardedStep(w: World, a: Action) {
    (a.Write? || a.WriteDb? || a.Swap?) && a.i in w.instances ==> Current(w, a.i)
  }

  /** With the upgrade as two steps nothing is lost either, provided writers and rotators test whether
      their generation is the active one: the disk opens to what the abstract run has made. */
  lemma {:induction false} GuardedRunRefines(c: Cipher, w: World, v: Vault, actions: seq<Action>, n: nat)
    requires Lawful(c) && Tracked(c, w) && Represents(c, w, v)
    requires n <= |actions| && Runs(c, w, actions, n) && Guarded(c, w, actions, n)
    ensures Represents(c, RunTo(c, w, actions, n), AbstractTo(v, actions, n))
  {
    if n > 0 {
      GuardedRunRefines(c, w, v, actions, n - 1);
      RunTracked(c, w, actions, n - 1);
      GuardedStepRefines(c, RunTo(c, w, actions, n - 1), AbstractTo(v, actions, n - 1), actions[n - 1]);
    }
  }

  lemma GuardedStepRefines(c: Cipher, w: World, v: Vault, a: Action)
    requires Lawful(c) && Tracked(c, w) && Enabled(c, w, a) && Represents(c, w, v) && GuardedStep(w, a)
    ensures Represents(c, After(c, w, a), Abstract(v, a))
  {
    if a.Write? || a.WriteDb? || a.Swap? {
      assert Follows(c, w, a.i);
    }
    CoherentStepRefines(c, w, v, a);
  }
}
