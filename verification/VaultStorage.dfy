/** The generational vault: write-once blobs, a database, and a key rotation that survives a crash
    after any file-system call. */
module VaultStorage {
  import opened Options
  import opened Strings
  import opened VaultDisk
  import opened VaultFileSystem

  /** The staged files have the vault's blobs and database; outside `todo` they are readable under
      the key, and sealed. */
  ghost predicate Recoded(c: Cipher, dek: string, encrypted: bool, files: Files, v: Vault, todo: set<Item>) {
    && (forall id :: Blob(id) in files <==> id in v.blobs)
    && (forall id :: id in v.blobs && Blob(id) !in todo ==> Coded(c, dek, encrypted, files, Blob(id), v.blobs[id]))
    && (Db in files <==> v.db.Some?)
    && (v.db.Some? && Db !in todo ==> Coded(c, dek, encrypted, files, Db, v.db.value))
  }

  ghost predicate Coded(c: Cipher, dek: string, encrypted: bool, files: Files, item: Item, plaintext: string) {
    && Read(c, dek, encrypted, files, item) == Some(plaintext)
    && item in files && SealedAs(c, dek, encrypted, files[item], plaintext)
  }

  /** The copies of a vault's files are unreadable under a new key, and need none if not encrypted. */
  lemma CopyUncoded(c: Cipher, old_: string, dek: string, encrypted: bool, source: Files, files: Files, v: Vault,
                    todo: set<Item>)
    requires Holds(c, old_, encrypted, source, v) && CopiedBut(source, files, {})
    requires encrypted ==> forall item :: item in files && (item.Db? || item.Blob?) ==> item in todo
    ensures Recoded(c, dek, encrypted, files, v, todo)
  {
    forall id ensures Blob(id) in files <==> id in v.blobs {
      assert Blob(id) in files <==> Copied(source, Blob(id));
    }
    assert Db in files <==> Copied(source, Db);
  }

  /** Coding one item keeps the caches. */
  lemma CarriedOn(source: Files, files: Files, item: Item, content: Content)
    requires Carried(source, files) && (item.Db? || item.Blob? || item == KeyFile)
    ensures Carried(source, files[item := content])
  {
  }

  lemma RecodeOne(c: Cipher, dek: string, encrypted: bool, files: Files, v: Vault, todo: set<Item>, item: Item,
                  nonce: nat, plaintext: string)
    requires Lawful(c) && Recoded(c, dek, encrypted, files, v, todo)
    requires (item.Db? || item.Blob?) && Plain(v, item) == Some(plaintext)
    ensures Recoded(c, dek, encrypted, files[item := Sealed(c, dek, encrypted, nonce, plaintext)], v, todo - {item})
  {
    var more := files[item := Sealed(c, dek, encrypted, nonce, plaintext)];
    SealedIsSealed(c, dek, encrypted, nonce, plaintext);
    assert Coded(c, dek, encrypted, more, item, plaintext);
    forall other, text | other != item && Coded(c, dek, encrypted, files, other, text)
      ensures Coded(c, dek, encrypted, more, other, text)
    {
      assert Read(c, dek, encrypted, more, other) == Read(c, dek, encrypted, files, other);
    }
  }

  lemma AddKey(c: Cipher, kek: string, encrypted: bool, files: Files, state: KeyState, dek: string, v: Vault)
    requires Recoded(c, dek, encrypted, files, v, {})
    requires c.open(kek, state.wrappedDek) == Some(dek) && |dek| == DEK_LENGTH
    ensures Complete(c, kek, encrypted, files[KeyFile := Key(state)], state, dek, v)
  {
    var more := files[KeyFile := Key(state)];
    forall item, text | item != KeyFile && Coded(c, dek, encrypted, files, item, text)
      ensures Coded(c, dek, encrypted, more, item, text)
    {
      assert Read(c, dek, encrypted, more, item) == Read(c, dek, encrypted, files, item);
    }
  }

  /** A staged generation is ready: complete, with the caches of the live one and its key storage. */
  ghost predicate Ready(c: Cipher, base: View, storage: KeyStorage, files: Files, state: KeyState, dek: string,
                        v: Vault)
  {
    && Complete(c, base.kek, base.cfg.encrypted, files, state, dek, v)
    && Carried(base.files, files) && state.storage == storage
  }

  /** Behind the database, if there is one, the blobs are left to do. */
  lemma TodoBlobs(c: Cipher, dek: string, encrypted: bool, files: Files, v: Vault, todo: set<Item>, blobs: set<Item>)
    requires todo == blobs + {Db} && forall item :: item in blobs ==> item.Blob?
    requires
      || Recoded(c, dek, encrypted, files, v, todo - {Db})
      || (Db !in files && Recoded(c, dek, encrypted, files, v, todo))
    ensures Recoded(c, dek, encrypted, files, v, set item | item in files && item.Blob?)
  {
  }

  /** The trace goes on with views alike this one. */
  ghost predicate StaysAlike(base: View, before: Trace, after: Trace) {
    before <= after && forall k :: |before| <= k < |after| ==> Alike(base, after[k])
  }

  lemma AlikeLonger(a: View, b: View, before: Trace, between: Trace, after: Trace)
    requires Alike(a, Some(b)) && StaysAlike(a, before, between) && StaysAlike(b, between, after)
    ensures StaysAlike(a, before, after)
  {
    forall k | |before| <= k < |after| ensures Alike(a, after[k]) {
      if k < |between| {
        assert after[k] == between[k];
      } else {
        AlikeFurther(a, b, after[k]);
      }
    }
  }

  /** The trace goes on with views alike the first one, and from `published` on alike the second. */
  ghost predicate AlikeThen(base: View, next: View, before: Trace, published: nat, after: Trace) {
    && before <= after && |before| <= published <= |after|
    && forall k :: |before| <= k < |after| ==> Alike(if k < published then base else next, after[k])
  }

  lemma AlikeNext(base: View, next: View, before: Trace, between: Trace, after: Trace)
    requires StaysAlike(base, before, between) && StaysAlike(next, between, after)
    ensures AlikeThen(base, next, before, |between|, after)
  {
  }

  lemma AlikeObserved(next: View, view: View, before: Trace, observed: Trace, after: Trace)
    requires Alike(next, Some(view)) && observed == Observe(before, Some(view))
    requires StaysAlike(view, observed, after)
    ensures StaysAlike(next, before, after)
  {
    forall k | |before| <= k < |after| ensures Alike(next, after[k]) {
      if k < |observed| {
        assert after[k] == observed[k] == Some(view);
      } else {
        AlikeFurther(next, view, after[k]);
      }
    }
  }

  lemma AlikeKept(c: Cipher, keyId: string, base: View, v: Vault, next: View, v': Vault, before: Trace,
                  published: nat, after: Trace)
    requires AlikeThen(base, next, before, published, after)
    requires OpensTo(c, Some(base), keyId, v) && OpensTo(c, Some(next), keyId, v')
    ensures KeptThen(c, keyId, v, v', before, published, after)
  {
    forall k | |before| <= k < |after| ensures OpensTo(c, after[k], keyId, if k < published then v else v') {
      if k < published {
        AlikeOpens(c, base, after[k], keyId, v);
      } else {
        AlikeOpens(c, next, after[k], keyId, v');
      }
    }
  }

  /** The trace goes on with views that open to the vault, and from `published` on to the next one. */
  ghost predicate KeptThen(c: Cipher, keyId: string, v: Vault, next: Vault, before: Trace, published: nat,
                           after: Trace)
  {
    && before <= after && |before| <= published <= |after|
    && forall k :: |before| <= k < |after| ==> OpensTo(c, after[k], keyId, if k < published then v else next)
  }

  /** From the last view of `before` on every view opens to the vault, under the first key and, if there
      is a further view, then under the second. */
  ghost predicate Turned(c: Cipher, before: Trace, after: Trace, first: string, second: string, v: Vault) {
    forall k :: 0 <= |before| - 1 <= k < |after| ==>
      OpensTo(c, after[k], if k < |before| then first else second, v)
  }

  lemma TurnedOnce(c: Cipher, before: Trace, view: Option<View>, first: string, second: string, v: Vault)
    requires before != [] && OpensTo(c, before[|before| - 1], first, v)
    ensures Turned(c, before, before, first, second, v)
    ensures OpensTo(c, view, second, v) ==> Turned(c, before, before + [view], first, second, v)
  {
  }

  /** The names a rotation is about to use are free. */
  predicate NewNames(d: Disk, stage: string, name: string, temporary: string) {
    stage !in d.gens && name !in d.gens && temporary !in d.scratch
  }

  /** Nothing is left of a generation. */
  predicate Retired(d: Disk, place: Place) {
    match place
    case Flat => d.flat == map[]
    case Generation(name) => name !in d.gens
  }

  /** The same generations and temporary files, by name. */
  predicate SameNames(before: Disk, after: Disk) {
    after.gens.Keys == before.gens.Keys && after.scratch == before.scratch
  }

  class VaultStorage {
    const fs: FileSystem
    const cipher: Cipher
    const cfg: Config
    var generationRoot: Place
    var dek: string
    var keyState: KeyState

    /** What the instance holds in memory. */
    function Memory(): Instance
      reads this
    {
      Instance(generationRoot, dek, cfg, keyState)
    }

    /** The instance holds what opening the disk would find. */
    ghost predicate Coherent()
      reads this, fs
    {
      fs.Valid() && Open(cipher, fs.disk) == Some(Memory())
    }

    /** The files of the instance's generation. */
    ghost function Live(): Files
      requires Coherent()
      reads this, fs
    {
      ViewOf(fs.disk).value.files
    }

    /** The instance is coherent and its generation holds this vault. */
    ghost predicate Stores(v: Vault)
      reads this, fs
    {
      Coherent() && Holds(cipher, dek, cfg.encrypted, Live(), v)
    }

    /** The item's file is this plaintext, sealed under the key if the vault encrypts. */
    ghost predicate Keeps(item: Item, nonce: nat, plaintext: string)
      requires Coherent()
      reads this, fs
    {
      item in Live() && Live()[item] == Data(if cfg.encrypted then cipher.seal(dek, nonce, plaintext) else plaintext)
    }

    constructor (fs: FileSystem, cipher: Cipher, found: Instance)
      requires fs.Valid() && Open(cipher, fs.disk) == Some(found)
      ensures Coherent() && this.fs == fs && this.cipher == cipher && Memory() == found
    {
      this.fs := fs;
      this.cipher := cipher;
      this.cfg := found.cfg;
      this.generationRoot := found.place;
      this.dek := found.dek;
      this.keyState := found.keyState;
    }

    /** Reads and decrypts a file of the instance's generation. `done` is false when the file system
        failed. */
    method ReadItem(item: Item) returns (done: bool, plaintext: Option<string>)
      requires Coherent()
      modifies fs
      ensures Coherent() && fs.trace == old(fs.trace) && fs.disk == old(fs.disk)
      ensures Went(done, old(fs.failures), fs.failures)
      ensures done ==> plaintext == Read(cipher, dek, cfg.encrypted, Live(), item)
    {
      plaintext := None;
      done := fs.Call();
      if done {
        plaintext := Read(cipher, dek, cfg.encrypted, FilesAt(fs.disk, generationRoot), item);
      }
    }

    /** Reads an item, seals it under the new key and writes it into the stage. */
    method Recode(stage: string, item: Item, newDek: string, ghost v: Vault, ghost todo: set<Item>) returns (ok: bool)
      requires Stores(v) && Lawful(cipher) && Hidden(fs.disk, stage) && stage in fs.disk.gens
      requires (item.Db? || item.Blob?) && Plain(v, item).Some? && Carried(Live(), fs.disk.gens[stage])
      requires Recoded(cipher, newDek, cfg.encrypted, fs.disk.gens[stage], v, todo)
      modifies fs
      ensures Stores(v) && fs.trace == old(fs.trace) && Hidden(fs.disk, stage) && stage in fs.disk.gens
      ensures SameNames(old(fs.disk), fs.disk) && Went(ok, old(fs.failures), fs.failures)
      ensures ok ==> Recoded(cipher, newDek, cfg.encrypted, fs.disk.gens[stage], v, todo - {item})
      ensures ok ==> Carried(Live(), fs.disk.gens[stage])
    {
      ReadPlain(cipher, dek, cfg.encrypted, Live(), v, item);
      var done, plaintext := ReadItem(item);
      if !done || plaintext.None? {
        return false;
      }
      var nonce := fs.Nonce();
      RecodeOne(cipher, newDek, cfg.encrypted, fs.disk.gens[stage], v, todo, item, nonce, plaintext.value);
      CarriedOn(Live(), fs.disk.gens[stage], item, Sealed(cipher, newDek, cfg.encrypted, nonce, plaintext.value));
      ok := fs.WriteFile(stage, item, Sealed(cipher, newDek, cfg.encrypted, nonce, plaintext.value));
    }

    /** The staged blobs one by one, in any order. */
    method RecodeBlobs(stage: string, newDek: string, ghost v: Vault) returns (ok: bool)
      requires Stores(v) && Lawful(cipher) && Hidden(fs.disk, stage) && stage in fs.disk.gens && cfg.encrypted
      requires Recoded(cipher, newDek, cfg.encrypted, fs.disk.gens[stage], v,
                       set item | item in fs.disk.gens[stage] && item.Blob?)
      requires Carried(Live(), fs.disk.gens[stage])
      modifies fs
      ensures Stores(v) && fs.trace == old(fs.trace) && Hidden(fs.disk, stage) && stage in fs.disk.gens
      ensures SameNames(old(fs.disk), fs.disk) && Went(ok, old(fs.failures), fs.failures)
      ensures ok ==> Recoded(cipher, newDek, cfg.encrypted, fs.disk.gens[stage], v, {})
      ensures ok ==> Carried(Live(), fs.disk.gens[stage])
    {
      var todo := set item | item in fs.disk.gens[stage] && item.Blob?;
      while todo != {}
        invariant Stores(v) && fs.trace == old(fs.trace) && Hidden(fs.disk, stage) && stage in fs.disk.gens
        invariant SameNames(old(fs.disk), fs.disk) && fs.failures == old(fs.failures)
        invariant Recoded(cipher, newDek, cfg.encrypted, fs.disk.gens[stage], v, todo)
        invariant Carried(Live(), fs.disk.gens[stage])
        invariant forall item :: item in todo ==> item.Blob? && Plain(v, item).Some?
        decreases |todo|
      {
        var item :| item in todo;
        ok := Recode(stage, item, newDek, v, todo);
        if !ok {
          return;
        }
        todo := todo - {item};
      }
      ok := true;
    }

    /** The staged database and blobs under the new key. */
    method RecodeAll(stage: string, newDek: string, ghost v: Vault) returns (ok: bool)
      requires Stores(v) && Lawful(cipher) && Hidden(fs.disk, stage) && stage in fs.disk.gens
      requires CopiedBut(Live(), fs.disk.gens[stage], {})
      modifies fs
      ensures Stores(v) && fs.trace == old(fs.trace) && Hidden(fs.disk, stage) && stage in fs.disk.gens
      ensures SameNames(old(fs.disk), fs.disk) && Went(ok, old(fs.failures), fs.failures)
      ensures ok ==> Recoded(cipher, newDek, cfg.encrypted, fs.disk.gens[stage], v, {})
      ensures ok ==> Carried(Live(), fs.disk.gens[stage])
    {
      CopyCarries(Live(), fs.disk.gens[stage]);
      ghost var blobs := set item | item in fs.disk.gens[stage] && item.Blob?;
      ghost var todo := if cfg.encrypted then blobs + {Db} else {};
      CopyUncoded(cipher, dek, newDek, cfg.encrypted, Live(), fs.disk.gens[stage], v, todo);
      ok := true;
      if Db in fs.disk.gens[stage] {
        ok := Recode(stage, Db, newDek, v, todo);
        if !ok {
          return;
        }
      }
      if cfg.encrypted {
        TodoBlobs(cipher, newDek, cfg.encrypted, fs.disk.gens[stage], v, todo, blobs);
        ok := RecodeBlobs(stage, newDek, v);
      } else {
        assert {} - {Db} == {};
      }
    }

    /** Wraps the new key and writes the staged key state. */
    method WriteKeyState(stage: string, newKeyId: string, newDek: string, ghost v: Vault)
      returns (ok: bool, state: KeyState)
      requires Coherent() && Lawful(cipher) && Hidden(fs.disk, stage) && |newDek| == DEK_LENGTH
      requires stage in fs.disk.gens && Recoded(cipher, newDek, cfg.encrypted, fs.disk.gens[stage], v, {})
      requires Carried(Live(), fs.disk.gens[stage])
      modifies fs
      ensures Coherent() && fs.trace == old(fs.trace) && Hidden(fs.disk, stage)
      ensures SameNames(old(fs.disk), fs.disk) && Went(ok, old(fs.failures), fs.failures)
      ensures ok ==> stage in fs.disk.gens && state.keyId == newKeyId
      ensures ok ==> Ready(cipher, ViewOf(fs.disk).value, keyState.storage, fs.disk.gens[stage], state, newDek, v)
    {
      state := keyState;
      ok := fs.Call();
      if !ok || fs.disk.kek.None? {
        return false, state;
      }
      var nonce := fs.Nonce();
      state := KeyState(newKeyId, keyState.storage, cipher.seal(fs.disk.kek.value, nonce, newDek));
      AddKey(cipher, fs.disk.kek.value, cfg.encrypted, fs.disk.gens[stage], state, newDek, v);
      CarriedOn(Live(), fs.disk.gens[stage], KeyFile, Key(state));
      ok := fs.WriteFile(stage, KeyFile, Key(state));
    }

    /** The copy of the generation, then its data under the new key. */
    method CopyRecoded(stage: string, newDek: string, ghost v: Vault) returns (ok: bool)
      requires Stores(v) && Lawful(cipher) && Hidden(fs.disk, stage)
      modifies fs
      ensures Stores(v) && fs.trace == old(fs.trace) && Hidden(fs.disk, stage)
      ensures fs.disk.gens.Keys <= old(fs.disk).gens.Keys + {stage} && fs.disk.scratch == old(fs.disk).scratch
      ensures Unless(ok, old(fs.failures), fs.failures, stage in old(fs.disk).gens)
      ensures ok ==> stage in fs.disk.gens && Recoded(cipher, newDek, cfg.encrypted, fs.disk.gens[stage], v, {})
      ensures ok ==> Carried(Live(), fs.disk.gens[stage])
    {
      ok := fs.CopyTree(FilesAt(fs.disk, generationRoot), stage);
      if ok {
        ok := RecodeAll(stage, newDek, v);
      }
    }

    /** The first half of `rotate_locked`: a complete generation under the new key, in the stage. */
    method Stage(stage: string, newKeyId: string, newDek: string, ghost v: Vault) returns (ok: bool, state: KeyState)
      requires Stores(v) && Lawful(cipher) && Hidden(fs.disk, stage) && |newDek| == DEK_LENGTH
      modifies fs
      ensures Stores(v) && fs.trace == old(fs.trace) && Hidden(fs.disk, stage)
      ensures fs.disk.gens.Keys <= old(fs.disk).gens.Keys + {stage} && fs.disk.scratch == old(fs.disk).scratch
      ensures Unless(ok, old(fs.failures), fs.failures, stage in old(fs.disk).gens)
      ensures ok ==> stage in fs.disk.gens && state.keyId == newKeyId
      ensures ok ==> Ready(cipher, ViewOf(fs.disk).value, keyState.storage, fs.disk.gens[stage], state, newDek, v)
    {
      state := keyState;
      ok := CopyRecoded(stage, newDek, v);
      if ok {
        ok, state := WriteKeyState(stage, newKeyId, newDek, v);
      }
    }

    /** Renames the stage and swaps the pointer. The call before the rename and the two behind it are
        syncs and checkpoints. */
    method Swap(stage: string, name: string, temporary: string) returns (ok: bool)
      requires fs.Valid() && Hidden(fs.disk, stage) && stage in fs.disk.gens
      requires ValidName(name) && name != GENERATION_0 && name != stage
      modifies fs
      ensures fs.Valid()
      ensures !ok ==> fs.trace == old(fs.trace)
      ensures ok ==> fs.trace == Observe(old(fs.trace), ViewOf(fs.disk)) && fs.disk.pointer.Some?
      ensures ok ==> ViewOf(fs.disk) == Some(View(ViewOf(old(fs.disk)).value.cfg, ViewOf(old(fs.disk)).value.kek,
                                                  Generation(name), old(fs.disk).gens[stage]))
      ensures ok ==> ViewOf(old(fs.disk)).value.place != Generation(name)
      ensures Unless(ok, old(fs.failures), fs.failures, name in old(fs.disk).gens || temporary in old(fs.disk).scratch)
    {
      ok := fs.Call();
      if !ok {
        return;
      }
      ok := fs.Rename(stage, name);
      if !ok {
        return;
      }
      ok := fs.Call();
      if !ok {
        return;
      }
      ok := fs.Call();
      if ok {
        ok := fs.Publish(name, temporary);
      }
      if !ok {
        fs.RemoveTree(name);
      }
    }

    /** The second half of `rotate_locked`, up to the cleanup. */
    method Commit(stage: string, name: string, state: KeyState, newDek: string, temporary: string, ghost v: Vault)
      returns (ok: bool, swapped: bool)
      requires Stores(v) && Hidden(fs.disk, stage) && stage in fs.disk.gens
      requires ValidName(name) && name != GENERATION_0 && name != stage
      requires Ready(cipher, ViewOf(fs.disk).value, keyState.storage, fs.disk.gens[stage], state, newDek, v)
      modifies this, fs
      ensures Stores(v) && (ok ==> swapped)
      ensures !swapped ==> Memory() == old(Memory()) && fs.trace == old(fs.trace)
      ensures swapped ==> Memory() == Instance(Generation(name), newDek, cfg, state)
      ensures swapped ==> fs.trace == old(fs.trace) + [ViewOf(fs.disk)] && fs.disk.pointer.Some?
      ensures swapped ==> old(generationRoot) != generationRoot
      ensures swapped ==> ViewOf(fs.disk).value.kek == ViewOf(old(fs.disk)).value.kek
      ensures swapped ==> keyState.storage == old(keyState.storage)
      ensures swapped ==> Carried(old(Live()), Live()) && AllSealed(cipher, dek, cfg.encrypted, Live(), v)
      ensures Unless(ok, old(fs.failures), fs.failures, name in old(fs.disk).gens || temporary in old(fs.disk).scratch)
    {
      swapped := Swap(stage, name, temporary);
      ok := swapped;
      if swapped {
        OpensComplete(cipher, fs.disk, ViewOf(fs.disk).value, state, newDek, v);
        generationRoot, keyState, dek := Generation(name), state, newDek;
        ok := fs.Call();
      }
    }

    /** Removes the generation a rotation has retired. */
    method Retire(retired: Place, ghost v: Vault)
      requires Stores(v) && generationRoot != retired && fs.disk.pointer.Some?
      modifies fs
      ensures Stores(v) && fs.trace == old(fs.trace) && fs.failures >= old(fs.failures)
      ensures fs.failures == old(fs.failures) ==> Retired(fs.disk, retired)
    {
      match retired
      case Flat => fs.RemoveFlat();
      case Generation(name) => fs.RemoveTree(name);
    }

    /** The second half of `rotate_locked` with the removal of the retired generation. */
    method Replace(stage: string, name: string, state: KeyState, newDek: string, temporary: string, ghost v: Vault)
      returns (ok: bool, swapped: bool)
      requires Stores(v) && Hidden(fs.disk, stage) && stage in fs.disk.gens
      requires ValidName(name) && name != GENERATION_0 && name != stage
      requires Ready(cipher, ViewOf(fs.disk).value, keyState.storage, fs.disk.gens[stage], state, newDek, v)
      modifies this, fs
      ensures Stores(v) && (ok ==> swapped)
      ensures !swapped ==> Memory() == old(Memory()) && fs.trace == old(fs.trace)
      ensures swapped ==> Memory() == Instance(Generation(name), newDek, cfg, state)
      ensures swapped ==> fs.trace == old(fs.trace) + [ViewOf(fs.disk)] && old(generationRoot) != generationRoot
      ensures swapped ==> ViewOf(fs.disk).value.kek == ViewOf(old(fs.disk)).value.kek
      ensures swapped ==> keyState.storage == old(keyState.storage)
      ensures swapped ==> Carried(old(Live()), Live()) && AllSealed(cipher, dek, cfg.encrypted, Live(), v)
      ensures fs.failures >= old(fs.failures)
      ensures fs.failures == old(fs.failures) && !ok ==> name in old(fs.disk).gens || temporary in old(fs.disk).scratch
      ensures ok && fs.failures == old(fs.failures) ==> Retired(fs.disk, old(generationRoot))
    {
      var retired := generationRoot;
      ok, swapped := Commit(stage, name, state, newDek, temporary, v);
      if ok {
        ghost var view := ViewOf(fs.disk);
        Retire(retired, v);
        assert ViewOf(fs.disk) == view;
      }
    }

    /** `rotate_locked` up to the removal of the stage. */
    method Attempt(stage: string, name: string, newKeyId: string, newDek: string, temporary: string, ghost v: Vault)
      returns (ok: bool, swapped: bool)
      requires Stores(v) && Lawful(cipher) && Hidden(fs.disk, stage) && |newDek| == DEK_LENGTH
      requires ValidName(name) && name != GENERATION_0 && name != stage
      modifies this, fs
      ensures Stores(v) && (ok ==> swapped)
      ensures !swapped ==> Memory() == old(Memory()) && fs.trace == old(fs.trace)
      ensures swapped ==> keyState.keyId == newKeyId && dek == newDek && generationRoot == Generation(name)
      ensures swapped ==> fs.trace == old(fs.trace) + [ViewOf(fs.disk)] && old(generationRoot) != generationRoot
      ensures swapped ==> ViewOf(fs.disk).value.kek == ViewOf(old(fs.disk)).value.kek
      ensures swapped ==> keyState.storage == old(keyState.storage)
      ensures swapped ==> Carried(old(Live()), Live()) && AllSealed(cipher, dek, cfg.encrypted, Live(), v)
      ensures fs.failures >= old(fs.failures)
      ensures fs.failures == old(fs.failures) && NewNames(old(fs.disk), stage, name, temporary) ==> ok
      ensures ok && fs.failures == old(fs.failures) ==> Retired(fs.disk, old(generationRoot))
    {
      swapped := false;
      ok := fs.Call();
      if !ok {
        return;
      }
      var state;
      ok, state := Stage(stage, newKeyId, newDek, v);
      if !ok {
        return;
      }
      assert ViewOf(fs.disk) == old(ViewOf(fs.disk));
      ok, swapped := Replace(stage, name, state, newDek, temporary, v);
    }

    /** `rotate_locked` with given names. */
    method RotateInto(stage: string, name: string, newKeyId: string, newDek: string, temporary: string, ghost v: Vault)
      returns (ok: bool, swapped: bool)
      requires Stores(v) && Lawful(cipher) && Hidden(fs.disk, stage) && |newDek| == DEK_LENGTH
      requires ValidName(name) && name != GENERATION_0 && name != stage && stage != GENERATION_0 && !ValidName(stage)
      modifies this, fs
      ensures Stores(v) && (ok ==> swapped)
      ensures !swapped ==> Memory() == old(Memory()) && fs.trace == old(fs.trace)
      ensures swapped ==> keyState.keyId == newKeyId && dek == newDek && generationRoot == Generation(name)
      ensures swapped ==> fs.trace == old(fs.trace) + [ViewOf(fs.disk)] && old(generationRoot) != generationRoot
      ensures swapped ==> ViewOf(fs.disk).value.kek == ViewOf(old(fs.disk)).value.kek
      ensures swapped ==> keyState.storage == old(keyState.storage)
      ensures swapped ==> Carried(old(Live()), Live()) && AllSealed(cipher, dek, cfg.encrypted, Live(), v)
      ensures fs.failures >= old(fs.failures)
      ensures fs.failures == old(fs.failures) && NewNames(old(fs.disk), stage, name, temporary) ==> ok
      ensures ok && fs.failures == old(fs.failures) ==> Retired(fs.disk, old(generationRoot)) && stage !in fs.disk.gens
    {
      ok, swapped := Attempt(stage, name, newKeyId, newDek, temporary, v);
      OpenIsThere(fs.disk);
      ghost var view := ViewOf(fs.disk);
      fs.RemoveTree(stage);
      assert ViewOf(fs.disk) == view;
    }

    /** `rotate_locked`, whatever call fails. Either nothing that opening sees has changed, or exactly
        one change was seen: from the old generation to the complete new one. The instance agrees with
        the disk in both cases. */
    method RotateLocked(newKeyId: string, newDek: string, suffix: string, temporary: string, ghost v: Vault)
      returns (ok: bool, swapped: bool)
      requires Stores(v) && Lawful(cipher) && |newDek| == DEK_LENGTH && Digits(suffix) && suffix != "0"
      modifies this, fs
      ensures Stores(v) && (ok ==> swapped)
      ensures !swapped ==> Memory() == old(Memory()) && fs.trace == old(fs.trace)
      ensures swapped ==> keyState.keyId == newKeyId && dek == newDek && generationRoot == Generation(PREFIX + suffix)
      ensures swapped ==> fs.trace == old(fs.trace) + [ViewOf(fs.disk)] && old(generationRoot) != generationRoot
      ensures swapped ==> ViewOf(fs.disk).value.kek == ViewOf(old(fs.disk)).value.kek
      ensures swapped ==> keyState.storage == old(keyState.storage)
      ensures swapped ==> Carried(old(Live()), Live()) && AllSealed(cipher, dek, cfg.encrypted, Live(), v)
      ensures Turned(cipher, old(fs.trace), fs.trace, old(keyState.keyId), newKeyId, v)
      ensures fs.failures == old(fs.failures)
              && NewNames(old(fs.disk), STAGING + (PREFIX + suffix), PREFIX + suffix, temporary)
        ==> ok
      ensures ok && fs.failures == old(fs.failures) ==>
        Retired(fs.disk, old(generationRoot)) && STAGING + (PREFIX + suffix) !in fs.disk.gens
    {
      GenerationNames(suffix);
      var name := PREFIX + suffix;
      var stage := STAGING + name;
      OpenIsThere(fs.disk);
      ok, swapped := RotateInto(stage, name, newKeyId, newDek, temporary, v);
      TurnedOnce(cipher, old(fs.trace), ViewOf(fs.disk), old(keyState.keyId), newKeyId, v);
    }

    /** One atomic change of the files of the open generation. */
    method TryFiles(files: Files) returns (ok: bool)
      requires Coherent()
      modifies fs
      ensures fs.Valid() && fs.trace == Observe(old(fs.trace), ViewOf(fs.disk))
      ensures ViewOf(fs.disk) == Some(ViewOf(old(fs.disk)).value.(files := if ok then files else old(Live())))
      ensures Went(ok, old(fs.failures), fs.failures)
    {
      ViewWithFiles(fs.disk, files);
      ok := fs.Try(WithFiles(fs.disk, generationRoot, files));
    }

    /** One change of an interrupted write: whether it happens or not, the vault stays the same. */
    method TryPartial(files: Files, ghost v: Vault) returns (ok: bool)
      requires Stores(v) && SameData(Live(), files)
      modifies fs
      ensures Stores(v) && Live() == if ok then files else old(Live())
      ensures Alike(ViewOf(old(fs.disk)).value, ViewOf(fs.disk))
      ensures StaysAlike(ViewOf(old(fs.disk)).value, old(fs.trace), fs.trace)
      ensures Went(ok, old(fs.failures), fs.failures)
    {
      SameDataOpens(cipher, ViewOf(fs.disk).value, files, dek, v);
      ok := TryFiles(files);
    }

    /** A write into the temporary file; a failing one may leave anything in it. */
    method FillPartial(partial: Item, content: Content, ghost v: Vault) returns (ok: bool)
      requires Stores(v) && partial.Partial?
      modifies fs
      ensures Stores(v) && Alike(ViewOf(old(fs.disk)).value, ViewOf(fs.disk))
      ensures StaysAlike(ViewOf(old(fs.disk)).value, old(fs.trace), fs.trace)
      ensures ok ==> partial in Live() && Live()[partial] == content
      ensures Went(ok, old(fs.failures), fs.failures)
    {
      var files := FilesAt(fs.disk, generationRoot);
      ghost var before, base := fs.trace, ViewOf(fs.disk).value;
      PartialOnly(files, partial, content);
      ok := TryPartial(files[partial := content], v);
      if !ok {
        var left := fs.oracle.torn(fs.calls);
        if left.Some? {
          ghost var between, mid := fs.trace, ViewOf(fs.disk).value;
          PartialOnly(files, partial, left.value);
          var _ := TryPartial(files[partial := left.value], v);
          AlikeLonger(base, mid, before, between, fs.trace);
          AlikeFurther(base, mid, ViewOf(fs.disk));
        }
      }
    }

    /** A new temporary file with this content. */
    method WritePartial(partial: Item, content: Content, ghost v: Vault) returns (ok: bool)
      requires Stores(v) && partial.Partial?
      modifies fs
      ensures Stores(v) && Alike(ViewOf(old(fs.disk)).value, ViewOf(fs.disk))
      ensures StaysAlike(ViewOf(old(fs.disk)).value, old(fs.trace), fs.trace)
      ensures ok ==> partial in Live() && Live()[partial] == content
      ensures Unless(ok, old(fs.failures), fs.failures, partial in old(Live()))
    {
      var files := FilesAt(fs.disk, generationRoot);
      if partial in files {
        return false;
      }
      ghost var before, base := fs.trace, ViewOf(fs.disk).value;
      PartialOnly(files, partial, Data(""));
      ok := TryPartial(files[partial := Data("")], v);
      if ok {
        ghost var between, mid := fs.trace, ViewOf(fs.disk).value;
        ok := FillPartial(partial, content, v);
        AlikeLonger(base, mid, before, between, fs.trace);
        AlikeFurther(base, mid, ViewOf(fs.disk));
      }
    }

    /** The temporary file is removed, or stays. */
    method DropPartial(partial: Item, ghost v: Vault)
      requires Stores(v) && partial.Partial?
      modifies fs
      ensures Stores(v) && Alike(ViewOf(old(fs.disk)).value, ViewOf(fs.disk))
      ensures StaysAlike(ViewOf(old(fs.disk)).value, old(fs.trace), fs.trace)
      ensures fs.failures >= old(fs.failures) && (fs.failures == old(fs.failures) ==> partial !in Live())
    {
      var files := FilesAt(fs.disk, generationRoot);
      PartialOnly(files, partial, Data(""));
      var _ := TryPartial(files - {partial}, v);
    }

    /** `hard_link`: the blob appears under its name, unless the name is taken. */
    method Link(id: string, partial: Item, plaintext: string, ghost nonce: nat, ghost v: Vault) returns (ok: bool)
      requires Stores(v) && Lawful(cipher) && partial in Live()
      requires Live()[partial] == Sealed(cipher, dek, cfg.encrypted, nonce, plaintext)
      modifies fs
      ensures ok ==> id !in v.blobs
      ensures Stores(if ok then PutBlob(v, id, plaintext) else v)
      ensures ViewOf(fs.disk) == Some(LinkedView(old(ViewOf(fs.disk).value), ok, id, nonce, plaintext))
      ensures fs.trace == Observe(old(fs.trace), ViewOf(fs.disk))
      ensures Unless(ok, old(fs.failures), fs.failures, id in v.blobs)
    {
      var files := FilesAt(fs.disk, generationRoot);
      if Blob(id) in files {
        return false;
      }
      AddBlob(cipher, ViewOf(fs.disk).value, dek, v, id, nonce, plaintext);
      ok := TryFiles(files[Blob(id) := files[partial]]);
    }

    /** The view behind the hard link. */
    ghost function LinkedView(base: View, ok: bool, id: string, nonce: nat, plaintext: string): View
      reads this
    {
      if ok then Holding(cipher, dek, base, Blob(id), nonce, plaintext) else base
    }

    /** The hard link and the removal of the temporary file behind it. */
    method PublishBlob(id: string, partial: Item, plaintext: string, ghost nonce: nat, ghost v: Vault)
      returns (ok: bool)
      requires Stores(v) && Lawful(cipher) && partial.Partial? && partial in Live()
      requires Live()[partial] == Sealed(cipher, dek, cfg.encrypted, nonce, plaintext)
      modifies fs
      ensures ok ==> id !in v.blobs
      ensures Stores(if ok then PutBlob(v, id, plaintext) else v)
      ensures var next := LinkedView(old(ViewOf(fs.disk).value), ok, id, nonce, plaintext);
        StaysAlike(next, old(fs.trace), fs.trace) && Alike(next, ViewOf(fs.disk))
      ensures fs.failures >= old(fs.failures)
      ensures fs.failures == old(fs.failures) ==> (ok <==> id !in v.blobs) && partial !in Live()
    {
      ok := Link(id, partial, plaintext, nonce, v);
      ghost var linked, view := fs.trace, ViewOf(fs.disk).value;
      DropPartial(partial, if ok then PutBlob(v, id, plaintext) else v);
      AlikeObserved(view, view, old(fs.trace), linked, fs.trace);
    }

    /** The temporary file is written and synced, and dropped when one of them fails. */
    method PrepareBlob(partial: Item, content: Content, ghost v: Vault) returns (ok: bool)
      requires Stores(v) && partial.Partial?
      modifies fs
      ensures Stores(v) && Alike(ViewOf(old(fs.disk)).value, ViewOf(fs.disk))
      ensures StaysAlike(ViewOf(old(fs.disk)).value, old(fs.trace), fs.trace)
      ensures ok ==> partial in Live() && Live()[partial] == content
      ensures Unless(ok, old(fs.failures), fs.failures, partial in old(Live()))
    {
      ok := WritePartial(partial, content, v);
      ghost var base, mid, written := old(ViewOf(fs.disk).value), ViewOf(fs.disk).value, fs.trace;
      if ok {
        ok := fs.Call();
      }
      if !ok {
        DropPartial(partial, v);
        AlikeLonger(base, mid, old(fs.trace), written, fs.trace);
        AlikeFurther(base, mid, ViewOf(fs.disk));
      }
    }

    /** `write_blob` behind its check of the id. */
    method StoreBlob(id: string, plaintext: string, suffix: nat, ghost v: Vault)
      returns (ok: bool, ghost published: nat, ghost nonce: nat)
      requires Stores(v) && Lawful(cipher)
      modifies fs
      ensures ok ==> id !in v.blobs
      ensures Stores(if ok then PutBlob(v, id, plaintext) else v)
      ensures var base := ViewOf(old(fs.disk)).value;
        var next := LinkedView(base, ok, id, nonce, plaintext);
        AlikeThen(base, next, old(fs.trace), published, fs.trace) && Alike(next, ViewOf(fs.disk))
      ensures fs.failures == old(fs.failures) && Partial(id, suffix) !in old(Live())
        ==> (ok <==> id !in v.blobs) && Partial(id, suffix) !in Live()
    {
      var fresh_ := fs.Nonce();
      nonce := fresh_;
      var partial := Partial(id, suffix);
      ok := PrepareBlob(partial, Sealed(cipher, dek, cfg.encrypted, fresh_, plaintext), v);
      published := |fs.trace|;
      if ok {
        ghost var written, mid := fs.trace, ViewOf(fs.disk).value;
        ok := PublishBlob(id, partial, plaintext, nonce, v);
        PublishedAlike(old(ViewOf(fs.disk).value), mid, old(fs.trace), written, fs.trace, ViewOf(fs.disk),
                       ok, id, nonce, plaintext);
      }
    }

    /** `write_blob`. It succeeds only on a new id and then adds exactly this blob; otherwise the vault is
        unchanged. A crash before `published` finds the old vault, from there on the new one. */
    method WriteBlob(id: string, plaintext: string, suffix: nat, ghost v: Vault)
      returns (ok: bool, ghost published: nat, ghost nonce: nat)
      requires Stores(v) && Lawful(cipher)
      modifies fs
      ensures ok ==> BlobIdText(id) && id !in v.blobs
      ensures Stores(if ok then PutBlob(v, id, plaintext) else v)
      ensures ok ==> Keeps(Blob(id), nonce, plaintext)
      ensures KeptThen(cipher, keyState.keyId, v, if ok then PutBlob(v, id, plaintext) else v, old(fs.trace),
                       published, fs.trace)
      ensures var base := ViewOf(old(fs.disk)).value;
        var next := LinkedView(base, ok, id, nonce, plaintext);
        AlikeThen(base, next, old(fs.trace), published, fs.trace) && Alike(next, ViewOf(fs.disk))
      ensures fs.failures == old(fs.failures) && Partial(id, suffix) !in old(Live())
        ==> (ok <==> BlobIdText(id) && id !in v.blobs) && Partial(id, suffix) !in Live()
    {
      ghost var base := ViewOf(fs.disk).value;
      NamesAre(id);
      ok, nonce, published := false, 0, |fs.trace|;
      if ValidBlobId(id) {
        ok := fs.Call();
      }
      if ok {
        ok, published, nonce := StoreBlob(id, plaintext, suffix, v);
      }
      if ok {
        AddBlob(cipher, base, dek, v, id, nonce, plaintext);
      }
      AlikeKept(cipher, keyState.keyId, base, v, LinkedView(base, ok, id, nonce, plaintext),
                if ok then PutBlob(v, id, plaintext) else v, old(fs.trace), published, fs.trace);
    }

    lemma PublishedAlike(base: View, mid: View, before: Trace, written: Trace, after: Trace, view: Option<View>,
                         ok: bool, id: string, nonce: nat, plaintext: string)
      requires Alike(base, Some(mid)) && StaysAlike(base, before, written)
      requires var linked := LinkedView(mid, ok, id, nonce, plaintext);
        StaysAlike(linked, written, after) && Alike(linked, view)
      ensures var next := LinkedView(base, ok, id, nonce, plaintext);
        AlikeThen(base, next, before, |written|, after) && Alike(next, view)
    {
      var next, linked := LinkedView(base, ok, id, nonce, plaintext), LinkedView(mid, ok, id, nonce, plaintext);
      AlikeHolding(cipher, dek, base, mid, Blob(id), nonce, plaintext);
      AlikeLonger(next, linked, written, written, after);
      AlikeFurther(next, linked, view);
      AlikeNext(base, next, before, written, after);
    }

    /** `read_blob`: exactly the bytes of the vault, unless the file system fails. */
    method ReadBlob(id: string, ghost v: Vault) returns (done: bool, plaintext: Option<string>)
      requires Stores(v)
      modifies fs
      ensures Stores(v) && fs.trace == old(fs.trace) && fs.disk == old(fs.disk)
      ensures Went(done, old(fs.failures), fs.failures)
      ensures done ==> plaintext == if BlobIdText(id) && id in v.blobs then Some(v.blobs[id]) else None
    {
      NamesAre(id);
      if !ValidBlobId(id) {
        return true, None;
      }
      done, plaintext := ReadItem(Blob(id));
      ReadPlain(cipher, dek, cfg.encrypted, Live(), v, Blob(id));
    }

    /** `write_sqlite_bytes`: overwrites the database in place. When the write is torn the old
        database is lost and the new one is not there. */
    method WriteSqliteBytes(bytes: string, ghost v: Vault) returns (ok: bool, torn: bool, ghost nonce: nat)
      requires Stores(v) && Lawful(cipher)
      modifies fs
      ensures Coherent() && (torn ==> !ok) && Went(ok, old(fs.failures), fs.failures)
      ensures !torn ==> Stores(if ok then v.(db := Some(bytes)) else v)
      ensures !torn ==> fs.trace == Observe(old(fs.trace), ViewOf(fs.disk))
      ensures !torn ==>
        var base := ViewOf(old(fs.disk)).value;
        ViewOf(fs.disk) == Some(if ok then Holding(cipher, dek, base, Db, nonce, bytes) else base)
      ensures ok ==> Keeps(Db, nonce, bytes)
    {
      var fresh_ := fs.Nonce();
      nonce := fresh_;
      var files := FilesAt(fs.disk, generationRoot);
      torn := false;
      ReplaceDb(cipher, ViewOf(fs.disk).value, dek, v, nonce, bytes);
      ok := TryFiles(files[Db := Sealed(cipher, dek, cfg.encrypted, fresh_, bytes)]);
      if !ok {
        var left := fs.oracle.torn(fs.calls);
        if left.Some? {
          torn := true;
          var _ := TryFiles(files[Db := left.value]);
        }
      }
    }

    /** `read_sqlite_bytes`. */
    method ReadSqliteBytes(ghost v: Vault) returns (done: bool, plaintext: Option<string>)
      requires Stores(v)
      modifies fs
      ensures Stores(v) && fs.trace == old(fs.trace) && fs.disk == old(fs.disk)
      ensures Went(done, old(fs.failures), fs.failures)
      ensures done ==> plaintext == v.db
    {
      done, plaintext := ReadItem(Db);
      ReadPlain(cipher, dek, cfg.encrypted, Live(), v, Db);
    }
  }

  /** `VaultStorage::open`, read by read. `done` is false when the file system failed. */
  method OpenVault(fs: FileSystem, c: Cipher) returns (done: bool, found: Option<Instance>)
    requires fs.Valid()
    modifies fs
    ensures fs.Valid() && fs.trace == old(fs.trace) && fs.disk == old(fs.disk)
    ensures Went(done, old(fs.failures), fs.failures)
    ensures done ==> found == Open(c, fs.disk)
    ensures done ==> forall inst :: found == Some(inst) <==> OpensAs(c, fs.disk, inst)
  {
    forall inst ensures Open(c, fs.disk) == Some(inst) <==> OpensAs(c, fs.disk, inst) {
      OpensExactly(c, fs.disk, inst);
    }
    found := None;
    done := fs.Call();
    if !done || fs.disk.config.None? {
      return;
    }
    done := fs.Call();
    if !done {
      return;
    }
    var place;
    if fs.disk.pointer.Some? {
      var name := Trim(fs.disk.pointer.value);
      if !ValidName(name) || name !in fs.disk.gens {
        return;
      }
      place := Generation(name);
    } else if GENERATION_0 in fs.disk.gens {
      place := Generation(GENERATION_0);
    } else {
      place := Flat;
    }
    var files := FilesAt(fs.disk, place);
    done := fs.Call();
    if !done || KeyFile !in files || !files[KeyFile].Key? || fs.disk.kek.None? {
      return;
    }
    var state := files[KeyFile].state;
    var dek := c.open(fs.disk.kek.value, state.wrappedDek);
    if dek.Some? && |dek.value| == DEK_LENGTH {
      found := Some(Instance(place, dek.value, fs.disk.config.value, state));
    }
  }

  // ----- Creation -----

  const EMPTY_VAULT: Vault := Vault(map[], None)
  const FIRST_KEY := "kek_v1"

  /** `vault_state_exists`. */
  predicate VaultStateExists(d: Disk) {
    || d.config.Some?
    || KeyFile in d.flat
    || d.pointer.Some?
    || (GENERATION_0 in d.gens && KeyFile in d.gens[GENERATION_0])
  }

  /** The directory of the first generation. */
  function FirstFiles(d: Disk): Files {
    FilesAt(d, Generation(GENERATION_0))
  }

  /** A first generation without data. */
  ghost predicate NoData(files: Files) {
    Db !in files && forall id :: Blob(id) !in files
  }

  /** Neither a configuration nor a pointer: nothing opens. */
  predicate Unborn(d: Disk) {
    d.config.None? && d.pointer.None?
  }

  /** `create` refuses the directory because state exists, and `open` finds no vault in it. */
  predicate Stuck(d: Disk) {
    VaultStateExists(d) && ViewOf(d).None?
  }

  /** What a creation starts from and what it is to use: the files of the first generation, the key
      encryption key that is there or else the new one, and the key storage. */
  datatype Birth = Birth(files: Files, kek: string, storage: KeyStorage)

  function BirthAt(d: Disk, newKek: string, storage: KeyStorage): Birth {
    Birth(FirstFiles(d), if d.kek.Some? then d.kek.value else newKek, storage)
  }

  /** Creation changes nothing but the first generation, a missing key encryption key, and temporary
      files; in the first generation, nothing but the key state. */
  predicate Growing(before: Disk, after: Disk, birth: Birth) {
    && Unborn(after) && after.flat == before.flat
    && after.gens - {GENERATION_0} == before.gens - {GENERATION_0}
    && FirstFiles(after) - {KeyFile} == birth.files - {KeyFile}
    && (after.kek == before.kek || (before.kek.None? && after.kek == Some(birth.kek)))
  }

  /** The view opens with the first key to the data that lay in the first generation, through the key
      encryption key and from the key storage of this birth. */
  ghost predicate First(c: Cipher, birth: Birth, view: View) {
    && Load(c, view).Some? && Load(c, view).value.keyState.keyId == "kek_v1"
    && Load(c, view).value.keyState.storage == birth.storage && view.kek == birth.kek
    && view.place == Generation(GENERATION_0) && view.files - {KeyFile} == birth.files - {KeyFile}
  }

  /** If no data lay there, that is the empty vault. */
  lemma FirstIsEmpty(c: Cipher, birth: Birth, view: View)
    requires First(c, birth, view) && NoData(birth.files)
    ensures OpensTo(c, Some(view), FIRST_KEY, EMPTY_VAULT)
  {
    forall item: Item | item != KeyFile ensures item in view.files <==> item in birth.files {
      assert item in view.files - {KeyFile} <==> item in birth.files - {KeyFile};
    }
  }

  /** A crash finds no vault, or the first one. */
  ghost predicate NoneOrFirst(c: Cipher, birth: Birth, before: Trace, after: Trace) {
    && before <= after
    && forall k :: |before| <= k < |after| ==> after[k].None? || First(c, birth, after[k].value)
  }

  /** Without leftover data, a crash finds no vault or the empty one. */
  lemma NoneOrEmpty(c: Cipher, birth: Birth, before: Trace, after: Trace, k: nat)
    requires NoneOrFirst(c, birth, before, after) && NoData(birth.files) && |before| <= k < |after|
    ensures after[k].None? || OpensTo(c, after[k], FIRST_KEY, EMPTY_VAULT)
  {
    if after[k].Some? {
      FirstIsEmpty(c, birth, after[k].value);
    }
  }

  /** One atomic change while there is no vault. */
  method TryUnborn(fs: FileSystem, c: Cipher, next: Disk, ghost start: Disk, ghost birth: Birth)
    returns (ok: bool)
    requires fs.Valid() && Growing(start, fs.disk, birth) && Growing(start, next, birth)
    modifies fs
    ensures fs.Valid() && Growing(start, fs.disk, birth) && fs.disk == if ok then next else old(fs.disk)
    ensures NoneOrFirst(c, birth, old(fs.trace), fs.trace) && Went(ok, old(fs.failures), fs.failures)
  {
    ok := fs.Try(next);
  }

  lemma GrowingKey(start: Disk, d: Disk, birth: Birth, content: Content)
    requires Growing(start, d, birth)
    ensures Growing(start, WithGeneration(d, GENERATION_0, FirstFiles(d)), birth)
    ensures Growing(start, WithGeneration(d, GENERATION_0, FirstFiles(d)[KeyFile := content]), birth)
  {
    assert FirstFiles(d)[KeyFile := content] - {KeyFile} == FirstFiles(d) - {KeyFile};
  }

  /** `fs::write` of the key state; a failing one may leave anything there. */
  method WriteFirstKey(fs: FileSystem, c: Cipher, state: KeyState, ghost start: Disk, ghost birth: Birth)
    returns (ok: bool)
    requires fs.Valid() && Growing(start, fs.disk, birth) && GENERATION_0 in fs.disk.gens
    modifies fs
    ensures fs.Valid() && Growing(start, fs.disk, birth)
    ensures NoneOrFirst(c, birth, old(fs.trace), fs.trace)
    ensures fs.disk.kek == old(fs.disk).kek && fs.disk.scratch == old(fs.disk).scratch
    ensures ok ==> GENERATION_0 in fs.disk.gens && KeyFile in FirstFiles(fs.disk)
                   && FirstFiles(fs.disk)[KeyFile] == Key(state)
    ensures Went(ok, old(fs.failures), fs.failures)
  {
    var files := FirstFiles(fs.disk);
    GrowingKey(start, fs.disk, birth, Key(state));
    ok := TryUnborn(fs, c, WithGeneration(fs.disk, GENERATION_0, files[KeyFile := Key(state)]), start, birth);
    if !ok {
      var left := fs.oracle.torn(fs.calls);
      if left.Some? {
        GrowingKey(start, fs.disk, birth, left.value);
        var _ := TryUnborn(fs, c, WithGeneration(fs.disk, GENERATION_0, files[KeyFile := left.value]), start, birth);
      }
    }
  }

  /** The first generation with its key state; the key encryption key is made or reused. From the key
      state on, until there is a configuration, the directory is stuck. */
  method WriteFirstGeneration(fs: FileSystem, c: Cipher, newKek: string, dek: string, storage: KeyStorage)
    returns (ok: bool)
    requires fs.Valid() && Unborn(fs.disk) && Lawful(c) && |dek| == DEK_LENGTH
    modifies fs
    ensures fs.Valid() && Growing(old(fs.disk), fs.disk, BirthAt(old(fs.disk), newKek, storage))
    ensures NoneOrFirst(c, BirthAt(old(fs.disk), newKek, storage), old(fs.trace), fs.trace)
    ensures ok ==>
      && Born(c, fs.disk, dek, BirthAt(old(fs.disk), newKek, storage))
      && fs.disk.scratch == old(fs.disk).scratch && Stuck(fs.disk)
    ensures Went(ok, old(fs.failures), fs.failures)
  {
    ghost var start, birth := fs.disk, BirthAt(fs.disk, newKek, storage);
    GrowingKey(start, start, birth, Data(""));
    ok := TryUnborn(fs, c, WithGeneration(fs.disk, GENERATION_0, FirstFiles(fs.disk)), start, birth);
    if ok && fs.disk.kek.None? {
      ok := TryUnborn(fs, c, fs.disk.(kek := Some(newKek)), start, birth);
    }
    if ok {
      var nonce := fs.Nonce();
      var state := KeyState(FIRST_KEY, storage, c.seal(fs.disk.kek.value, nonce, dek));
      ok := WriteFirstKey(fs, c, state, start, birth);
    }
  }

  /** The first generation is ready; only the configuration is missing. */
  ghost predicate Born(c: Cipher, d: Disk, dek: string, birth: Birth) {
    && d.kek == Some(birth.kek) && GENERATION_0 in d.gens && KeyFile in d.gens[GENERATION_0]
    && d.gens[GENERATION_0][KeyFile].Key?
    && d.gens[GENERATION_0][KeyFile].state.keyId == FIRST_KEY
    && d.gens[GENERATION_0][KeyFile].state.storage == birth.storage
    && c.open(d.kek.value, d.gens[GENERATION_0][KeyFile].state.wrappedDek) == Some(dek) && |dek| == DEK_LENGTH
  }

  /** Writing the configuration is what brings the vault into being. */
  lemma ConfigOpens(c: Cipher, start: Disk, d: Disk, cfg: Config, dek: string, birth: Birth)
    requires Growing(start, d, birth) && Born(c, d, dek, birth)
    ensures var after := d.(config := Some(cfg));
      && ViewOf(after).Some? && First(c, birth, ViewOf(after).value)
      && Open(c, after) == Some(Instance(Generation(GENERATION_0), dek, cfg, d.gens[GENERATION_0][KeyFile].state))
  {
  }

  lemma FirstName()
    ensures ValidName(GENERATION_0)
  {
  }

  /** The configuration, written to a temporary file and renamed into place. */
  method WriteConfig(fs: FileSystem, c: Cipher, cfg: Config, temporary: string, dek: string, ghost start: Disk,
                     ghost birth: Birth)
    returns (ok: bool)
    requires fs.Valid() && Growing(start, fs.disk, birth) && Born(c, fs.disk, dek, birth)
    modifies fs
    ensures fs.Valid() && NoneOrFirst(c, birth, old(fs.trace), fs.trace)
    ensures Unless(ok, old(fs.failures), fs.failures, temporary in old(fs.disk).scratch)
    ensures ok ==> temporary !in fs.disk.scratch
    ensures if ok then IsBorn(c, birth, fs.disk, cfg, dek) else Growing(start, fs.disk, birth)
  {
    ok := temporary !in fs.disk.scratch;
    if ok {
      ok := TryUnborn(fs, c, fs.disk.(scratch := fs.disk.scratch[temporary := ""]), start, birth);
      if ok {
        ok := fs.Call();
      }
    }
    if ok {
      ConfigOpens(c, start, fs.disk.(scratch := fs.disk.scratch - {temporary}), cfg, dek, birth);
      ok := fs.Try(fs.disk.(config := Some(cfg), scratch := fs.disk.scratch - {temporary}));
    }
    if !ok {
      var _ := TryUnborn(fs, c, fs.disk.(scratch := fs.disk.scratch - {temporary}), start, birth);
    }
  }

  /** The disk opens to the first generation with this configuration and key. */
  ghost predicate IsBorn(c: Cipher, birth: Birth, d: Disk, cfg: Config, dek: string) {
    && ViewOf(d).Some? && First(c, birth, ViewOf(d).value)
    && Open(c, d).Some? && Open(c, d).value.dek == dek && Open(c, d).value.cfg == cfg
  }

  /** The rest of creation, behind the configuration: syncs, the pointer, and the shared lock. */
  method PublishFirst(fs: FileSystem, c: Cipher, cfg: Config, temporary: string, dek: string, ghost birth: Birth)
    returns (ok: bool)
    requires fs.Valid() && IsBorn(c, birth, fs.disk, cfg, dek)
    modifies fs
    ensures fs.Valid() && IsBorn(c, birth, fs.disk, cfg, dek)
    ensures NoneOrFirst(c, birth, old(fs.trace), fs.trace)
    ensures Unless(ok, old(fs.failures), fs.failures, temporary in old(fs.disk).scratch)
  {
    ok := fs.Call();
    if ok {
      FirstName();
      OpenIsThere(fs.disk);
      ghost var view := ViewOf(fs.disk);
      ok := fs.Publish(GENERATION_0, temporary);
      assert ViewOf(fs.disk) == view;
    }
    if ok {
      ok := fs.Call();
    }
  }

  datatype CreateResult = Created | AlreadyExists | CreateInProgress | CreateFailed

  /** `create_with_key_storage`. `lockFree` is what `try_lock` finds. Existing vault state is never
      touched; at every point a crash finds no vault or the first one; and a failed creation can be
      repeated exactly if it left neither a configuration nor a key state. With a configuration the
      vault is there; with a key state only, the directory can neither be opened nor created in. */
  method CreateVault(fs: FileSystem, c: Cipher, cfg: Config, newKek: string, dek: string, storage: KeyStorage,
                     temporary: string, lockFree: bool)
    returns (result: CreateResult)
    requires fs.Valid() && Lawful(c) && |dek| == DEK_LENGTH
    modifies fs
    ensures fs.Valid() && NoneOrFirst(c, BirthAt(old(fs.disk), newKek, storage), old(fs.trace), fs.trace)
    ensures result == AlreadyExists
      <==> || old(fs.disk).config.Some? || KeyFile in old(fs.disk).flat || old(fs.disk).pointer.Some?
           || KeyFile in FilesAt(old(fs.disk), Generation("generation-0"))
    ensures result == CreateInProgress <==> !lockFree && result != AlreadyExists
    ensures result == AlreadyExists || result == CreateInProgress
      ==> fs.disk == old(fs.disk) && fs.trace == old(fs.trace)
    ensures result == Created ==> IsBorn(c, BirthAt(old(fs.disk), newKek, storage), fs.disk, cfg, dek)
    ensures result == Created ==>
      Open(c, fs.disk).value.keyState.storage == storage && Open(c, fs.disk).value.keyState.keyId == "kek_v1"
    ensures result == Created ==> fs.disk.kek == if old(fs.disk).kek.Some? then old(fs.disk).kek else Some(newKek)
    ensures result == CreateFailed ==>
      fs.failures > old(fs.failures) || temporary in old(fs.disk).scratch
    ensures result == CreateFailed ==>
      && (!VaultStateExists(fs.disk) <==> fs.disk.config.None? && KeyFile !in FirstFiles(fs.disk))
      && (Stuck(fs.disk) <==> fs.disk.config.None? && KeyFile in FirstFiles(fs.disk))
      && (fs.disk.config.Some? ==> IsBorn(c, BirthAt(old(fs.disk), newKek, storage), fs.disk, cfg, dek))
  {
    if !lockFree {
      return if VaultStateExists(fs.disk) then AlreadyExists else CreateInProgress;
    }
    if VaultStateExists(fs.disk) {
      return AlreadyExists;
    }
    ghost var start, birth := fs.disk, BirthAt(fs.disk, newKek, storage);
    var ok := WriteFirstGeneration(fs, c, newKek, dek, storage);
    if ok {
      ok := fs.Call();
    }
    if ok {
      ok := WriteConfig(fs, c, cfg, temporary, dek, start, birth);
      if ok {
        ok := PublishFirst(fs, c, cfg, temporary, dek, birth);
      }
    }
    result := if ok then Created else CreateFailed;
  }
}
