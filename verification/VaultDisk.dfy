/** A vault directory as a value, and what opening it would find. */
module VaultDisk {
  import opened Options
  import opened Strings

  /** One file of a generation: the database, a blob, an interrupted blob write, a cache file, or
      the key state. */
  datatype Item = Db | Blob(id: string) | Partial(id: string, suffix: nat) | Cache(name: string) | KeyFile

  datatype KeyStorage = MACOS_KEYCHAIN | WINDOWS_DPAPI | FILE_FALLBACK

  datatype KeyState = KeyState(keyId: string, storage: KeyStorage, wrappedDek: string)

  datatype Content = Data(bytes: string) | Key(state: KeyState)

  type Files = map<Item, Content>

  datatype Config = Config(vaultId: string, encrypted: bool)

  /** Where a generation lies: flat in the vault root, or under `generations/`. */
  datatype Place = Flat | Generation(name: string)

  /** The vault root. `gens` are the directories under `generations/`, `scratch` the temporary files
      under `meta/`, `kek` the key encryption key in whichever store holds it. */
  datatype Disk = Disk(config: Option<Config>, kek: Option<string>, pointer: Option<string>,
                       flat: Files, gens: map<string, Files>, scratch: map<string, string>)

  const PREFIX := "generation-"
  const STAGING := ".staging-"

  /** The generation a vault is created with. */
  const GENERATION_0 := "generation-0"

  predicate Digits(suffix: string) {
    suffix != [] && forall i :: 0 <= i < |suffix| ==> '0' <= suffix[i] <= '9'
  }

  predicate NameChar(c: char) {
    'a' <= c <= 'z' || 'A' <= c <= 'Z' || '0' <= c <= '9' || c == '-'
  }

  /** What `open` asks of a generation pointer. */
  predicate ValidName(name: string) {
    name != [] && forall i :: 0 <= i < |name| ==> NameChar(name[i])
  }

  /** The generation `open` chooses. */
  function Resolve(d: Disk): Option<Place> {
    if d.pointer.Some? then
      var name := Trim(d.pointer.value);
      if ValidName(name) && name in d.gens then Some(Generation(name)) else None
    else if GENERATION_0 in d.gens then Some(Generation(GENERATION_0))
    else Some(Flat)
  }

  function FilesAt(d: Disk, place: Place): Files {
    match place
    case Flat => d.flat
    case Generation(name) => if name in d.gens then d.gens[name] else map[]
  }

  /** All of a disk that opening and reading depend on. */
  datatype View = View(cfg: Config, kek: string, place: Place, files: Files)

  function ViewOf(d: Disk): Option<View> {
    var place := Resolve(d);
    if d.config.None? || d.kek.None? || place.None? then None
    else Some(View(d.config.value, d.kek.value, place.value, FilesAt(d, place.value)))
  }

  // ----- Keys and contents -----

  /** Authenticated encryption: `seal(key, nonce, plaintext)` and `open(key, sealed)`. */
  datatype Cipher = Cipher(seal: (string, nat, string) -> string, open: (string, string) -> Option<string>)

  /** What is sealed under a key opens under it. */
  ghost predicate Lawful(c: Cipher) {
    forall k, n, p :: c.open(k, c.seal(k, n, p)) == Some(p)
  }

  const DEK_LENGTH := 32

  /** What an open instance holds in memory. */
  datatype Instance = Instance(place: Place, dek: string, cfg: Config, keyState: KeyState)

  /** `VaultStorage::open` on a view: the key state must be there and unwrap to a key. */
  function Load(c: Cipher, v: View): Option<Instance> {
    if KeyFile !in v.files || !v.files[KeyFile].Key? then None
    else
      var state := v.files[KeyFile].state;
      var dek := c.open(v.kek, state.wrappedDek);
      if dek.None? || |dek.value| != DEK_LENGTH then None
      else Some(Instance(v.place, dek.value, v.cfg, state))
  }

  function Open(c: Cipher, d: Disk): Option<Instance> {
    var v := ViewOf(d);
    if v.None? then None else Load(c, v.value)
  }

  /** The bytes a data file holds, decrypted if the vault encrypts. */
  function Read(c: Cipher, dek: string, encrypted: bool, files: Files, item: Item): Option<string> {
    if item !in files || !files[item].Data? then None
    else if encrypted then c.open(dek, files[item].bytes)
    else Some(files[item].bytes)
  }

  /** The bytes to store for a plaintext. */
  function Sealed(c: Cipher, dek: string, encrypted: bool, nonce: nat, plaintext: string): Content {
    Data(if encrypted then c.seal(dek, nonce, plaintext) else plaintext)
  }

  /** The abstract vault: a map of blobs and a database cell. */
  datatype Vault = Vault(blobs: map<string, string>, db: Option<string>)

  /** These files hold this vault under this key. */
  ghost predicate Holds(c: Cipher, dek: string, encrypted: bool, files: Files, v: Vault) {
    && (forall id :: Blob(id) in files <==> id in v.blobs)
    && (forall id :: id in v.blobs ==> Read(c, dek, encrypted, files, Blob(id)) == Some(v.blobs[id]))
    && (Db in files <==> v.db.Some?)
    && (v.db.Some? ==> Read(c, dek, encrypted, files, Db) == v.db)
  }

  /** The view opens with this key id, to this vault. */
  ghost predicate OpensTo(c: Cipher, view: Option<View>, keyId: string, v: Vault) {
    && view.Some? && Load(c, view.value).Some?
    && var i := Load(c, view.value).value;
       i.keyState.keyId == keyId && Holds(c, i.dek, i.cfg.encrypted, view.value.files, v)
  }

  /** The vault is determined by what the disk opens to. */
  lemma OpensToOne(c: Cipher, view: Option<View>, k1: string, v1: Vault, k2: string, v2: Vault)
    requires OpensTo(c, view, k1, v1) && OpensTo(c, view, k2, v2)
    ensures k1 == k2 && v1 == v2
  {
    assert forall id :: id in v1.blobs <==> Blob(id) in view.value.files;
    assert forall id :: id in v2.blobs <==> Blob(id) in view.value.files;
    assert v1.blobs == v2.blobs;
  }

  /** The plaintext of an item of a vault. */
  function Plain(v: Vault, item: Item): Option<string> {
    match item
    case Db => v.db
    case Blob(id) => if id in v.blobs then Some(v.blobs[id]) else None
    case _ => None
  }

  /** Reading an item of the files that hold a vault gives the vault's plaintext. */
  lemma ReadPlain(c: Cipher, dek: string, encrypted: bool, files: Files, v: Vault, item: Item)
    requires Holds(c, dek, encrypted, files, v) && (item.Db? || item.Blob?)
    ensures Read(c, dek, encrypted, files, item) == Plain(v, item)
    ensures item in files <==> Plain(v, item).Some?
  {
  }

  /** The content is the plaintext sealed under the key, or the plaintext if the vault does not encrypt. */
  ghost predicate SealedAs(c: Cipher, dek: string, encrypted: bool, content: Content, plaintext: string) {
    && content.Data?
    && if encrypted then exists n :: content.bytes == c.seal(dek, n, plaintext) else content.bytes == plaintext
  }

  /** Every blob and the database of the vault lie in these files, sealed if the vault encrypts. */
  ghost predicate AllSealed(c: Cipher, dek: string, encrypted: bool, files: Files, v: Vault) {
    && (forall id :: id in v.blobs ==>
          Blob(id) in files && SealedAs(c, dek, encrypted, files[Blob(id)], v.blobs[id]))
    && (v.db.Some? ==> Db in files && SealedAs(c, dek, encrypted, files[Db], v.db.value))
  }

  lemma SealedIsSealed(c: Cipher, dek: string, encrypted: bool, nonce: nat, plaintext: string)
    ensures SealedAs(c, dek, encrypted, Sealed(c, dek, encrypted, nonce, plaintext), plaintext)
  {
  }

  /** A generation that opens with this key state and key, and holds this vault, sealed. */
  ghost predicate Complete(c: Cipher, kek: string, encrypted: bool, files: Files, state: KeyState, dek: string,
                           v: Vault)
  {
    && KeyFile in files && files[KeyFile] == Key(state)
    && c.open(kek, state.wrappedDek) == Some(dek) && |dek| == DEK_LENGTH
    && Holds(c, dek, encrypted, files, v) && AllSealed(c, dek, encrypted, files, v)
  }

  /** A disk whose view is a complete generation opens to it. */
  lemma OpensComplete(c: Cipher, d: Disk, view: View, state: KeyState, dek: string, v: Vault)
    requires ViewOf(d) == Some(view) && Complete(c, view.kek, view.cfg.encrypted, view.files, state, dek, v)
    ensures Open(c, d) == Some(Instance(view.place, dek, view.cfg, state))
    ensures Holds(c, dek, view.cfg.encrypted, view.files, v)
  {
  }

  // ----- Changes that opening does not see -----

  function WithGeneration(d: Disk, name: string, files: Files): Disk {
    d.(gens := d.gens[name := files])
  }

  function WithoutGeneration(d: Disk, name: string): Disk {
    d.(gens := d.gens - {name})
  }

  /** The disk opens somewhere else than at this generation, and would not fall back to it. */
  predicate Hidden(d: Disk, name: string) {
    && ViewOf(d).Some? && ViewOf(d).value.place != Generation(name)
    && (name == GENERATION_0 ==> d.pointer.Some?)
  }

  lemma WriteHidden(d: Disk, name: string, files: Files)
    requires Hidden(d, name)
    ensures ViewOf(WithGeneration(d, name, files)) == ViewOf(d)
  {
  }

  lemma RemoveHidden(d: Disk, name: string)
    requires Hidden(d, name)
    ensures ViewOf(WithoutGeneration(d, name)) == ViewOf(d)
  {
  }

  /** The open generation is there, under a name that `open` accepts. */
  lemma OpenIsThere(d: Disk)
    requires ViewOf(d).Some?
    ensures ViewOf(d).value.place.Generation? ==>
      var name := ViewOf(d).value.place.name; name in d.gens && (name == GENERATION_0 || ValidName(name))
  {
  }

  // ----- Copying a generation -----

  /** The files a rotation copies: everything but interrupted blob writes. */
  predicate Copied(files: Files, item: Item) {
    item in files && !item.Partial?
  }

  /** `files` holds exactly the copied files of `source` outside `todo`. */
  ghost predicate CopiedBut(source: Files, files: Files, todo: set<Item>) {
    && (forall item :: item in files <==> Copied(source, item) && item !in todo)
    && (forall item :: item in files ==> files[item] == source[item])
  }

  /** The caches of the source and no others, and no interrupted blob writes. */
  ghost predicate Carried(source: Files, files: Files) {
    && (forall name :: Cache(name) in files <==> Cache(name) in source)
    && (forall name :: Cache(name) in files && Cache(name) in source ==> files[Cache(name)] == source[Cache(name)])
    && (forall id, suffix :: Partial(id, suffix) !in files)
  }

  lemma CopyCarries(source: Files, files: Files)
    requires CopiedBut(source, files, {})
    ensures Carried(source, files)
  {
    forall name ensures Cache(name) in files <==> Cache(name) in source {
      assert Cache(name) in files <==> Copied(source, Cache(name));
    }
    forall id, suffix ensures Partial(id, suffix) !in files {
      assert !Copied(source, Partial(id, suffix));
    }
  }

  lemma CopyOne(source: Files, files: Files, todo: set<Item>, item: Item)
    requires CopiedBut(source, files, todo) && item in todo && Copied(source, item)
    ensures CopiedBut(source, files[item := source[item]], todo - {item})
  {
  }

  // ----- The pointer -----

  lemma TrimName(name: string)
    requires ValidName(name)
    ensures Trim(name + "\n") == name
  {
    var s := name + "\n";
    assert NameChar(name[0]) && NameChar(name[|name| - 1]);
    assert s[0] == name[0] && TrimStart(s) == s;
    assert s[..|s| - 1] == name && TrimEnd(name) == name;
  }

  /** The disk after the pointer has been replaced. */
  function Pointing(d: Disk, name: string, scratch: map<string, string>): Disk {
    d.(pointer := Some(name + "\n"), scratch := scratch)
  }

  /** From then on the disk opens at the generation pointed to. */
  lemma PointsTo(d: Disk, name: string, scratch: map<string, string>)
    requires ViewOf(d).Some? && name in d.gens && ValidName(name)
    ensures ViewOf(Pointing(d, name, scratch))
         == Some(View(ViewOf(d).value.cfg, ViewOf(d).value.kek, Generation(name), d.gens[name]))
  {
    TrimName(name);
  }

  /** The generations rotations make have names that `open` accepts; only the suffix 0 names the
      first. Their stages have names that it does not accept. */
  lemma GenerationNames(suffix: string)
    requires Digits(suffix) && suffix != "0"
    ensures ValidName(PREFIX + suffix) && PREFIX + suffix != GENERATION_0
    ensures !ValidName(STAGING + (PREFIX + suffix)) && STAGING + (PREFIX + suffix) != GENERATION_0
  {
    var name := PREFIX + suffix;
    assert |name| == |PREFIX| + |suffix| && name[|PREFIX|..] == suffix;
    assert GENERATION_0[|PREFIX|..] == "0";
    assert (STAGING + name)[0] == '.';
    assert GENERATION_0[0] == 'g';
  }

  // ----- Changes of the open generation -----

  function WithFiles(d: Disk, place: Place, files: Files): Disk {
    match place
    case Flat => d.(flat := files)
    case Generation(name) => WithGeneration(d, name, files)
  }

  lemma ViewWithFiles(d: Disk, files: Files)
    requires ViewOf(d).Some?
    ensures ViewOf(WithFiles(d, ViewOf(d).value.place, files)) == Some(ViewOf(d).value.(files := files))
  {
  }

  /** The files differ at most in interrupted writes and caches. */
  ghost predicate SameData(a: Files, b: Files) {
    && (KeyFile in a <==> KeyFile in b) && (KeyFile in a ==> a[KeyFile] == b[KeyFile])
    && (Db in a <==> Db in b) && (Db in a ==> a[Db] == b[Db])
    && (forall item: Item :: item.Blob? ==> (item in a <==> item in b))
    && (forall item: Item :: item.Blob? && item in a && item in b ==> a[item] == b[item])
  }

  lemma PartialOnly(files: Files, partial: Item, content: Content)
    requires partial.Partial?
    ensures SameData(files, files[partial := content]) && SameData(files, files - {partial})
  {
  }

  lemma SameDataOpens(c: Cipher, v: View, files: Files, dek: string, vault: Vault)
    requires SameData(v.files, files)
    ensures Load(c, v.(files := files)) == Load(c, v)
    ensures Holds(c, dek, v.cfg.encrypted, v.files, vault) ==> Holds(c, dek, v.cfg.encrypted, files, vault)
  {
    assert forall item: Item :: item.Db? || item.Blob? ==>
      Read(c, dek, v.cfg.encrypted, files, item) == Read(c, dek, v.cfg.encrypted, v.files, item);
  }

  /** A view that differs from another one at most in interrupted writes and caches. */
  ghost predicate Alike(base: View, view: Option<View>) {
    view.Some? && view.value == base.(files := view.value.files) && SameData(base.files, view.value.files)
  }

  lemma AlikeFurther(a: View, b: View, view: Option<View>)
    requires Alike(a, Some(b)) && Alike(b, view)
    ensures Alike(a, view)
  {
  }

  /** Alike views open to one vault. */
  lemma AlikeOpens(c: Cipher, base: View, view: Option<View>, keyId: string, v: Vault)
    requires Alike(base, view) && OpensTo(c, Some(base), keyId, v)
    ensures OpensTo(c, view, keyId, v)
  {
    SameDataOpens(c, base, view.value.files, Load(c, base).value.dek, v);
  }

  /** The view with one item sealed into it. */
  function Holding(c: Cipher, dek: string, view: View, item: Item, nonce: nat, plaintext: string): View {
    view.(files := view.files[item := Sealed(c, dek, view.cfg.encrypted, nonce, plaintext)])
  }

  lemma AlikeHolding(c: Cipher, dek: string, a: View, b: View, item: Item, nonce: nat, plaintext: string)
    requires Alike(a, Some(b))
    ensures Alike(Holding(c, dek, a, item, nonce, plaintext), Some(Holding(c, dek, b, item, nonce, plaintext)))
  {
  }

  function PutBlob(v: Vault, id: string, plaintext: string): Vault {
    v.(blobs := v.blobs[id := plaintext])
  }

  lemma AddBlob(c: Cipher, view: View, dek: string, v: Vault, id: string, nonce: nat, plaintext: string)
    requires Lawful(c) && Holds(c, dek, view.cfg.encrypted, view.files, v)
    ensures var files := view.files[Blob(id) := Sealed(c, dek, view.cfg.encrypted, nonce, plaintext)];
      && Load(c, view.(files := files)) == Load(c, view)
      && Holds(c, dek, view.cfg.encrypted, files, PutBlob(v, id, plaintext))
  {
    var encrypted := view.cfg.encrypted;
    var files := view.files[Blob(id) := Sealed(c, dek, encrypted, nonce, plaintext)];
    assert Read(c, dek, encrypted, files, Blob(id)) == Some(plaintext);
    assert forall item :: item != Blob(id) ==>
      Read(c, dek, encrypted, files, item) == Read(c, dek, encrypted, view.files, item);
  }

  lemma ReplaceDb(c: Cipher, view: View, dek: string, v: Vault, nonce: nat, plaintext: string)
    requires Lawful(c) && Holds(c, dek, view.cfg.encrypted, view.files, v)
    ensures var files := view.files[Db := Sealed(c, dek, view.cfg.encrypted, nonce, plaintext)];
      && Load(c, view.(files := files)) == Load(c, view)
      && Holds(c, dek, view.cfg.encrypted, files, v.(db := Some(plaintext)))
  {
    var encrypted := view.cfg.encrypted;
    var files := view.files[Db := Sealed(c, dek, encrypted, nonce, plaintext)];
    assert Read(c, dek, encrypted, files, Db) == Some(plaintext);
    assert forall item :: item != Db ==>
      Read(c, dek, encrypted, files, item) == Read(c, dek, encrypted, view.files, item);
  }

  /** `BlobId`. */
  predicate ValidBlobId(id: string) {
    id != [] && forall i :: 0 <= i < |id| ==> NameChar(id[i]) || id[i] == '_'
  }

  // ----- Names, and what opens, spelled out -----

  /** An ASCII letter or digit. */
  predicate LetterOrDigit(ch: char) {
    || ch in "ABCDEFGHIJKLMNOPQRSTUVWXYZ"
    || ch in "abcdefghijklmnopqrstuvwxyz"
    || ch in "0123456789"
  }

  lemma InUpper(ch: char)
    ensures ch in "ABCDEFGHIJKLMNOPQRSTUVWXYZ" <==> 'A' <= ch <= 'Z'
  {
    var s := "ABCDEFGHIJKLMNOPQRSTUVWXYZ";
    if 'A' <= ch <= 'Z' { assert s[ch as int - 'A' as int] == ch; }
  }

  lemma InLower(ch: char)
    ensures ch in "abcdefghijklmnopqrstuvwxyz" <==> 'a' <= ch <= 'z'
  {
    var s := "abcdefghijklmnopqrstuvwxyz";
    if 'a' <= ch <= 'z' { assert s[ch as int - 'a' as int] == ch; }
  }

  lemma InDigits(ch: char)
    ensures ch in "0123456789" <==> '0' <= ch <= '9'
  {
    var s := "0123456789";
    if '0' <= ch <= '9' { assert s[ch as int - '0' as int] == ch; }
  }

  lemma NameCharIs(ch: char)
    ensures NameChar(ch) <==> LetterOrDigit(ch) || ch == '-'
  {
    InUpper(ch);
    InLower(ch);
    InDigits(ch);
  }

  /** Letters, digits, hyphens and underscores, and at least one of them. */
  ghost predicate BlobIdText(id: string) {
    id != "" && forall ch :: ch in id ==> LetterOrDigit(ch) || ch == '-' || ch == '_'
  }

  /** Letters, digits and hyphens, and at least one of them. */
  ghost predicate GenerationText(name: string) {
    name != "" && forall ch :: ch in name ==> LetterOrDigit(ch) || ch == '-'
  }

  lemma NamesAre(name: string)
    ensures ValidBlobId(name) <==> BlobIdText(name)
    ensures ValidName(name) <==> GenerationText(name)
  {
    forall ch ensures NameChar(ch) <==> LetterOrDigit(ch) || ch == '-' { NameCharIs(ch); }
  }

  /** The generation a disk opens at: the one its pointer names, without a pointer the first one if its
      directory is there, and otherwise the vault root itself. */
  ghost predicate ActiveAt(d: Disk, place: Place, files: Files) {
    match d.pointer
    case Some(text) =>
      GenerationText(Trim(text)) && place == Generation(Trim(text))
      && Trim(text) in d.gens && files == d.gens[Trim(text)]
    case None =>
      if "generation-0" in d.gens then place == Generation("generation-0") && files == d.gens["generation-0"]
      else place == Flat && files == d.flat
  }

  /** The disk opens to this instance: there are a configuration and a key encryption key, and the
      active generation has a key state that unwraps with it to a key of thirty-two bytes. */
  ghost predicate OpensAs(c: Cipher, d: Disk, inst: Instance) {
    && d.config == Some(inst.cfg) && d.kek.Some? && |inst.dek| == 32
    && exists files :: ActiveAt(d, inst.place, files) && KeyFile in files
         && files[KeyFile] == Key(inst.keyState) && c.open(d.kek.value, inst.keyState.wrappedDek) == Some(inst.dek)
  }

  lemma OpensExactly(c: Cipher, d: Disk, inst: Instance)
    ensures Open(c, d) == Some(inst) <==> OpensAs(c, d, inst)
  {
    if d.pointer.Some? {
      NamesAre(Trim(d.pointer.value));
    }
    if Open(c, d) == Some(inst) {
      assert ActiveAt(d, inst.place, FilesAt(d, inst.place));
    }
  }
}
