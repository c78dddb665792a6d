/** The run in which a second rotation slips between the unlock and the try-lock of an upgrade. */
module VaultUpgradeGap {
  import opened Options
  import opened VaultDisk
  import opened VaultWorld

  /** A lawful cipher, for a vault that does not encrypt its data. */
  function PlainCipher(): Cipher {
    Cipher((k, n, p) => p, (k, s) => Some(s))
  }

  const CFG: Config := Config("vault", false)

  function State(keyId: string, dek: string): KeyState {
    KeyState(keyId, FILE_FALLBACK, dek)
  }

  function EmptyFiles(keyId: string, dek: string): Files {
    map[KeyFile := Key(State(keyId, dek))]
  }

  function Inst(name: string, keyId: string, dek: string): Instance {
    Instance(Generation(name), dek, CFG, State(keyId, dek))
  }

  /** Publishes an empty generation under this name and key id. */
  function Publishing(i: nat, d: Disk, name: string, keyId: string, dek: string): Action {
    Swap(i, name, dek, State(keyId, dek), Vault(map[], None),
         Pointing(WithGeneration(d, name, EmptyFiles(keyId, dek)), name, d.scratch))
  }

  /** An exclusive holder whose generation is empty may publish an empty generation under a new name. */
  lemma CanPublish(c: Cipher, w: World, i: nat, name: string, keyId: string, dek: string)
    requires c == PlainCipher() && i in w.instances && i in w.locks && w.locks[i] == Exclusive
    requires ViewOf(w.disk).Some? && |dek| == DEK_LENGTH && ValidName(name)
    requires Exists(w.disk, w.instances[i].place)
    requires forall j :: j in w.instances ==> w.instances[j].place != Generation(name)
    requires w.instances[i].cfg == CFG == ViewOf(w.disk).value.cfg
    requires w.instances[i].keyState.storage == FILE_FALLBACK
    requires exists k :: FilesAt(w.disk, w.instances[i].place) == EmptyFiles(k, dek)
    ensures var a := Publishing(i, w.disk, name, keyId, dek);
      && Enabled(c, w, a)
      && ViewOf(a.after) == Some(View(CFG, ViewOf(w.disk).value.kek, Generation(name), EmptyFiles(keyId, dek)))
      && Represents(c, After(c, w, a), Vault(map[], None))
  {
    var d := WithGeneration(w.disk, name, EmptyFiles(keyId, dek));
    PublishView(w.disk, name, EmptyFiles(keyId, dek));
  }

  lemma PublishView(d: Disk, name: string, files: Files)
    requires ViewOf(d).Some? && ValidName(name)
    ensures ViewOf(Pointing(WithGeneration(d, name, files), name, d.scratch))
         == Some(View(ViewOf(d).value.cfg, ViewOf(d).value.kek, Generation(name), files))
  {
    TrimName(name);
  }

  // ----- The worlds of the run -----

  const FIRST := "generation-0"
  const SECOND := "generation-1"
  const THIRD := "generation-2"
  const ID := "blob"

  lemma Names()
    ensures ValidName(FIRST) && ValidName(SECOND) && ValidName(THIRD) && ValidBlobId(ID)
    ensures FIRST != SECOND && FIRST != THIRD && SECOND != THIRD
  {
    assert FIRST[11] == '0' && SECOND[11] == '1' && THIRD[11] == '2';
  }

  function Disk0(dek: string): Disk {
    Disk(Some(CFG), Some(""), Some(FIRST + "\n"), map[], map[FIRST := EmptyFiles("0", dek)], map[])
  }

  /** Two instances on the empty first generation. */
  function Start(dek: string): World {
    World(Disk0(dek), map[1 := Shared, 2 := Shared], map[1 := Inst(FIRST, "0", dek), 2 := Inst(FIRST, "0", dek)],
          0, map[1 := 0, 2 := 0])
  }

  /** Instance 1 has unlocked; 2 holds the lock. */
  function Alone(dek: string, mode: Mode): World {
    Start(dek).(locks := map[2 := mode])
  }

  function Disk1(dek: string): Disk {
    Pointing(WithGeneration(Disk0(dek), SECOND, EmptyFiles("1", dek)), SECOND, map[])
  }

  /** Instance 2 has rotated to the second generation, and the removal of the first one has failed. */
  function Rotated(dek: string, mode: Mode): World {
    World(Disk1(dek), map[2 := mode], map[1 := Inst(FIRST, "0", dek), 2 := Inst(SECOND, "1", dek)],
          1, map[1 := 0, 2 := 1])
  }

  function OneBlob(dek: string): Files {
    EmptyFiles("1", dek)[Blob(ID) := Data("data")]
  }

  function Disk2(dek: string): Disk {
    WithGeneration(Disk1(dek), SECOND, OneBlob(dek))
  }

  /** Instance 2 has written a blob. */
  function Wrote(dek: string): World {
    Rotated(dek, Shared).(disk := Disk2(dek))
  }

  /** Instance 2 is closed; 1 may hold the lock. */
  function Slipped(dek: string, locks: map<nat, Mode>): World {
    World(Disk2(dek), locks, map[1 := Inst(FIRST, "0", dek)], 1, map[1 := 0])
  }

  /** Instance 1 unlocks; 2 upgrades, rotates, downgrades, writes a blob and closes; 1 gets the lock. */
  function Gap(dek: string): seq<Action> {
    [Unlock(1), Upgrade(2), Publishing(2, Disk0(dek), SECOND, "1", dek), Downgrade(2),
     Write(2, ID, "data", 0), Close(2), TryLock(1)]
  }

  ghost predicate Steps(c: Cipher, w: World, a: Action, after: World) {
    Enabled(c, w, a) && After(c, w, a) == after
  }

  lemma StartSettled(dek: string)
    requires |dek| == DEK_LENGTH
    ensures Lawful(PlainCipher()) && Settled(PlainCipher(), Start(dek))
    ensures ViewOf(Disk0(dek)) == Some(View(CFG, "", Generation(FIRST), EmptyFiles("0", dek)))
    ensures Represents(PlainCipher(), Start(dek), Vault(map[], None))
  {
    Names();
    TrimName(FIRST);
  }

  lemma StepUnlock(dek: string)
    ensures Steps(PlainCipher(), Start(dek), Unlock(1), Alone(dek, Shared))
  {
    assert Start(dek).locks - {1} == map[2 := Shared];
  }

  lemma StepUpgrade(dek: string)
    ensures Steps(PlainCipher(), Alone(dek, Shared), Upgrade(2), Alone(dek, Exclusive))
  {
    assert map[2 := Shared].Keys == {2};
    assert map[2 := Shared][2 := Exclusive] == map[2 := Exclusive];
  }

  lemma SecondView(dek: string)
    requires |dek| == DEK_LENGTH
    ensures ViewOf(Disk1(dek)) == Some(View(CFG, "", Generation(SECOND), EmptyFiles("1", dek)))
  {
    StartSettled(dek);
    Names();
    PublishView(Disk0(dek), SECOND, EmptyFiles("1", dek));
  }

  lemma StepPublish(dek: string)
    requires |dek| == DEK_LENGTH
    ensures Steps(PlainCipher(), Alone(dek, Exclusive), Publishing(2, Disk0(dek), SECOND, "1", dek),
                  Rotated(dek, Exclusive))
  {
    StartSettled(dek);
    Names();
    CanPublish(PlainCipher(), Alone(dek, Exclusive), 2, SECOND, "1", dek);
    AfterPublish(dek);
  }

  lemma AfterPublish(dek: string)
    ensures After(PlainCipher(), Alone(dek, Exclusive), Publishing(2, Disk0(dek), SECOND, "1", dek))
         == Rotated(dek, Exclusive)
  {
    assert Start(dek).instances[2 := Inst(SECOND, "1", dek)] == Rotated(dek, Exclusive).instances;
    assert Start(dek).since[2 := 1] == Rotated(dek, Exclusive).since;
  }

  lemma StepDowngrade(dek: string)
    ensures Steps(PlainCipher(), Rotated(dek, Exclusive), Downgrade(2), Rotated(dek, Shared))
  {
    assert map[2 := Exclusive][2 := Shared] == map[2 := Shared];
  }

  lemma StepWrite(dek: string)
    ensures Fits(Rotated(dek, Shared), 2, ID)
    ensures Steps(PlainCipher(), Rotated(dek, Shared), Write(2, ID, "data", 0), Wrote(dek))
  {
  }

  lemma StepClose(dek: string)
    ensures Steps(PlainCipher(), Wrote(dek), Close(2), Slipped(dek, map[]))
  {
    assert Wrote(dek).locks - {2} == map[];
    assert Wrote(dek).instances - {2} == map[1 := Inst(FIRST, "0", dek)];
    assert Wrote(dek).since - {2} == map[1 := 0];
  }

  lemma StepTryLock(dek: string)
    ensures Steps(PlainCipher(), Slipped(dek, map[]), TryLock(1), Slipped(dek, map[1 := Exclusive]))
  {
  }

  lemma RunNext(c: Cipher, w: World, actions: seq<Action>, n: nat, after: World)
    requires n < |actions| && Runs(c, w, actions, n) && Steps(c, RunTo(c, w, actions, n), actions[n], after)
    ensures Runs(c, w, actions, n + 1) && RunTo(c, w, actions, n + 1) == after
  {
  }

  lemma GapRuns(dek: string)
    requires |dek| == DEK_LENGTH
    ensures Runs(PlainCipher(), Start(dek), Gap(dek), 7)
    ensures RunTo(PlainCipher(), Start(dek), Gap(dek), 4) == Rotated(dek, Shared)
    ensures RunTo(PlainCipher(), Start(dek), Gap(dek), 7) == Slipped(dek, map[1 := Exclusive])
  {
    var c, w, actions := PlainCipher(), Start(dek), Gap(dek);
    StepUnlock(dek);
    RunNext(c, w, actions, 0, Alone(dek, Shared));
    StepUpgrade(dek);
    RunNext(c, w, actions, 1, Alone(dek, Exclusive));
    StepPublish(dek);
    RunNext(c, w, actions, 2, Rotated(dek, Exclusive));
    StepDowngrade(dek);
    RunNext(c, w, actions, 3, Rotated(dek, Shared));
    StepWrite(dek);
    RunNext(c, w, actions, 4, Wrote(dek));
    StepClose(dek);
    RunNext(c, w, actions, 5, Slipped(dek, map[]));
    StepTryLock(dek);
    RunNext(c, w, actions, 6, Slipped(dek, map[1 := Exclusive]));
  }

  lemma SlippedView(dek: string)
    requires |dek| == DEK_LENGTH
    ensures ViewOf(Disk2(dek)) == Some(View(CFG, "", Generation(SECOND), OneBlob(dek)))
    ensures forall locks :: !CoherentInstance(PlainCipher(), Slipped(dek, locks), 1)
    ensures forall locks :: Represents(PlainCipher(), Slipped(dek, locks), Vault(map[ID := "data"], None))
  {
    SecondView(dek);
    ViewWithFiles(Disk1(dek), OneBlob(dek));
  }

  /** What the exclusive holder of the slipped world would publish. */
  function Lost(dek: string): Action {
    Publishing(1, Disk2(dek), THIRD, "2", dek)
  }

  /** The holder lives in the retired generation, which is still there, and may rotate it. */
  lemma RetiredRotates(dek: string)
    requires |dek| == DEK_LENGTH
    ensures var c, w := PlainCipher(), Slipped(dek, map[1 := Exclusive]);
      && !Current(w, 1) && Exists(w.disk, w.instances[1].place)
      && Enabled(c, w, Lost(dek)) && Represents(c, After(c, w, Lost(dek)), Vault(map[], None))
  {
    Names();
    SlippedView(dek);
    CanPublish(PlainCipher(), Slipped(dek, map[1 := Exclusive]), 1, THIRD, "2", dek);
  }

  /** When the upgrade takes two steps, an exclusive holder can be on a retired generation. If that
      generation is still there, because its removal failed, the holder's own rotation publishes it,
      and a write that was accepted is gone. */
  lemma RotationSlipsIn(dek: string)
    requires |dek| == DEK_LENGTH
    ensures var c, w, actions := PlainCipher(), Start(dek), Gap(dek);
      && Lawful(c) && Settled(c, w) && Represents(c, w, Vault(map[], None)) && Runs(c, w, actions, 7)
      && RunTo(c, w, actions, 4) == Rotated(dek, Shared) && Fits(Rotated(dek, Shared), 2, ID)
      && RunTo(c, w, actions, 7) == Slipped(dek, map[1 := Exclusive])
    ensures var c, w := PlainCipher(), Slipped(dek, map[1 := Exclusive]);
      && !CoherentInstance(c, w, 1) && !Current(w, 1) && Exists(w.disk, w.instances[1].place)
      && Represents(c, w, Vault(map[ID := "data"], None))
      && Enabled(c, w, Lost(dek)) && Represents(c, After(c, w, Lost(dek)), Vault(map[], None))
  {
    StartSettled(dek);
    GapRuns(dek);
    StepWrite(dek);
    SlippedView(dek);
    RetiredRotates(dek);
  }
}
