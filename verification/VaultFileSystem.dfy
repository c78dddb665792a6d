/** The file system under a vault: every call is one step, may fail, and may be the last before a
    crash. */
module VaultFileSystem {
  import opened Options
  import opened VaultDisk

  /** How the numbered calls go: whether they succeed, what a failing write leaves, fresh nonces. */
  datatype Oracle = Oracle(succeeds: nat -> bool, torn: nat -> Option<Content>, nonce: nat -> nat)

  /** The views a crash could have exposed, in order and without repetition. */
  type Trace = seq<Option<View>>

  /** An operation succeeded without a failing call, or it failed and some call had failed. */
  predicate Went(ok: bool, before: nat, after: nat) {
    if ok then after == before else after > before
  }

  /** The same, except that it may also have failed for this reason. */
  predicate Unless(ok: bool, before: nat, after: nat, reason: bool) {
    after >= before && if ok then after == before else after > before || reason
  }

  function Observe(t: Trace, view: Option<View>): Trace {
    if t != [] && t[|t| - 1] == view then t else t + [view]
  }

  ghost predicate AlwaysSucceeds(o: Oracle) {
    forall n :: o.succeeds(n)
  }

  class FileSystem {
    const oracle: Oracle
    var disk: Disk
    var calls: nat
    /** Extended by every call that changes the disk. */
    ghost var trace: Trace
    /** How many calls have failed so far. */
    ghost var failures: nat

    ghost predicate Valid()
      reads this
    {
      && trace != [] && trace[|trace| - 1] == ViewOf(disk)
      && (AlwaysSucceeds(oracle) ==> failures == 0)
    }

    constructor (oracle: Oracle, disk: Disk)
      ensures Valid() && this.disk == disk && this.oracle == oracle && trace == [ViewOf(disk)]
    {
      this.oracle := oracle;
      this.disk := disk;
      this.calls := 0;
      this.trace := [ViewOf(disk)];
      this.failures := 0;
    }

    /** A call that changes nothing: a sync, a listing, a checkpoint. */
    method Call() returns (ok: bool)
      requires Valid()
      modifies this`calls, this`failures
      ensures Valid() && failures == old(failures) + if ok then 0 else 1
    {
      ok := oracle.succeeds(calls);
      calls := calls + 1;
      failures := failures + if ok then 0 else 1;
    }

    method Nonce() returns (n: nat)
      requires Valid()
      modifies this`calls
      ensures Valid()
    {
      n := oracle.nonce(calls);
      calls := calls + 1;
    }

    /** An atomic call: it makes the change or none. */
    method Try(next: Disk) returns (ok: bool)
      requires Valid()
      modifies this
      ensures Valid() && disk == if ok then next else old(disk)
      ensures trace == Observe(old(trace), ViewOf(disk))
      ensures failures == old(failures) + if ok then 0 else 1
    {
      ok := oracle.succeeds(calls);
      calls := calls + 1;
      failures := failures + if ok then 0 else 1;
      if ok {
        disk := next;
      }
      trace := Observe(trace, ViewOf(disk));
    }

    /** `create_dir` of a generation directory. */
    method CreateDir(name: string) returns (ok: bool)
      requires Valid() && Hidden(disk, name)
      modifies this
      ensures Valid() && trace == old(trace)
      ensures disk == if ok then WithGeneration(old(disk), name, map[]) else old(disk)
      ensures ok ==> name !in old(disk).gens
      ensures Unless(ok, old(failures), failures, name in old(disk).gens)
    {
      if name in disk.gens {
        return false;
      }
      WriteHidden(disk, name, map[]);
      ok := Try(WithGeneration(disk, name, map[]));
    }

    /** `fs::write` or `fs::copy` to a file of a generation; a failing one may leave anything there. */
    method WriteFile(name: string, item: Item, content: Content) returns (ok: bool)
      requires Valid() && Hidden(disk, name) && name in disk.gens
      modifies this
      ensures Valid() && trace == old(trace)
      ensures Hidden(disk, name) && disk.gens.Keys == old(disk).gens.Keys
      ensures disk.scratch == old(disk).scratch
      ensures ok ==> disk.gens[name] == old(disk).gens[name][item := content]
      ensures Went(ok, old(failures), failures)
    {
      var n := calls;
      WriteHidden(disk, name, disk.gens[name][item := content]);
      ok := Try(WithGeneration(disk, name, disk.gens[name][item := content]));
      if !ok {
        var left := oracle.torn(n);
        if left.Some? {
          WriteHidden(disk, name, disk.gens[name][item := left.value]);
          var _ := Try(WithGeneration(disk, name, disk.gens[name][item := left.value]));
        }
      }
    }

    /** `fs::rename` of a generation directory to a new name. */
    method Rename(source: string, to: string) returns (ok: bool)
      requires Valid() && Hidden(disk, source) && source in disk.gens && source != to && to != GENERATION_0
      modifies this
      ensures Valid() && trace == old(trace)
      ensures disk == if ok
        then WithGeneration(WithoutGeneration(old(disk), source), to, old(disk).gens[source]) else old(disk)
      ensures ok ==> to !in old(disk).gens && Hidden(disk, to)
      ensures Unless(ok, old(failures), failures, to in old(disk).gens)
    {
      if to in disk.gens {
        return false;
      }
      OpenIsThere(disk);
      RemoveHidden(disk, source);
      WriteHidden(WithoutGeneration(disk, source), to, disk.gens[source]);
      ok := Try(WithGeneration(WithoutGeneration(disk, source), to, disk.gens[source]));
    }

    /** `copy_generation`: a new directory, then the files one by one in any order. */
    method CopyTree(source: Files, stage: string) returns (ok: bool)
      requires Valid() && Hidden(disk, stage)
      modifies this
      ensures Valid() && trace == old(trace)
      ensures ok ==> stage in disk.gens && CopiedBut(source, disk.gens[stage], {})
      ensures disk.gens.Keys <= old(disk).gens.Keys + {stage} && disk.scratch == old(disk).scratch
      ensures Unless(ok, old(failures), failures, stage in old(disk).gens)
    {
      ok := CreateDir(stage);
      if !ok {
        return;
      }
      var todo := set item | item in source && !item.Partial?;
      ghost var files: Files := map[];
      while todo != {}
        invariant Valid() && trace == old(trace) && Hidden(disk, stage)
        invariant stage in disk.gens && files == disk.gens[stage] && CopiedBut(source, files, todo)
        invariant disk.gens.Keys == old(disk).gens.Keys + {stage} && disk.scratch == old(disk).scratch
        invariant failures == old(failures)
        invariant forall item :: item in todo ==> Copied(source, item)
        decreases |todo|
      {
        var item :| item in todo;
        CopyOne(source, files, todo, item);
        ok := WriteFile(stage, item, source[item]);
        if !ok {
          return;
        }
        files := files[item := source[item]];
        todo := todo - {item};
      }
    }

    /** Every file of a generation is removed, in any order, until a removal fails. */
    method EmptyTree(name: string) returns (ok: bool)
      requires Valid() && Hidden(disk, name) && name in disk.gens
      modifies this
      ensures Valid() && trace == old(trace) && Hidden(disk, name)
      ensures disk == WithGeneration(old(disk), name, FilesAt(disk, Generation(name)))
      ensures Went(ok, old(failures), failures)
    {
      var left := disk.gens[name];
      ghost var before := disk;
      assert disk == WithGeneration(before, name, left);
      while left != map[]
        invariant Valid() && trace == old(trace) && Hidden(disk, name) && failures == old(failures)
        invariant disk == WithGeneration(before, name, left)
        decreases |left|
      {
        var item :| item in left;
        WriteHidden(disk, name, left - {item});
        ok := Try(WithGeneration(disk, name, left - {item}));
        if !ok {
          return;
        }
        left := left - {item};
      }
      ok := true;
    }

    /** `remove_dir_all` of a generation; it may stop anywhere. */
    method RemoveTree(name: string)
      requires Valid() && Hidden(disk, name)
      modifies this
      ensures Valid() && trace == old(trace)
      ensures disk.gens.Keys <= old(disk).gens.Keys && disk.scratch == old(disk).scratch && disk.flat == old(disk).flat
      ensures failures >= old(failures) && (failures == old(failures) ==> name !in disk.gens)
    {
      if name !in disk.gens {
        return;
      }
      var ok := EmptyTree(name);
      if ok {
        RemoveHidden(disk, name);
        var _ := Try(WithoutGeneration(disk, name));
      }
    }

    /** A change of the temporary files under `meta/`. */
    method Scratch(scratch: map<string, string>) returns (ok: bool)
      requires Valid()
      modifies this
      ensures Valid() && trace == old(trace)
      ensures disk == if ok then old(disk).(scratch := scratch) else old(disk)
      ensures failures == old(failures) + if ok then 0 else 1
    {
      ok := Try(disk.(scratch := scratch));
    }

    /** `publish_generation`: a temporary pointer, written in two parts and synced, then renamed over
        the pointer. Only the rename can be seen. */
    method Publish(name: string, temporary: string) returns (ok: bool)
      requires Valid() && ViewOf(disk).Some? && ValidName(name) && name in disk.gens
      modifies this
      ensures Valid() && disk.gens == old(disk).gens
      ensures ok ==> disk.pointer == Some(name + "\n")
      ensures ok ==> trace == Observe(old(trace), ViewOf(disk))
      ensures ok ==> ViewOf(disk) == Some(View(ViewOf(old(disk)).value.cfg, ViewOf(old(disk)).value.kek,
                                               Generation(name), old(disk).gens[name]))
      ensures !ok ==> trace == old(trace)
      ensures Unless(ok, old(failures), failures, temporary in old(disk).scratch)
    {
      if temporary in disk.scratch {
        var _ := Scratch(disk.scratch - {temporary});
        return false;
      }
      ok := Scratch(disk.scratch[temporary := ""]);
      if !ok {
        return;
      }
      ok := Scratch(disk.scratch[temporary := name]);
      if ok {
        ok := Scratch(disk.scratch[temporary := name + "\n"]);
        if ok {
          ok := Call();
        }
      }
      if ok {
        PointsTo(disk, name, disk.scratch - {temporary});
        ok := Try(disk.(pointer := Some(disk.scratch[temporary]), scratch := disk.scratch - {temporary}));
      }
      if !ok {
        var _ := Scratch(disk.scratch - {temporary});
      }
    }

    /** `remove_legacy_layout`: each retired file goes or stays, the key state last. */
    method RemoveFlat()
      requires Valid() && ViewOf(disk).Some? && ViewOf(disk).value.place != Flat
      modifies this
      ensures Valid() && trace == old(trace) && disk.gens == old(disk).gens
      ensures failures >= old(failures) && (failures == old(failures) ==> disk.flat == map[])
    {
      var todo := set item | item in disk.flat && item != KeyFile;
      while todo != {}
        invariant Valid() && trace == old(trace) && disk.gens == old(disk).gens && failures >= old(failures)
        invariant failures == old(failures) ==> disk.flat.Keys <= todo + {KeyFile}
        decreases |todo|
      {
        var item :| item in todo;
        todo := todo - {item};
        FlatHidden(disk, disk.flat - {item});
        var _ := Try(disk.(flat := disk.flat - {item}));
      }
      FlatHidden(disk, disk.flat - {KeyFile});
      var _ := Try(disk.(flat := disk.flat - {KeyFile}));
    }
  }

  lemma FlatHidden(d: Disk, flat: Files)
    requires ViewOf(d).Some? && ViewOf(d).value.place != Flat
    ensures ViewOf(d.(flat := flat)) == ViewOf(d)
  {
  }
}
