/**
 Crash-safe file writes. A crash may undo directory changes made since the directory was last synced, latest first, and
 leaves anything at all in a file whose bytes were never synced.
 */
module Durable {
  import opened Wrappers

  datatype Path = Plain(name: string) | Tmp(of: Path) | Bak(of: Path, stamp: string)

  /** A file; `None` stands for bytes that are not a whole `C`. */
  datatype File<C> = File(content: Option<C>, synced: bool)

  type Disk<C> = map<Path, File<C>>

  datatype Op<C> = Create(path: Path) | Write(path: Path, data: C) | Sync(path: Path)
    | Rename(path: Path, dst: Path) | Unlink(path: Path) | SyncDir

  function Apply<C>(d: Disk<C>, op: Op<C>): Disk<C> {
    match op
    case Create(p) => d[p := File(None, false)]
    case Write(p, x) => if p in d then d[p := File(Some(x), false)] else d
    case Sync(p) => if p in d then d[p := File(d[p].content, true)] else d
    case Rename(p, q) => if p in d then (d - {p})[q := d[p]] else d
    case Unlink(p) => d - {p}
    case SyncDir => d
  }

  function ApplyAll<C>(d: Disk<C>, ops: seq<Op<C>>): Disk<C> {
    if ops == [] then d else Apply(ApplyAll(d, ops[..|ops| - 1]), ops[|ops| - 1])
  }

  /** What may be found after a crash in state `d`: synced bytes are there, others are anything. */
  ghost predicate Torn<C>(d: Disk<C>, found: Disk<C>) {
    found.Keys == d.Keys && forall p | p in d && d[p].synced :: found[p] == d[p]
  }

  /** How many of the first `n` operations the last directory sync among them made permanent. */
  function Settled<C>(ops: seq<Op<C>>, n: nat): (k: nat)
    requires n <= |ops|
    ensures k <= n
  {
    if n == 0 then 0 else if ops[n - 1].SyncDir? then n else Settled(ops, n - 1)
  }

  /** What may be found after a crash that interrupts `ops` after `n` of them. */
  ghost predicate Found<C>(d: Disk<C>, ops: seq<Op<C>>, n: nat, found: Disk<C>)
    requires n <= |ops|
  {
    exists k | Settled(ops, n) <= k <= n :: Torn(ApplyAll(d, ops[..k]), found)
  }

  function DurableOps<C>(path: Path, data: C, fsyncDir: bool): seq<Op<C>> {
    [Create(Tmp(path)), Write(Tmp(path), data), Sync(Tmp(path)), Rename(Tmp(path), path)] + if fsyncDir then [SyncDir] else []
  }

  function Depth(p: Path): nat {
    match p case Plain(_) => 0 case Tmp(q) => 1 + Depth(q) case Bak(q, _) => 1 + Depth(q)
  }

  lemma SiblingsDiffer(p: Path, stamp: string)
    ensures Tmp(p) != p && Bak(p, stamp) != p
  {
    assert Depth(Tmp(p)) == 1 + Depth(p) && Depth(Bak(p, stamp)) == 1 + Depth(p);
  }

  lemma Next<C>(d: Disk<C>, ops: seq<Op<C>>, k: nat)
    requires k < |ops|
    ensures ApplyAll(d, ops[..k + 1]) == Apply(ApplyAll(d, ops[..k]), ops[k])
  {
    assert ops[..k + 1] == ops[..k] + [ops[k]];
    ApplySnoc(d, ops[..k], ops[k]);
  }

  lemma ApplySnoc<C>(d: Disk<C>, ops: seq<Op<C>>, op: Op<C>)
    ensures ApplyAll(d, ops + [op]) == Apply(ApplyAll(d, ops), op)
  {
    assert (ops + [op])[..|ops|] == ops;
  }

  lemma {:induction false} ApplyAppend<C>(d: Disk<C>, a: seq<Op<C>>, b: seq<Op<C>>)
    ensures ApplyAll(d, a + b) == ApplyAll(ApplyAll(d, a), b)
  {
    if b == [] {
      assert a + b == a;
    } else {
      ApplyAppend(d, a, b[..|b| - 1]);
      assert (a + b)[..|a + b| - 1] == a + b[..|b| - 1];
    }
  }

  /** The disk after the first `k` operations of a durable write, path by path. */
  lemma DurablePrefix<C>(d: Disk<C>, path: Path, data: C, fsyncDir: bool, k: nat)
    requires k <= |DurableOps(path, data, fsyncDir)|
    ensures
      var e := ApplyAll(d, DurableOps(path, data, fsyncDir)[..k]);
      && (forall p | p != path && p != Tmp(path) :: (p in e <==> p in d) && (p in d ==> e[p] == d[p]))
      && (k < 4 ==> (path in e <==> path in d) && (path in d ==> e[path] == d[path]))
      && (k >= 4 ==> path in e && e[path] == File(Some(data), true) && Tmp(path) !in e)
  {
    hide ApplyAll;
    var ops := DurableOps(path, data, fsyncDir);
    SiblingsDiffer(path, "");
    if k == 0 {
      NoOps(d, ops);
    } else {
      DurablePrefix(d, path, data, fsyncDir, k - 1);
      if k <= 4 { TmpWritten(d, path, data, fsyncDir, k - 1); }
      Next(d, ops, k - 1);
    }
  }

  lemma NoOps<C>(d: Disk<C>, ops: seq<Op<C>>)
    ensures ApplyAll(d, ops[..0]) == d
  {}

  /** Before the rename the temporary holds the data, synced. */
  lemma TmpWritten<C>(d: Disk<C>, path: Path, data: C, fsyncDir: bool, k: nat)
    requires k <= 3
    ensures
      var e := ApplyAll(d, DurableOps(path, data, fsyncDir)[..k]);
      && (k >= 1 ==> Tmp(path) in e)
      && (k == 2 ==> e[Tmp(path)].content == Some(data))
      && (k == 3 ==> e[Tmp(path)] == File(Some(data), true))
  {
    hide ApplyAll;
    var ops := DurableOps(path, data, fsyncDir);
    if k > 0 {
      TmpWritten(d, path, data, fsyncDir, k - 1);
      Next(d, ops, k - 1);
    }
  }

  /**
   A durable write leaves the file with all old or all new bytes wherever it is cut, touches nothing else but its
   temporary, and once the directory is synced the new bytes stay.
   */
  lemma OldOrNew<C>(d: Disk<C>, path: Path, data: C, fsyncDir: bool, n: nat, found: Disk<C>)
    requires n <= |DurableOps(path, data, fsyncDir)| && Found(d, DurableOps(path, data, fsyncDir), n, found)
    requires forall p | p in d && p != Tmp(path) :: d[p].synced
    ensures forall p | p != path && p != Tmp(path) :: (p in found <==> p in d) && (p in d ==> found[p] == d[p])
    ensures (path in found && found[path] == File(Some(data), true))
         || ((path in found <==> path in d) && (path in d ==> found[path] == d[path]))
    ensures n == 5 ==> path in found && found[path] == File(Some(data), true)
  {
    var ops := DurableOps(path, data, fsyncDir);
    var k :| Settled(ops, n) <= k <= n && Torn(ApplyAll(d, ops[..k]), found);
    if n == 5 { assert ops[4].SyncDir?; }
    SiblingsDiffer(path, "");
    DurablePrefix(d, path, data, fsyncDir, k);
    hide ApplyAll;
    var e := ApplyAll(d, ops[..k]);
    forall p | p != path && p != Tmp(path) ensures (p in found <==> p in d) && (p in d ==> found[p] == d[p]) {
      if p in d { assert e[p].synced; }
    }
  }

  /** Without the sync of the data a crash after the rename can leave neither the old nor the new bytes. */
  lemma UnsyncedWriteTears<C>(d: Disk<C>, path: Path, data: C) returns (found: Disk<C>)
    ensures
      var ops := [Create(Tmp(path)), Write(Tmp(path), data), Rename(Tmp(path), path), SyncDir];
      Found(d, ops, 4, found) && path in found && found[path].content == None
  {
    var tmp := Tmp(path);
    var ops := [Create(tmp), Write(tmp, data), Rename(tmp, path), SyncDir];
    Next(d, ops, 0);
    Next(d, ops, 1);
    Next(d, ops, 2);
    Next(d, ops, 3);
    var e := ApplyAll(d, ops[..4]);
    assert path in e && !e[path].synced;
    found := e[path := File(None, false)];
    assert Torn(e, found) && Settled(ops, 4) == 4;
  }

  /** A directory of files with a record of what was done to it. */
  class FileSystem<C> {
    var disk: Disk<C>
    ghost var done: seq<Op<C>>

    constructor (disk: Disk<C>)
      ensures this.disk == disk && done == []
    {
      this.disk := disk;
      done := [];
    }

    method Do(op: Op<C>)
      modifies this
      ensures disk == Apply(old(disk), op) && done == old(done) + [op]
    {
      match op {
        case Create(p) => disk := disk[p := File(None, false)];
        case Write(p, x) => if p in disk { disk := disk[p := File(Some(x), false)]; }
        case Sync(p) => if p in disk { disk := disk[p := File(disk[p].content, true)]; }
        case Rename(p, q) => if p in disk { disk := (disk - {p})[q := disk[p]]; }
        case Unlink(p) => disk := disk - {p};
        case SyncDir =>
      }
      done := done + [op];
    }

    /** Write to a temporary, sync it, rename it over the target, sync the directory. */
    method WriteFileDurable(path: Path, data: C, fsyncDir: bool)
      modifies this
      ensures done == old(done) + DurableOps(path, data, fsyncDir)
      ensures disk == ApplyAll(old(disk), DurableOps(path, data, fsyncDir))
    {
      var tmp := Tmp(path);
      ghost var d, ops := disk, DurableOps(path, data, fsyncDir);
      Do(Create(tmp));
      Do(Write(tmp, data));
      Do(Sync(tmp));
      Do(Rename(tmp, path));
      NoOps(d, ops);
      hide ApplyAll, Apply;
      Next(d, ops, 0);
      Next(d, ops, 1);
      Next(d, ops, 2);
      Next(d, ops, 3);
      if fsyncDir {
        Do(SyncDir);
        Next(d, ops, 4);
        assert ops[..5] == ops;
      } else {
        assert ops[..4] == ops;
      }
    }

    method CleanupStaleTmp(path: Path)
      modifies this
      ensures disk == Apply(old(disk), Unlink(Tmp(path)))
      ensures done == old(done) + if Tmp(path) in old(disk) then [Unlink(Tmp(path))] else []
    {
      if Tmp(path) in disk {
        Do(Unlink(Tmp(path)));
      } else {
        assert disk - {Tmp(path)} == disk;
      }
    }
  }
}
