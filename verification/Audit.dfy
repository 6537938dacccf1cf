/** The audit log: one live file that is appended to, and numbered archives that rotation shifts along. */
module Audit {
  import opened Bytes
  import opened Wrappers

  datatype Line = Line(bytes: ByteString)
  type LogFile = seq<Line>

  datatype Config = Config(rotateBytes: nat, rotateKeep: nat)

  function Size(f: LogFile): nat {
    if f == [] then 0 else Size(f[..|f| - 1]) + |f[|f| - 1].bytes|
  }

  lemma SizeSnoc(f: LogFile, x: Line)
    ensures Size(f + [x]) == Size(f) + |x.bytes|
  {
    assert (f + [x])[..|f|] == f;
  }

  // ---------- the log as a directory ----------

  /** Name 0 is the live file and name `i` the archive `.i`; any of the archives may be missing, and any may be there. */
  type Dir = map<nat, LogFile>

  /** `bytes` is the auditor's own count of the live file. */
  datatype Log = Log(dir: Dir, bytes: nat, broken: bool)

  function Min(a: nat, b: nat): nat {
    if a < b then a else b
  }

  /** Names up to `keep` move one place on; the last of them stays if nothing comes to take its place. */
  predicate NamedAfter(dir: Dir, keep: nat, j: nat) {
    if j == 0 then true else if j > keep then j in dir else j - 1 in dir || (j == keep && j in dir)
  }

  /** Rotation: a new live file, archives within the retention shifted, those beyond it untouched; without archives, nothing. */
  function Rotated(dir: Dir, keep: nat): Dir
    requires 0 in dir
  {
    if keep == 0 then dir
    else
      map j | j in dir.Keys + (set i | i in dir.Keys :: i + 1) && NamedAfter(dir, keep, j) ::
        if j == 0 then [] else if j <= keep && j - 1 in dir then dir[j - 1] else dir[j]
  }

  function RotateStep(c: Config, s: Log): Log
    requires 0 in s.dir
  {
    var dir := Rotated(s.dir, c.rotateKeep);
    Log(dir, Size(dir[0]), s.broken)
  }

  /** One event; `wrote` says whether the write to the file succeeded. */
  function EventStep(c: Config, s: Log, line: Line, wrote: bool): (s': Log)
    requires 0 in s.dir
    ensures 0 in s'.dir
  {
    if s.broken then s
    else if !wrote then s.(broken := true)
    else
      var s' := Log(s.dir[0 := s.dir[0] + [line]], s.bytes + |line.bytes|, false);
      if c.rotateBytes > 0 && s'.bytes >= c.rotateBytes then RotateStep(c, s') else s'
  }

  /** Whether this event makes the log rotate. */
  predicate Rolls(c: Config, t: Log, e: Event) {
    !t.broken && e.wrote && c.rotateBytes > 0 && t.bytes + |e.line.bytes| >= c.rotateBytes
  }

  /** Whether a rotation overwrites an archive: the last place of the retention and the one before it are both taken. */
  predicate Full(dir: Dir, keep: nat) {
    keep > 0 && keep in dir && keep - 1 in dir
  }

  datatype Event = Event(line: Line, wrote: bool)

  function After(c: Config, s: Log, events: seq<Event>): (s': Log)
    requires 0 in s.dir
    ensures 0 in s'.dir
  {
    if events == [] then s
    else
      var last := events[|events| - 1];
      EventStep(c, After(c, s, events[..|events| - 1]), last.line, last.wrote)
  }

  /** The lines that reached the file: all up to the first failed write. */
  function Logged(events: seq<Event>): seq<Line> {
    if events == [] || !events[0].wrote then [] else [events[0].line] + Logged(events[1..])
  }

  function Lines(dir: Dir, j: nat): LogFile {
    if j in dir then dir[j] else []
  }

  /** What the names up to `n` hold, archives oldest to newest and then the live file. */
  function History(dir: Dir, n: nat): seq<Line> {
    if n == 0 then Lines(dir, 0) else Lines(dir, n) + History(dir, n - 1)
  }

  function Rotations(c: Config, s: Log, events: seq<Event>): nat
    requires 0 in s.dir
  {
    if events == [] then 0
    else
      var init, last := events[..|events| - 1], events[|events| - 1];
      Rotations(c, s, init) + if Rolls(c, After(c, s, init), last) then 1 else 0
  }

  /** Rotations that overwrote an archive. */
  function Drops(c: Config, s: Log, events: seq<Event>): nat
    requires 0 in s.dir
  {
    if events == [] then 0
    else
      var init, last := events[..|events| - 1], events[|events| - 1];
      var t := After(c, s, init);
      Drops(c, s, init) + if Rolls(c, t, last) && Full(t.dir, c.rotateKeep) then 1 else 0
  }

  ghost predicate Suffix(part: seq<Line>, whole: seq<Line>) {
    |part| <= |whole| && whole[|whole| - |part|..] == part
  }

  // ---------- one rotation ----------

  lemma {:induction false} HistoryAppend(dir: Dir, line: Line, n: nat)
    requires 0 in dir
    ensures History(dir[0 := dir[0] + [line]], n) == History(dir, n) + [line]
  {
    if n > 0 {
      HistoryAppend(dir, line, n - 1);
      assert Lines(dir, n) + (History(dir, n - 1) + [line]) == Lines(dir, n) + History(dir, n - 1) + [line];
    }
  }

  /** What each name holds after a rotation. */
  lemma RotatedLines(dir: Dir, keep: nat, j: nat)
    requires 0 in dir && keep > 0
    ensures Lines(Rotated(dir, keep), j)
         == if j == 0 then [] else if j < keep || (j == keep && j - 1 in dir) then Lines(dir, j - 1) else Lines(dir, j)
    ensures 0 in Rotated(dir, keep) && (j in Rotated(dir, keep) <==> NamedAfter(dir, keep, j))
  {
    if j > 0 && j - 1 in dir { assert j - 1 + 1 == j; }
  }

  lemma {:induction false} ShiftedHistory(dir: Dir, keep: nat, n: nat)
    requires 0 in dir && n < keep
    ensures History(Rotated(dir, keep), n) == if n == 0 then [] else History(dir, n - 1)
  {
    RotatedLines(dir, keep, n);
    hide Rotated, Lines;
    if n > 0 {
      ShiftedHistory(dir, keep, n - 1);
      if n == 1 { assert Lines(dir, 0) + [] == Lines(dir, 0); }
    }
  }

  /** One rotation drops at most the last archive of the retention, and only when another takes its place. */
  lemma RotationDropsOldest(dir: Dir, keep: nat)
    requires 0 in dir
    ensures History(dir, keep) == (if Full(dir, keep) then dir[keep] else []) + History(Rotated(dir, keep), keep)
    ensures forall j | j > keep :: Lines(Rotated(dir, keep), j) == Lines(dir, j) && (j in Rotated(dir, keep) <==> j in dir)
  {
    if keep > 0 {
      forall j | j > keep ensures Lines(Rotated(dir, keep), j) == Lines(dir, j) && (j in Rotated(dir, keep) <==> j in dir) {
        RotatedLines(dir, keep, j);
      }
      RotatedLines(dir, keep, keep);
      ShiftedHistory(dir, keep, keep - 1);
      hide Rotated;
      LastTwo(dir, Rotated(dir, keep), keep);
    }
  }

  lemma LastTwo(dir: Dir, rotated: Dir, keep: nat)
    requires 0 in dir && keep > 0
    requires Lines(rotated, keep) == if keep - 1 in dir then Lines(dir, keep - 1) else Lines(dir, keep)
    requires History(rotated, keep - 1) == if keep == 1 then [] else History(dir, keep - 2)
    ensures History(dir, keep) == (if Full(dir, keep) then dir[keep] else []) + History(rotated, keep)
  {
    var rest := History(rotated, keep - 1);
    if keep == 1 {
      assert History(dir, 0) == Lines(dir, 0) + rest;
    } else {
      assert History(dir, keep - 1) == Lines(dir, keep - 1) + rest;
      assert [] + rest == rest;
    }
    assert History(rotated, keep) == Lines(rotated, keep) + rest;
    assert History(dir, keep) == Lines(dir, keep) + History(dir, keep - 1);
  }

  // ---------- runs ----------

  lemma {:induction false} LoggedSnoc(events: seq<Event>, e: Event)
    ensures Logged(events + [e]) == if Unbroken(events) && e.wrote then Logged(events) + [e.line] else Logged(events)
  {
    if events == [] {
      assert events + [e] == [e] && [e][1..] == [];
    } else {
      assert (events + [e])[1..] == events[1..] + [e] && (events + [e])[0] == events[0];
      LoggedSnoc(events[1..], e);
      assert Unbroken(events) == (events[0].wrote && Unbroken(events[1..]));
    }
  }

  predicate Unbroken(events: seq<Event>) {
    forall i | 0 <= i < |events| :: events[i].wrote
  }

  /** One more event at the end of a run. */
  lemma RunSnoc(c: Config, s: Log, events: seq<Event>)
    requires 0 in s.dir && events != []
    ensures
      var init, e := events[..|events| - 1], events[|events| - 1];
      var t := After(c, s, init);
      && After(c, s, events) == EventStep(c, t, e.line, e.wrote)
      && Rotations(c, s, events) == Rotations(c, s, init) + (if Rolls(c, t, e) then 1 else 0)
      && Drops(c, s, events) == Drops(c, s, init) + (if Rolls(c, t, e) && Full(t.dir, c.rotateKeep) then 1 else 0)
      && Logged(events) == (if Unbroken(init) && e.wrote then Logged(init) + [e.line] else Logged(init))
      && Unbroken(events) == (Unbroken(init) && e.wrote)
  {
    var init, e := events[..|events| - 1], events[|events| - 1];
    hide EventStep, Rolls, Logged, Full;
    LoggedSnoc(init, e);
    assert events == init + [e];
  }

  lemma Assoc(a: seq<Line>, b: seq<Line>, x: Line)
    ensures a + b + [x] == a + (b + [x])
  {}

  lemma NoMore(a: seq<Line>)
    ensures a + [] == a && Suffix(a, a)
  {}

  /** A log as an auditor has it once it is open: the live file is there and its size known. */
  predicate Opened(s: Log) {
    0 in s.dir && s.bytes == Size(s.dir[0]) && !s.broken
  }

  /** The archives beyond the retention, which nothing touches. */
  ghost predicate SameBeyond(a: Dir, b: Dir, keep: nat) {
    forall j | j > keep :: (j in a <==> j in b) && Lines(a, j) == Lines(b, j)
  }

  /**
   Over any run, whatever archives there were: what the retention holds is a suffix of what it held and what was logged,
   in order; archives beyond it stay as they are; the byte count is the size of the live file.
   */
  lemma {:induction false} KeepsSuffix(c: Config, s: Log, events: seq<Event>)
    requires Opened(s)
    ensures
      var t, keep := After(c, s, events), c.rotateKeep;
      && Suffix(History(t.dir, keep), History(s.dir, keep) + Logged(events))
      && SameBeyond(s.dir, t.dir, keep)
      && t.bytes == Size(t.dir[0]) && t.broken == !Unbroken(events)
  {
    NoMore(History(s.dir, c.rotateKeep));
    if events != [] {
      var init, e := events[..|events| - 1], events[|events| - 1];
      RunSnoc(c, s, events);
      hide After, Rotations, Drops, EventStep, History, Size, Rolls, Suffix, Logged, Unbroken, Lines;
      KeepsSuffix(c, s, init);
      KeepsSuffixStep(c, After(c, s, init), History(s.dir, c.rotateKeep) + Logged(init), e);
      Assoc(History(s.dir, c.rotateKeep), Logged(init), e.line);
    }
  }

  lemma KeepsSuffixStep(c: Config, t: Log, whole: seq<Line>, e: Event)
    requires 0 in t.dir && Suffix(History(t.dir, c.rotateKeep), whole) && t.bytes == Size(t.dir[0])
    ensures
      var t' := EventStep(c, t, e.line, e.wrote);
      && Suffix(History(t'.dir, c.rotateKeep), if !t.broken && e.wrote then whole + [e.line] else whole)
      && SameBeyond(t.dir, t'.dir, c.rotateKeep)
      && t'.bytes == Size(t'.dir[0]) && t'.broken == (t.broken || !e.wrote)
  {
    if !t.broken && e.wrote {
      Appended(t.dir, e.line, c.rotateKeep, whole);
      hide History, Size, Suffix, Rotated;
      RotatedSuffix(t.dir[0 := t.dir[0] + [e.line]], c.rotateKeep, whole + [e.line]);
    }
  }

  lemma Appended(dir: Dir, line: Line, keep: nat, whole: seq<Line>)
    requires 0 in dir && Suffix(History(dir, keep), whole)
    ensures
      var dir' := dir[0 := dir[0] + [line]];
      && Suffix(History(dir', keep), whole + [line]) && Size(dir'[0]) == Size(dir[0]) + |line.bytes|
      && SameBeyond(dir, dir', keep)
  {
    SizeSnoc(dir[0], line);
    HistoryAppend(dir, line, keep);
    hide History, Size;
    SuffixSnoc(History(dir, keep), whole, line);
  }

  lemma RotatedSuffix(dir: Dir, keep: nat, whole: seq<Line>)
    requires 0 in dir && Suffix(History(dir, keep), whole)
    ensures 0 in Rotated(dir, keep) && Suffix(History(Rotated(dir, keep), keep), whole) && SameBeyond(dir, Rotated(dir, keep), keep)
  {
    RotationDropsOldest(dir, keep);
    if keep > 0 { RotatedLines(dir, keep, 0); }
    hide History, Rotated, Lines, Suffix;
    SuffixOfSuffix(if Full(dir, keep) then dir[keep] else [], History(Rotated(dir, keep), keep), whole);
  }

  lemma SuffixSnoc(part: seq<Line>, whole: seq<Line>, x: Line)
    requires Suffix(part, whole)
    ensures Suffix(part + [x], whole + [x])
  {}

  lemma SuffixOfSuffix(a: seq<Line>, b: seq<Line>, whole: seq<Line>)
    requires Suffix(a + b, whole)
    ensures Suffix(b, whole)
  {
    var k := |whole| - |a + b|;
    assert whole[k..][|a|..] == b && whole[k..][|a|..] == whole[k + |a|..];
  }

  /** As long as no rotation has overwritten an archive nothing at all is lost. */
  lemma {:induction false} NothingLostEarly(c: Config, s: Log, events: seq<Event>)
    requires Opened(s) && Drops(c, s, events) == 0
    ensures History(After(c, s, events).dir, c.rotateKeep) == History(s.dir, c.rotateKeep) + Logged(events)
  {
    NoMore(History(s.dir, c.rotateKeep));
    if events != [] {
      var init, e := events[..|events| - 1], events[|events| - 1];
      RunSnoc(c, s, events);
      hide After, Rotations, Drops, EventStep, History, Size, Rolls, Logged, Unbroken, Suffix, Full;
      NothingLostEarly(c, s, init);
      KeepsSuffix(c, s, init);
      StepKeepsAll(c, After(c, s, init), e);
      Assoc(History(s.dir, c.rotateKeep), Logged(init), e.line);
    }
  }

  lemma StepKeepsAll(c: Config, t: Log, e: Event)
    requires 0 in t.dir && (Rolls(c, t, e) ==> !Full(t.dir, c.rotateKeep))
    ensures History(EventStep(c, t, e.line, e.wrote).dir, c.rotateKeep)
         == if !t.broken && e.wrote then History(t.dir, c.rotateKeep) + [e.line] else History(t.dir, c.rotateKeep)
  {
    if !t.broken && e.wrote {
      var dir := t.dir[0 := t.dir[0] + [e.line]];
      HistoryAppend(t.dir, e.line, c.rotateKeep);
      hide History, Rotated;
      RotationDropsOldest(dir, c.rotateKeep);
      assert [] + History(Rotated(dir, c.rotateKeep), c.rotateKeep) == History(Rotated(dir, c.rotateKeep), c.rotateKeep);
    }
  }

  /** The live file and the archives .1 to .(m - 1), and no other within the retention. */
  ghost predicate Contiguous(dir: Dir, keep: nat, m: nat) {
    1 <= m <= keep + 1 && forall j: nat | j <= keep :: j in dir <==> j < m
  }

  /**
   From a gapless start the archives stay gapless, one more for each rotation until the retention is full, and exactly the
   rotations after that each overwrite one.
   */
  lemma {:induction false} ArchivesGrow(c: Config, s: Log, events: seq<Event>, m: nat)
    requires Opened(s) && Contiguous(s.dir, c.rotateKeep, m)
    ensures
      var all, keep := m + Rotations(c, s, events), c.rotateKeep;
      && Contiguous(After(c, s, events).dir, keep, Min(all, keep + 1))
      && Drops(c, s, events) == if keep == 0 || all <= keep + 1 then 0 else all - (keep + 1)
  {
    if events != [] {
      var init, e := events[..|events| - 1], events[|events| - 1];
      RunSnoc(c, s, events);
      hide After, Rotations, Drops, EventStep, Size, Rolls, Logged, Unbroken, Contiguous, Full;
      ArchivesGrow(c, s, init, m);
      ContiguousStep(c, After(c, s, init), e, Min(m + Rotations(c, s, init), c.rotateKeep + 1));
    }
  }

  lemma ContiguousStep(c: Config, t: Log, e: Event, m: nat)
    requires 0 in t.dir && Contiguous(t.dir, c.rotateKeep, m)
    ensures Contiguous(EventStep(c, t, e.line, e.wrote).dir, c.rotateKeep, if Rolls(c, t, e) then Min(m + 1, c.rotateKeep + 1) else m)
    ensures Full(t.dir, c.rotateKeep) <==> c.rotateKeep > 0 && m == c.rotateKeep + 1
  {
    var keep := c.rotateKeep;
    if !t.broken && e.wrote {
      var dir := t.dir[0 := t.dir[0] + [e.line]];
      if keep > 0 {
        forall j: nat | j <= keep ensures j in Rotated(dir, keep) <==> j < Min(m + 1, keep + 1) {
          RotatedLines(dir, keep, j);
        }
      }
      hide Rotated;
    }
  }

  /** With archives and a limit, the live file is below the limit after every event. */
  lemma {:induction false} LiveStaysSmall(c: Config, s: Log, events: seq<Event>)
    requires Opened(s) && c.rotateKeep > 0 && c.rotateBytes > 0 && s.bytes < c.rotateBytes
    ensures Size(After(c, s, events).dir[0]) < c.rotateBytes
  {
    if events != [] {
      var init, e := events[..|events| - 1], events[|events| - 1];
      LiveStaysSmall(c, s, init);
      KeepsSuffix(c, s, init);
      KeepsSuffix(c, s, events);
      hide History, Suffix;
      assert Size([]) == 0;
    }
  }

  // ---------- the auditor and its directory ----------

  function At(dir: Dir, j: nat): Option<LogFile> {
    if j in dir then Some(dir[j]) else None
  }

  /** Between two turns of the rotation loop: names above `i` are shifted, `i` is free, names below are as before. */
  function Between(was: Dir, keep: nat, i: nat, j: nat): Option<LogFile> {
    if j == i then None
    else if j < i || j > keep then At(was, j)
    else if j - 1 in was then Some(was[j - 1])
    else if j == keep then At(was, j)
    else None
  }

  ghost predicate Shifted(was: Dir, dir: Dir, keep: nat, i: nat) {
    forall j: nat :: At(dir, j) == Between(was, keep, i, j)
  }

  lemma ShiftOne(was: Dir, before: Dir, dir: Dir, keep: nat, i: nat)
    requires 1 <= i <= keep
    requires if i == keep then before == was else Shifted(was, before, keep, i)
    requires dir == if i - 1 in before then (before - {i, i - 1})[i := before[i - 1]] else before
    ensures Shifted(was, dir, keep, i - 1)
  {
    forall j: nat ensures At(dir, j) == Between(was, keep, i - 1, j) {
      assert i < keep ==> At(before, j) == Between(was, keep, i, j) && At(before, i - 1) == Between(was, keep, i, i - 1);
    }
  }

  lemma AllShifted(was: Dir, shifted: Dir, dir: Dir, keep: nat)
    requires 0 in was
    requires if keep == 0 then shifted == was else Shifted(was, shifted, keep, 0)
    requires dir == if 0 in shifted then shifted else shifted[0 := []]
    ensures dir == Rotated(was, keep)
  {
    if keep > 0 {
      forall j: nat ensures At(dir, j) == At(Rotated(was, keep), j) {
        RotatedLines(was, keep, j);
        assert At(shifted, j) == Between(was, keep, 0, j) && At(shifted, 0) == None;
      }
      SameAt(dir, Rotated(was, keep));
    }
  }

  lemma SameAt(a: Dir, b: Dir)
    requires forall j: nat :: At(a, j) == At(b, j)
    ensures a == b
  {
    forall j: nat ensures (j in a <==> j in b) && (j in a ==> a[j] == b[j]) { assert At(a, j) == At(b, j); }
    assert a.Keys == b.Keys;
  }

  class Auditor {
    const config: Config
    var dir: Dir
    var bytesWritten: nat
    var fileBroken: bool

    ghost function Model(): Log
      reads this
    {
      Log(dir, bytesWritten, fileBroken)
    }

    /** Opens the live file for appending, creating it when it is not there, and takes its size. */
    method OpenLog()
      modifies this
      ensures dir == if 0 in old(dir) then old(dir) else old(dir)[0 := []]
      ensures 0 in dir && bytesWritten == Size(dir[0]) && fileBroken == old(fileBroken)
    {
      if 0 !in dir { dir := dir[0 := []]; }
      bytesWritten := Size(dir[0]);
    }

    /** One rename of the rotation; the file in the way is unlinked at the end of the retention. */
    method MoveOne(i: nat, last: bool)
      requires i >= 1
      modifies this`dir
      ensures dir == if i - 1 in old(dir) then (old(dir) - {i, i - 1})[i := old(dir)[i - 1]] else old(dir)
    {
      var src: nat, dst: nat := i - 1, i;
      if src in dir {
        ghost var before: Dir := dir;
        if last { dir := dir - {dst}; }
        dir := (dir - {src})[dst := dir[src]];
        assert dir == (before - {i, src})[i := before[i - 1]];
      }
    }

    /** Renames from the oldest name down, then opens a new live file. */
    method Rotate()
      requires 0 in dir
      modifies this
      ensures Model() == if config.rotateBytes == 0 then old(Model()) else RotateStep(config, old(Model()))
    {
      if config.rotateBytes == 0 { return; }
      ghost var was := dir;
      hide Shifted, Rotated, Size;
      var keep := config.rotateKeep;
      var i := keep;
      while i >= 1
        invariant 0 <= i <= keep && fileBroken == old(fileBroken)
        invariant if i == keep then dir == was else Shifted(was, dir, keep, i)
      {
        ghost var before: Dir := dir;
        MoveOne(i, i == keep);
        ShiftOne(was, before, dir, keep, i);
        i := i - 1;
      }
      ghost var shifted := dir;
      OpenLog();
      AllShifted(was, shifted, dir, keep);
    }

    method Event(line: Line, wrote: bool)
      requires 0 in dir
      modifies this
      ensures Model() == EventStep(config, old(Model()), line, wrote)
    {
      if fileBroken { return; }
      if !wrote {
        fileBroken := true;
        return;
      }
      dir := dir[0 := dir[0] + [line]];
      bytesWritten := bytesWritten + |line.bytes|;
      if config.rotateBytes > 0 && bytesWritten >= config.rotateBytes {
        Rotate();
      }
    }
  }

  /**
   What an event does to an open log: a line that reaches the file goes to the end of the live file; if that file has then
   reached the limit, and there are archives, it becomes archive 1 and a new one is empty; otherwise nothing else moves. A
   line that does not reach it leaves every file as it is, and so do all later ones.
   */
  lemma EventMoves(c: Config, s: Log, line: Line, wrote: bool, more: seq<Event>)
    requires Opened(s)
    ensures
      var live, t := s.dir[0] + [line], EventStep(c, s, line, wrote);
      if !wrote then After(c, t, more).dir == s.dir
      else if 0 < c.rotateBytes <= Size(live) && c.rotateKeep > 0 then t.dir[0] == [] && 1 in t.dir && t.dir[1] == live
      else t.dir == s.dir[0 := live]
  {
    SizeSnoc(s.dir[0], line);
    if wrote {
      var dir := s.dir[0 := s.dir[0] + [line]];
      if c.rotateKeep > 0 {
        RotatedLines(dir, c.rotateKeep, 0);
        RotatedLines(dir, c.rotateKeep, 1);
      }
      hide Rotated, Size;
    } else {
      BrokenStays(c, EventStep(c, s, line, wrote), more);
    }
  }

  lemma {:induction false} BrokenStays(c: Config, s: Log, events: seq<Event>)
    requires 0 in s.dir && s.broken
    ensures After(c, s, events) == s
  {
    if events != [] { BrokenStays(c, s, events[..|events| - 1]); }
  }
}
