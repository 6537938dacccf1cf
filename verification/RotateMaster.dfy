/** Re-sealing the keystore under a new master key, and what a crash in the middle leaves behind. */
module RotateMaster {
  import opened Bytes
  import opened Durable
  import opened Wrappers

  type KeyId = string

  datatype Keys = Keys(sk: ByteString, ek: ByteString)

  /** What an entry carries along in the clear. */
  datatype Meta = Meta(vk: ByteString, tag: string, createdAt: string)

  datatype Entry = Sealed(skSealed: ByteString, ekSealed: ByteString, meta: Meta) | Legacy(sk: ByteString, ek: ByteString, meta: Meta)

  type Keystore = map<KeyId, Entry>

  /** The two files, parsed. */
  datatype Content = KeystoreJson(entries: Keystore) | MasterBytes(key: ByteString)

  /** AES-256-GCM with the purpose as associated data: key, purpose, nonce and text. */
  datatype Cipher = Cipher(
    seal: (ByteString, string, ByteString, ByteString) -> ByteString,
    open: (ByteString, string, ByteString) -> Option<ByteString>)

  ghost predicate Opens(c: Cipher) {
    forall key, aad, iv, text :: c.open(key, aad, c.seal(key, aad, iv, text)) == Some(text)
  }

  const KS: Path := Plain("keystore.json")
  const MK: Path := Plain("master.key")

  function OpenEntry(c: Cipher, master: ByteString, id: KeyId, e: Entry): Option<Keys> {
    match e
    case Legacy(sk, ek, _) => Some(Keys(sk, ek))
    case Sealed(s, t, _) =>
      var sk, ek := c.open(master, id + ":sk", s), c.open(master, id + ":ek", t);
      if sk.None? || ek.None? then None else Some(Keys(sk.value, ek.value))
  }

  predicate AllOpen(c: Cipher, master: ByteString, raw: Keystore) {
    forall id | id in raw :: OpenEntry(c, master, id, raw[id]).Some?
  }

  /** The keys that a keystore yields under a master. */
  function Plaintexts(c: Cipher, master: ByteString, raw: Keystore): map<KeyId, Keys>
    requires AllOpen(c, master, raw)
  {
    map id | id in raw :: OpenEntry(c, master, id, raw[id]).value
  }

  /** The nonces drawn while sealing, one per entry and purpose. */
  type Nonces = (KeyId, bool) -> ByteString

  function SealEntry(c: Cipher, master: ByteString, ivs: Nonces, id: KeyId, keys: Keys, meta: Meta): Entry {
    Sealed(c.seal(master, id + ":sk", ivs(id, true), keys.sk), c.seal(master, id + ":ek", ivs(id, false), keys.ek), meta)
  }

  function Resealed(c: Cipher, oldMaster: ByteString, newMaster: ByteString, ivs: Nonces, raw: Keystore): Keystore
    requires AllOpen(c, oldMaster, raw)
  {
    map id | id in raw :: SealEntry(c, newMaster, ivs, id, OpenEntry(c, oldMaster, id, raw[id]).value, raw[id].meta)
  }

  datatype RotateError = KeystoreMissing | MasterMissing | NotAKeystore | OpenFailed(id: KeyId)

  /** The new keystore holds the same keys under the new master, entry by entry, and all of them sealed. */
  lemma ResealedSameKeys(c: Cipher, oldMaster: ByteString, newMaster: ByteString, ivs: Nonces, raw: Keystore)
    requires Opens(c) && AllOpen(c, oldMaster, raw)
    ensures
      var resealed := Resealed(c, oldMaster, newMaster, ivs, raw);
      && AllOpen(c, newMaster, resealed) && Plaintexts(c, newMaster, resealed) == Plaintexts(c, oldMaster, raw)
      && resealed.Keys == raw.Keys && forall id | id in resealed :: resealed[id].Sealed? && resealed[id].meta == raw[id].meta
  {
    hide OpenEntry, Opens;
    var resealed := Resealed(c, oldMaster, newMaster, ivs, raw);
    forall id | id in raw ensures OpenEntry(c, newMaster, id, resealed[id]) == OpenEntry(c, oldMaster, id, raw[id]) {
      SealedOpens(c, newMaster, ivs, id, OpenEntry(c, oldMaster, id, raw[id]).value, raw[id].meta);
    }
  }

  lemma SealedOpens(c: Cipher, master: ByteString, ivs: Nonces, id: KeyId, keys: Keys, meta: Meta)
    requires Opens(c)
    ensures OpenEntry(c, master, id, SealEntry(c, master, ivs, id, keys, meta)) == Some(keys)
  {
  }

  /** What is sealed for one purpose does not open for another. */
  ghost predicate Binds(c: Cipher) {
    forall key, aad, aad', iv, text :: aad != aad' ==> c.open(key, aad', c.seal(key, aad, iv, text)) == None
  }

  lemma PurposesDiffer(id: KeyId, other: KeyId)
    ensures id + ":sk" != other + ":ek"
    ensures id + ":sk" == other + ":sk" <==> id == other
    ensures id + ":ek" == other + ":ek" <==> id == other
  {
    var a, b, c, d := id + ":sk", other + ":ek", other + ":sk", id + ":ek";
    assert a[|a| - 2] == 's' && b[|b| - 2] == 'e';
    assert |id| == |other| ==> a[..|id|] == id && c[..|id|] == other && d[..|id|] == id && b[..|id|] == other;
  }

  /**
   A sealed entry is bound to its place: under another key id it does not open, nor with its two blobs exchanged. In its
   place it opens to the keys it was made of, each blob for the purpose that the key id and ":sk" or ":ek" spell.
   */
  lemma BoundToPlace(c: Cipher, master: ByteString, ivs: Nonces, id: KeyId, other: KeyId, keys: Keys, meta: Meta)
    requires Opens(c) && Binds(c)
    ensures var e := SealEntry(c, master, ivs, id, keys, meta);
      && e.Sealed?
      && OpenEntry(c, master, other, e) == (if other == id then Some(keys) else None)
      && OpenEntry(c, master, id, e.(skSealed := e.ekSealed)) == None
      && OpenEntry(c, master, id, e.(ekSealed := e.skSealed)) == None
      && c.open(master, id + ":sk", e.skSealed) == Some(keys.sk) && c.open(master, id + ":ek", e.ekSealed) == Some(keys.ek)
  {
    PurposesDiffer(id, other);
    PurposesDiffer(id, id);
    PurposesDiffer(other, id);
  }

  // ---------- the operations on disk ----------

  function RotationOps(resealed: Keystore, newMaster: ByteString, stamp: string, fsyncDir: bool): seq<Op<Content>> {
    [Rename(KS, Bak(KS, stamp)), Rename(MK, Bak(MK, stamp))]
    + DurableOps(KS, KeystoreJson(resealed), fsyncDir) + DurableOps(MK, MasterBytes(newMaster), fsyncDir)
  }

  predicate Holds(d: Disk<Content>, p: Path, x: Content) {
    p in d && d[p].content == Some(x)
  }

  /** The keystore at `p` opens under the master at `q` to these keys. */
  ghost predicate PairOpens(c: Cipher, d: Disk<Content>, p: Path, q: Path, plain: map<KeyId, Keys>) {
    && p in d && d[p].content.Some? && d[p].content.value.KeystoreJson?
    && q in d && d[q].content.Some? && d[q].content.value.MasterBytes?
    && AllOpen(c, d[q].content.value.key, d[p].content.value.entries)
    && Plaintexts(c, d[q].content.value.key, d[p].content.value.entries) == plain
  }

  predicate Healthy(d: Disk<Content>, raw: Keystore, master: ByteString) {
    Holds(d, KS, KeystoreJson(raw)) && Holds(d, MK, MasterBytes(master)) && d[KS].synced && d[MK].synced
  }

  /** The four files that matter, after `k` operations. */
  datatype Stage = Before | KeystoreMoved | BothMoved | KeystoreWritten | Done

  function StageAt(k: nat, fsyncDir: bool): Stage {
    var len := if fsyncDir then 5 else 4;
    if k == 0 then Before else if k == 1 then KeystoreMoved else if k < 6 then BothMoved
    else if k < 6 + len then KeystoreWritten else Done
  }

  predicate AtStage(d: Disk<Content>, stage: Stage, raw: Keystore, master: ByteString, resealed: Keystore, newMaster: ByteString, stamp: string) {
    var ksBak, mkBak := Bak(KS, stamp), Bak(MK, stamp);
    match stage
    case Before => SyncedAt(d, KS, KeystoreJson(raw)) && SyncedAt(d, MK, MasterBytes(master))
    case KeystoreMoved => SyncedAt(d, ksBak, KeystoreJson(raw)) && SyncedAt(d, MK, MasterBytes(master)) && KS !in d
    case BothMoved =>
      SyncedAt(d, ksBak, KeystoreJson(raw)) && SyncedAt(d, mkBak, MasterBytes(master)) && KS !in d && MK !in d
    case KeystoreWritten =>
      SyncedAt(d, ksBak, KeystoreJson(raw)) && SyncedAt(d, mkBak, MasterBytes(master)) && SyncedAt(d, KS, KeystoreJson(resealed)) && MK !in d
    case Done =>
      SyncedAt(d, ksBak, KeystoreJson(raw)) && SyncedAt(d, mkBak, MasterBytes(master))
      && SyncedAt(d, KS, KeystoreJson(resealed)) && SyncedAt(d, MK, MasterBytes(newMaster))
  }

  predicate SyncedAt(d: Disk<Content>, p: Path, x: Content) {
    p in d && d[p] == File(Some(x), true)
  }

  lemma Split(resealed: Keystore, newMaster: ByteString, stamp: string, fsyncDir: bool, i: nat, j: nat)
    requires i <= |DurableOps(KS, KeystoreJson(resealed), fsyncDir)| && j <= |DurableOps(MK, MasterBytes(newMaster), fsyncDir)|
    ensures
      var ops := RotationOps(resealed, newMaster, stamp, fsyncDir);
      var first, second := DurableOps(KS, KeystoreJson(resealed), fsyncDir), DurableOps(MK, MasterBytes(newMaster), fsyncDir);
      && |ops| == 2 + |first| + |second|
      && ops[..2 + i] == ops[..2] + first[..i]
      && ops[..2 + |first| + j] == ops[..2 + |first|] + second[..j]
  {
    hide DurableOps;
  }

  lemma KeystoreStage(d: Disk<Content>, raw: Keystore, master: ByteString, resealed: Keystore, newMaster: ByteString,
                      stamp: string, fsyncDir: bool, i: nat)
    requires Healthy(d, raw, master) && i <= |DurableOps(KS, KeystoreJson(resealed), fsyncDir)|
    ensures
      var ops := RotationOps(resealed, newMaster, stamp, fsyncDir);
      |ops| >= 2 + i && AtStage(ApplyAll(d, ops[..2 + i]), if i < 4 then BothMoved else KeystoreWritten, raw, master, resealed, newMaster, stamp)
  {
    var ops := RotationOps(resealed, newMaster, stamp, fsyncDir);
    Split(resealed, newMaster, stamp, fsyncDir, i, 0);
    hide ApplyAll, DurableOps;
    Moved(d, raw, master, ops, stamp, 2);
    DurablePrefix(ApplyAll(d, ops[..2]), KS, KeystoreJson(resealed), fsyncDir, i);
    hide RotationOps;
    ApplyAppend(d, ops[..2], DurableOps(KS, KeystoreJson(resealed), fsyncDir)[..i]);
  }

  lemma StageReached(d: Disk<Content>, raw: Keystore, master: ByteString, resealed: Keystore, newMaster: ByteString,
                     stamp: string, fsyncDir: bool, k: nat)
    requires Healthy(d, raw, master) && k <= |RotationOps(resealed, newMaster, stamp, fsyncDir)|
    ensures AtStage(ApplyAll(d, RotationOps(resealed, newMaster, stamp, fsyncDir)[..k]), StageAt(k, fsyncDir), raw, master, resealed, newMaster, stamp)
  {
    var ops := RotationOps(resealed, newMaster, stamp, fsyncDir);
    var len := |DurableOps(KS, KeystoreJson(resealed), fsyncDir)|;
    assert len == (if fsyncDir then 5 else 4) == |DurableOps(MK, MasterBytes(newMaster), fsyncDir)|;
    hide ApplyAll, DurableOps;
    if k <= 2 {
      Moved(d, raw, master, ops, stamp, k);
    } else if k <= 2 + len {
      KeystoreStage(d, raw, master, resealed, newMaster, stamp, fsyncDir, k - 2);
    } else {
      var j := k - 2 - len;
      KeystoreStage(d, raw, master, resealed, newMaster, stamp, fsyncDir, len);
      DurablePrefix(ApplyAll(d, ops[..2 + len]), MK, MasterBytes(newMaster), fsyncDir, j);
      Split(resealed, newMaster, stamp, fsyncDir, len, j);
      hide RotationOps;
      ApplyAppend(d, ops[..2 + len], DurableOps(MK, MasterBytes(newMaster), fsyncDir)[..j]);
    }
  }

  lemma Moved(d: Disk<Content>, raw: Keystore, master: ByteString, ops: seq<Op<Content>>, stamp: string, k: nat)
    requires Healthy(d, raw, master) && |ops| >= 2 && k <= 2
    requires ops[0] == Rename(KS, Bak(KS, stamp)) && ops[1] == Rename(MK, Bak(MK, stamp))
    ensures AtStage(ApplyAll(d, ops[..k]), if k == 0 then Before else if k == 1 then KeystoreMoved else BothMoved,
                    raw, master, map[], [], stamp)
  {
    NoOps(d, ops);
    hide ApplyAll;
    Next(d, ops, 0);
    Next(d, ops, 1);
  }

  // ---------- what a crash leaves ----------

  lemma StageSurvives(d: Disk<Content>, found: Disk<Content>, stage: Stage, raw: Keystore, master: ByteString,
                      resealed: Keystore, newMaster: ByteString, stamp: string)
    requires AtStage(d, stage, raw, master, resealed, newMaster, stamp) && Torn(d, found)
    ensures AtStage(found, stage, raw, master, resealed, newMaster, stamp)
  {}

  lemma StagePairs(c: Cipher, d: Disk<Content>, stage: Stage, raw: Keystore, master: ByteString,
                   newMaster: ByteString, ivs: Nonces, stamp: string)
    requires Opens(c) && AllOpen(c, master, raw)
    requires AtStage(d, stage, raw, master, Resealed(c, master, newMaster, ivs, raw), newMaster, stamp)
    ensures
      var plain := Plaintexts(c, master, raw);
      && (stage == Before ==> PairOpens(c, d, KS, MK, plain))
      && (stage == KeystoreMoved ==> PairOpens(c, d, Bak(KS, stamp), MK, plain))
      && (stage.BothMoved? || stage.KeystoreWritten? || stage.Done? ==> PairOpens(c, d, Bak(KS, stamp), Bak(MK, stamp), plain))
      && (stage == Done ==> PairOpens(c, d, KS, MK, plain))
      && (KS in d && MK in d <==> stage == Before || stage == Done)
  {
    ResealedSameKeys(c, master, newMaster, ivs, raw);
    hide Resealed, AllOpen, Plaintexts;
  }

  /** A keystore and a master that open to the original keys, live or backed up. */
  ghost predicate Recoverable(c: Cipher, d: Disk<Content>, stamp: string, plain: map<KeyId, Keys>) {
    || PairOpens(c, d, KS, MK, plain)
    || PairOpens(c, d, Bak(KS, stamp), MK, plain)
    || PairOpens(c, d, Bak(KS, stamp), Bak(MK, stamp), plain)
  }

  /**
   Wherever a rotation is cut, a pair that opens to the original keys is on disk, and if both live files are there they
   are such a pair.
   */
  lemma CrashRecoverable(c: Cipher, d: Disk<Content>, raw: Keystore, master: ByteString, newMaster: ByteString, ivs: Nonces,
                         stamp: string, fsyncDir: bool, n: nat, found: Disk<Content>)
    requires Opens(c) && Healthy(d, raw, master) && AllOpen(c, master, raw)
    requires n <= |RotationOps(Resealed(c, master, newMaster, ivs, raw), newMaster, stamp, fsyncDir)|
    requires Found(d, RotationOps(Resealed(c, master, newMaster, ivs, raw), newMaster, stamp, fsyncDir), n, found)
    ensures Recoverable(c, found, stamp, Plaintexts(c, master, raw))
    ensures KS in found && MK in found ==> PairOpens(c, found, KS, MK, Plaintexts(c, master, raw))
  {
    var resealed := Resealed(c, master, newMaster, ivs, raw);
    var ops := RotationOps(resealed, newMaster, stamp, fsyncDir);
    var k :| Settled(ops, n) <= k <= n && Torn(ApplyAll(d, ops[..k]), found);
    hide RotationOps, ApplyAll, Torn, AtStage, PairOpens, Healthy, StageAt, Resealed, AllOpen;
    StageReached(d, raw, master, resealed, newMaster, stamp, fsyncDir, k);
    StageSurvives(ApplyAll(d, ops[..k]), found, StageAt(k, fsyncDir), raw, master, resealed, newMaster, stamp);
    StagePairs(c, found, StageAt(k, fsyncDir), raw, master, newMaster, ivs, stamp);
  }

  /** A finished rotation, its directory synced, survives any crash: the new master opens the live keystore to the same keys. */
  lemma FinishedStays(c: Cipher, d: Disk<Content>, raw: Keystore, master: ByteString, newMaster: ByteString, ivs: Nonces,
                      stamp: string, found: Disk<Content>)
    requires Opens(c) && Healthy(d, raw, master) && AllOpen(c, master, raw)
    requires
      var ops := RotationOps(Resealed(c, master, newMaster, ivs, raw), newMaster, stamp, true);
      Found(d, ops, |ops|, found)
    ensures PairOpens(c, found, KS, MK, Plaintexts(c, master, raw)) && Holds(found, MK, MasterBytes(newMaster))
    ensures PairOpens(c, found, Bak(KS, stamp), Bak(MK, stamp), Plaintexts(c, master, raw))
  {
    var resealed := Resealed(c, master, newMaster, ivs, raw);
    var ops := RotationOps(resealed, newMaster, stamp, true);
    assert |ops| == 12 && ops[11].SyncDir?;
    hide RotationOps, ApplyAll, Torn, PairOpens, Healthy, Resealed, AllOpen;
    var k :| Settled(ops, |ops|) <= k <= |ops| && Torn(ApplyAll(d, ops[..k]), found);
    StageReached(d, raw, master, resealed, newMaster, stamp, true, k);
    StageSurvives(ApplyAll(d, ops[..k]), found, StageAt(k, true), raw, master, resealed, newMaster, stamp);
    StagePairs(c, found, StageAt(k, true), raw, master, newMaster, ivs, stamp);
  }

  /**
   A second run after a crash gets past its existence checks only if nothing had been moved or all had been written: in
   between it refuses, and the operator has to put the backups back.
   */
  lemma RerunRefusedBetween(c: Cipher, d: Disk<Content>, raw: Keystore, master: ByteString, newMaster: ByteString, ivs: Nonces,
                            stamp: string, fsyncDir: bool, k: nat, found: Disk<Content>)
    requires Opens(c) && Healthy(d, raw, master) && AllOpen(c, master, raw)
    requires k <= |RotationOps(Resealed(c, master, newMaster, ivs, raw), newMaster, stamp, fsyncDir)|
    requires Torn(ApplyAll(d, RotationOps(Resealed(c, master, newMaster, ivs, raw), newMaster, stamp, fsyncDir)[..k]), found)
    ensures KS in found && MK in found <==> k == 0 || StageAt(k, fsyncDir) == Done
  {
    var resealed := Resealed(c, master, newMaster, ivs, raw);
    var ops := RotationOps(resealed, newMaster, stamp, fsyncDir);
    hide RotationOps, ApplyAll, Torn, AtStage, PairOpens, Healthy, Resealed, AllOpen;
    StageReached(d, raw, master, resealed, newMaster, stamp, fsyncDir, k);
    StageSurvives(ApplyAll(d, ops[..k]), found, StageAt(k, fsyncDir), raw, master, resealed, newMaster, stamp);
    StagePairs(c, found, StageAt(k, fsyncDir), raw, master, newMaster, ivs, stamp);
  }

  // ---------- the tool ----------

  predicate IsFirstShut(c: Cipher, master: ByteString, raw: Keystore, order: seq<KeyId>, id: KeyId) {
    exists i | 0 <= i < |order| :: order[i] == id && id in raw && OpenEntry(c, master, id, raw[id]).None?
      && forall j | 0 <= j < i :: order[j] in raw && OpenEntry(c, master, order[j], raw[order[j]]).Some?
  }

  /** First pass: every entry opens under the old master, or the first that does not is named. */
  method OpenEntries(c: Cipher, master: ByteString, raw: Keystore, order: seq<KeyId>)
    returns (r: Result<map<KeyId, Keys>, RotateError>)
    requires forall id :: id in order <==> id in raw
    ensures r.Ok? <==> AllOpen(c, master, raw)
    ensures r.Ok? ==> r.value == Plaintexts(c, master, raw)
    ensures r.Err? ==> r.error.OpenFailed? && IsFirstShut(c, master, raw, order, r.error.id)
  {
    hide OpenEntry;
    var plain: map<KeyId, Keys> := map[];
    for i := 0 to |order|
      invariant forall id :: id in plain <==> id in order[..i]
      invariant forall id | id in plain :: id in raw && OpenEntry(c, master, id, raw[id]) == Some(plain[id])
    {
      var id := order[i];
      assert id in order && order[..i + 1] == order[..i] + [id];
      var keys := OpenEntry(c, master, id, raw[id]);
      if keys.None? {
        assert forall j | 0 <= j < i :: order[j] in order[..i];
        return Err(OpenFailed(id));
      }
      plain := plain[id := keys.value];
    }
    assert order[..|order|] == order;
    assert plain == Plaintexts(c, master, raw);
    r := Ok(plain);
  }

  /** Second pass: every opened entry is sealed under the new master. */
  method SealEntries(c: Cipher, oldMaster: ByteString, newMaster: ByteString, ivs: Nonces, raw: Keystore, order: seq<KeyId>,
                     plain: map<KeyId, Keys>) returns (resealed: Keystore)
    requires AllOpen(c, oldMaster, raw) && plain == Plaintexts(c, oldMaster, raw)
    requires forall id :: id in order <==> id in raw
    ensures resealed == Resealed(c, oldMaster, newMaster, ivs, raw)
  {
    hide OpenEntry, SealEntry;
    resealed := map[];
    for i := 0 to |order|
      invariant forall id :: id in resealed <==> id in order[..i]
      invariant forall id | id in resealed :: id in raw && resealed[id] == SealEntry(c, newMaster, ivs, id, plain[id], raw[id].meta)
    {
      var id := order[i];
      assert id in order && order[..i + 1] == order[..i] + [id];
      resealed := resealed[id := SealEntry(c, newMaster, ivs, id, plain[id], raw[id].meta)];
    }
    assert order[..|order|] == order;
  }

  function Cleaned(d: Disk<Content>): Disk<Content> {
    d - {Tmp(KS)} - {Tmp(MK)}
  }

  /** The keystore file as the tool reads it. */
  function Entries(d: Disk<Content>): Option<Keystore> {
    if KS in d && d[KS].content.Some? && d[KS].content.value.KeystoreJson? then Some(d[KS].content.value.entries) else None
  }

  predicate CanOpen(c: Cipher, master: ByteString, raw: Option<Keystore>) {
    raw.Some? && AllOpen(c, master, raw.value)
  }

  method Rotate(fs: FileSystem<Content>, c: Cipher, oldMaster: ByteString, newMaster: ByteString, ivs: Nonces,
                order: seq<KeyId>, dryRun: bool, stamp: string, fsyncDir: bool) returns (r: Result<nat, RotateError>)
    requires Entries(fs.disk).Some? ==> forall id :: id in order <==> id in Entries(fs.disk).value
    modifies fs
    ensures r.Ok? <==> KS in old(fs.disk) && MK in old(fs.disk) && CanOpen(c, oldMaster, old(Entries(fs.disk)))
    ensures r.Ok? ==> r.value == |order|
    ensures KS !in old(fs.disk) ==> r == Err(KeystoreMissing)
    ensures KS in old(fs.disk) && MK !in old(fs.disk) ==> r == Err(MasterMissing)
    ensures KS in old(fs.disk) && MK in old(fs.disk) && r.Err? ==>
      match old(Entries(fs.disk))
      case None => r.error == NotAKeystore
      case Some(raw) => r.error.OpenFailed? && IsFirstShut(c, oldMaster, raw, order, r.error.id)
    ensures KS !in old(fs.disk) || MK !in old(fs.disk) ==> fs.disk == old(fs.disk)
    ensures KS in old(fs.disk) && MK in old(fs.disk) && (r.Err? || dryRun) ==> fs.disk == Cleaned(old(fs.disk))
    ensures r.Ok? && !dryRun ==>
      var ops := RotationOps(Resealed(c, oldMaster, newMaster, ivs, old(Entries(fs.disk)).value), newMaster, stamp, fsyncDir);
      fs.disk == ApplyAll(Cleaned(old(fs.disk)), ops) && |fs.done| >= |ops| && fs.done[|fs.done| - |ops|..] == ops
  {
    if KS !in fs.disk { return Err(KeystoreMissing); }
    if MK !in fs.disk { return Err(MasterMissing); }
    fs.CleanupStaleTmp(KS);
    fs.CleanupStaleTmp(MK);
    if fs.disk[KS].content.None? || !fs.disk[KS].content.value.KeystoreJson? { return Err(NotAKeystore); }
    var raw := fs.disk[KS].content.value.entries;
    var plain := OpenEntries(c, oldMaster, raw, order);
    if plain.Err? { return Err(plain.error); }
    var resealed := SealEntries(c, oldMaster, newMaster, ivs, raw, order, plain.value);
    if dryRun { return Ok(|order|); }
    hide AllOpen, Resealed, Plaintexts, ApplyAll;
    Replace(fs, resealed, newMaster, stamp, fsyncDir);
    r := Ok(|order|);
  }

  /** Back the old pair up, then write the new keystore, then the new master. */
  method Replace(fs: FileSystem<Content>, resealed: Keystore, newMaster: ByteString, stamp: string, fsyncDir: bool)
    modifies fs
    ensures fs.done == old(fs.done) + RotationOps(resealed, newMaster, stamp, fsyncDir)
    ensures fs.disk == ApplyAll(old(fs.disk), RotationOps(resealed, newMaster, stamp, fsyncDir))
  {
    hide ApplyAll, DurableOps;
    fs.Do(Rename(KS, Bak(KS, stamp)));
    fs.Do(Rename(MK, Bak(MK, stamp)));
    fs.WriteFileDurable(KS, KeystoreJson(resealed), fsyncDir);
    fs.WriteFileDurable(MK, MasterBytes(newMaster), fsyncDir);
    DiskAfter(old(fs.disk), resealed, newMaster, stamp, fsyncDir);
    assert fs.done == old(fs.done) + RotationOps(resealed, newMaster, stamp, fsyncDir);
  }

  lemma DiskAfter(d: Disk<Content>, resealed: Keystore, newMaster: ByteString, stamp: string, fsyncDir: bool)
    ensures
      var first, second := DurableOps(KS, KeystoreJson(resealed), fsyncDir), DurableOps(MK, MasterBytes(newMaster), fsyncDir);
      var moved := Apply(Apply(d, Rename(KS, Bak(KS, stamp))), Rename(MK, Bak(MK, stamp)));
      ApplyAll(d, RotationOps(resealed, newMaster, stamp, fsyncDir)) == ApplyAll(ApplyAll(moved, first), second)
  {
    var ops := RotationOps(resealed, newMaster, stamp, fsyncDir);
    var first, second := DurableOps(KS, KeystoreJson(resealed), fsyncDir), DurableOps(MK, MasterBytes(newMaster), fsyncDir);
    NoOps(d, ops);
    hide DurableOps, ApplyAll, Apply;
    Next(d, ops, 0);
    Next(d, ops, 1);
    ApplyAppend(d, ops[..2], first);
    assert ops == ops[..2] + first + second;
    ApplyAppend(d, ops[..2] + first, second);
  }
}
