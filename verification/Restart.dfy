/** The server's next start after a rotation that a crash cut short: which keys it has, and what it leaves on disk. */
module Restart {
  import opened Bytes
  import ChainLog
  import opened Durable
  import Ratchet
  import opened RotateMaster
  import opened Wrappers

  const KEY_BYTES: nat := 32

  datatype BootError = BadMasterFile | BadKeystoreFile | BadChain

  /** What a started server holds: the keys, and where each key's chain stands. */
  datatype Live = Live(keys: map<KeyId, Keys>, chains: map<KeyId, Ratchet.Position>)

  /** The chain store's verdict on the records of a key; the seed is the front of its encryption key. */
  type ChainStore = (KeyId, Keys) -> ChainLog.LoadResult

  predicate ChainsLoad(store: ChainStore, keys: map<KeyId, Keys>) {
    forall id | id in keys :: store(id, keys[id]).Loaded?
  }

  function Chains(store: ChainStore, keys: map<KeyId, Keys>): map<KeyId, Ratchet.Position>
    requires ChainsLoad(store, keys)
  {
    map id | id in keys :: Ratchet.Position(store(id, keys[id]).counter, store(id, keys[id]).state)
  }

  /** A chain that does not verify ends the start. */
  function Started(store: ChainStore, keys: map<KeyId, Keys>): Result<Live, BootError> {
    if ChainsLoad(store, keys) then Ok(Live(keys, Chains(store, keys))) else Err(BadChain)
  }

  /** A server without keys. */
  function Empty(): Live {
    Live(map[], map[])
  }

  // ---------- what a start does ----------

  /** The master file's key; a missing file is generated. */
  function MasterLoaded(d: Disk<Content>, made: ByteString, fsyncDir: bool): (Disk<Content>, Result<ByteString, BootError>) {
    var d' := d - {Tmp(MK)};
    if MK !in d' then (ApplyAll(d', DurableOps(MK, MasterBytes(made), fsyncDir)), Ok(made))
    else
      match d'[MK].content
      case Some(MasterBytes(key)) => (d', if |key| == KEY_BYTES then Ok(key) else Err(BadMasterFile))
      case _ => (d', Err(BadMasterFile))
  }

  /** The entries that open, by id. */
  function LiveKeys(c: Cipher, master: ByteString, raw: Keystore): map<KeyId, Keys> {
    map id | id in raw && OpenEntry(c, master, id, raw[id]).Some? :: OpenEntry(c, master, id, raw[id]).value
  }

  /** Those entries sealed again, as the keystore file is saved. */
  function Saved(c: Cipher, master: ByteString, ivs: Nonces, raw: Keystore): Keystore {
    map id | id in raw && OpenEntry(c, master, id, raw[id]).Some? ::
      SealEntry(c, master, ivs, id, OpenEntry(c, master, id, raw[id]).value, raw[id].meta)
  }

  predicate HasLegacy(raw: Keystore) {
    exists id | id in raw :: raw[id].Legacy?
  }

  /**
   A missing keystore is an empty one. Entries that do not open are left out, and the chains of the others are verified;
   after that a legacy entry has the file saved anew.
   */
  function KeystoreLoaded(c: Cipher, store: ChainStore, d: Disk<Content>, master: ByteString, ivs: Nonces, fsyncDir: bool)
    : (Disk<Content>, Result<Live, BootError>)
  {
    var d' := d - {Tmp(KS)};
    if KS !in d' then (d', Ok(Empty()))
    else
      match d'[KS].content
      case Some(KeystoreJson(raw)) =>
        var r := Started(store, LiveKeys(c, master, raw));
        (if r.Ok? && HasLegacy(raw) then ApplyAll(d', DurableOps(KS, KeystoreJson(Saved(c, master, ivs, raw)), fsyncDir)) else d', r)
      case _ => (d', Err(BadKeystoreFile))
  }

  function Boot(c: Cipher, store: ChainStore, d: Disk<Content>, made: ByteString, ivs: Nonces, fsyncDir: bool)
    : (Disk<Content>, Result<Live, BootError>)
  {
    var (d', master) := MasterLoaded(d, made, fsyncDir);
    if master.Err? then (d', Err(master.error)) else KeystoreLoaded(c, store, d', master.value, ivs, fsyncDir)
  }

  method LoadMasterKey(fs: FileSystem<Content>, made: ByteString, fsyncDir: bool) returns (r: Result<ByteString, BootError>)
    modifies fs
    ensures (fs.disk, r) == MasterLoaded(old(fs.disk), made, fsyncDir)
  {
    hide ApplyAll, DurableOps;
    fs.CleanupStaleTmp(MK);
    if MK in fs.disk {
      match fs.disk[MK].content {
        case Some(MasterBytes(key)) => return if |key| == KEY_BYTES then Ok(key) else Err(BadMasterFile);
        case _ => return Err(BadMasterFile);
      }
    }
    fs.WriteFileDurable(MK, MasterBytes(made), fsyncDir);
    r := Ok(made);
  }

  /** `order` is the order of the entries in the file. */
  method LoadKeystore(fs: FileSystem<Content>, c: Cipher, store: ChainStore, master: ByteString, ivs: Nonces,
                      order: seq<KeyId>, fsyncDir: bool) returns (r: Result<Live, BootError>)
    requires Entries(fs.disk).Some? ==> forall id :: id in order <==> id in Entries(fs.disk).value
    modifies fs
    ensures (fs.disk, r) == KeystoreLoaded(c, store, old(fs.disk), master, ivs, fsyncDir)
  {
    hide ApplyAll, DurableOps, OpenEntry, SealEntry;
    fs.CleanupStaleTmp(KS);
    if KS !in fs.disk { return Ok(Empty()); }
    if fs.disk[KS].content.None? || !fs.disk[KS].content.value.KeystoreJson? { return Err(BadKeystoreFile); }
    var raw := fs.disk[KS].content.value.entries;
    var keys: map<KeyId, Keys>, chains: map<KeyId, Ratchet.Position>, migrated := map[], map[], 0;
    for i := 0 to |order|
      invariant fs.disk == old(fs.disk) - {Tmp(KS)}
      invariant forall id | id in order[..i] :: id in raw
      invariant forall id :: id in keys <==> id in order[..i] && OpenEntry(c, master, id, raw[id]).Some?
      invariant forall id | id in keys :: keys[id] == OpenEntry(c, master, id, raw[id]).value
      invariant chains.Keys == keys.Keys && forall id | id in keys :: Stands(store, id, keys[id], chains[id])
      invariant migrated > 0 <==> exists id | id in order[..i] :: raw[id].Legacy?
    {
      var id := order[i];
      assert id in order && order[..i + 1] == order[..i] + [id];
      var found := OpenEntry(c, master, id, raw[id]);
      if raw[id].Legacy? { migrated := migrated + 1; }
      if found.Some? {
        var loaded := store(id, found.value);
        if !loaded.Loaded? {
          ShutChain(c, store, master, raw, id);
          return Err(BadChain);
        }
        keys := keys[id := found.value];
        chains := chains[id := Ratchet.Position(loaded.counter, loaded.state)];
      }
    }
    assert order[..|order|] == order;
    AllStarted(c, store, master, raw, keys, chains);
    if migrated > 0 {
      var saved := map id | id in keys :: SealEntry(c, master, ivs, id, keys[id], raw[id].meta);
      assert saved == Saved(c, master, ivs, raw);
      fs.WriteFileDurable(KS, KeystoreJson(saved), fsyncDir);
    }
    r := Ok(Live(keys, chains));
  }

  /** The chain of this key verifies and ends here. */
  predicate Stands(store: ChainStore, id: KeyId, keys: Keys, at: Ratchet.Position) {
    store(id, keys).Loaded? && at == Ratchet.Position(store(id, keys).counter, store(id, keys).state)
  }

  lemma ShutChain(c: Cipher, store: ChainStore, master: ByteString, raw: Keystore, id: KeyId)
    requires id in raw && OpenEntry(c, master, id, raw[id]).Some? && !store(id, OpenEntry(c, master, id, raw[id]).value).Loaded?
    ensures Started(store, LiveKeys(c, master, raw)) == Err(BadChain)
  {
    hide OpenEntry;
    assert id in LiveKeys(c, master, raw);
  }

  lemma AllStarted(c: Cipher, store: ChainStore, master: ByteString, raw: Keystore, keys: map<KeyId, Keys>,
                   chains: map<KeyId, Ratchet.Position>)
    requires forall id :: id in keys <==> id in raw && OpenEntry(c, master, id, raw[id]).Some?
    requires forall id | id in keys :: keys[id] == OpenEntry(c, master, id, raw[id]).value
    requires chains.Keys == keys.Keys && forall id | id in keys :: Stands(store, id, keys[id], chains[id])
    ensures keys == LiveKeys(c, master, raw)
    ensures Started(store, LiveKeys(c, master, raw)) == Ok(Live(keys, chains))
  {
    hide OpenEntry;
    assert keys == LiveKeys(c, master, raw);
    hide LiveKeys;
    assert forall id | id in keys :: Stands(store, id, keys[id], chains[id]);
    assert chains == Chains(store, keys);
  }

  method Start(fs: FileSystem<Content>, c: Cipher, store: ChainStore, made: ByteString, ivs: Nonces, order: seq<KeyId>,
               fsyncDir: bool) returns (r: Result<Live, BootError>)
    requires Entries(fs.disk).Some? ==> forall id :: id in order <==> id in Entries(fs.disk).value
    modifies fs
    ensures (fs.disk, r) == Boot(c, store, old(fs.disk), made, ivs, fsyncDir)
  {
    hide ApplyAll, DurableOps, KeystoreLoaded;
    MasterKeepsKeystore(fs.disk, made, fsyncDir);
    var master := LoadMasterKey(fs, made, fsyncDir);
    if master.Err? { return Err(master.error); }
    r := LoadKeystore(fs, c, store, master.value, ivs, order, fsyncDir);
  }

  /** A finished durable write. */
  lemma Written(d: Disk<Content>, path: Path, x: Content, fsyncDir: bool)
    ensures
      var e := ApplyAll(d, DurableOps(path, x, fsyncDir));
      && path in e && e[path] == File(Some(x), true)
      && forall p | p != path && p != Tmp(path) :: (p in e <==> p in d) && (p in d ==> e[p] == d[p])
  {
    var ops := DurableOps(path, x, fsyncDir);
    assert ops[..|ops|] == ops && |ops| >= 4;
    hide ApplyAll, DurableOps;
    DurablePrefix(d, path, x, fsyncDir, |ops|);
  }

  lemma MasterKeepsKeystore(d: Disk<Content>, made: ByteString, fsyncDir: bool)
    ensures Entries(MasterLoaded(d, made, fsyncDir).0) == Entries(d)
  {
    hide ApplyAll, DurableOps;
    Written(d - {Tmp(MK)}, MK, MasterBytes(made), fsyncDir);
  }

  // ---------- what one start leaves ----------

  /** The master file is used exactly if it holds 32 bytes; without one a key is made, and written before it is used. */
  lemma MasterFileOf32(d: Disk<Content>, made: ByteString, fsyncDir: bool, key: ByteString)
    ensures var (d', r) := MasterLoaded(d, made, fsyncDir);
      && (Holds(d, MK, MasterBytes(key)) ==>
            d' == d - {Tmp(MK)} && r == if |key| == 32 then Ok(key) else Err(BadMasterFile))
      && (MK !in d ==> r == Ok(made) && MK in d' && d'[MK] == File(Some(MasterBytes(made)), true))
  {
    hide ApplyAll, DurableOps;
    Written(d - {Tmp(MK)}, MK, MasterBytes(made), fsyncDir);
  }

  /** The keys are those of the entries that open, each with the end of its chain. */
  ghost predicate LoadedFrom(c: Cipher, store: ChainStore, master: ByteString, raw: Keystore, live: Live) {
    && (forall id :: id in live.keys <==> id in raw && OpenEntry(c, master, id, raw[id]).Some?)
    && (forall id | id in live.keys :: OpenEntry(c, master, id, raw[id]) == Some(live.keys[id]))
    && live.chains.Keys == live.keys.Keys && forall id | id in live.keys :: Stands(store, id, live.keys[id], live.chains[id])
  }

  /** All entries sealed, opening to these keys and to no others, what they carry in the clear unchanged. */
  ghost predicate Migrated(c: Cipher, master: ByteString, raw: Keystore, keys: map<KeyId, Keys>, saved: Keystore) {
    && saved.Keys == keys.Keys
    && forall id | id in saved ::
         saved[id].Sealed? && OpenEntry(c, master, id, saved[id]) == Some(keys[id]) && id in raw && saved[id].meta == raw[id].meta
  }

  /**
   A start whose chains verify: it has the keys of the entries that open. If one entry is still in the clear, the file is
   written anew with just these keys, all sealed, so that entries that did not open are gone from it; otherwise the file is
   left as it is.
   */
  lemma MigrationSaves(c: Cipher, store: ChainStore, d: Disk<Content>, master: ByteString, ivs: Nonces, fsyncDir: bool, raw: Keystore)
    requires Opens(c) && Holds(d, KS, KeystoreJson(raw)) && ChainsLoad(store, LiveKeys(c, master, raw))
    ensures var (d', r) := KeystoreLoaded(c, store, d, master, ivs, fsyncDir);
      && r.Ok? && LoadedFrom(c, store, master, raw, r.value)
      && if exists id | id in raw :: raw[id].Legacy?
         then Entries(d').Some? && Migrated(c, master, raw, r.value.keys, Entries(d').value)
         else d' == d - {Tmp(KS)}
  {
    var saved := Saved(c, master, ivs, raw);
    SavedMigrates(c, master, ivs, raw);
    StartedFrom(c, store, master, raw);
    hide ApplyAll, DurableOps, OpenEntry, SealEntry, Saved, Opens, Migrated, LoadedFrom, Started, LiveKeys, ChainsLoad;
    Written(d - {Tmp(KS)}, KS, KeystoreJson(saved), fsyncDir);
  }

  lemma StartedFrom(c: Cipher, store: ChainStore, master: ByteString, raw: Keystore)
    requires ChainsLoad(store, LiveKeys(c, master, raw))
    ensures var r := Started(store, LiveKeys(c, master, raw));
      r.Ok? && LoadedFrom(c, store, master, raw, r.value) && r.value.keys == LiveKeys(c, master, raw)
  {
    hide OpenEntry;
  }

  lemma SavedMigrates(c: Cipher, master: ByteString, ivs: Nonces, raw: Keystore)
    requires Opens(c)
    ensures Migrated(c, master, raw, LiveKeys(c, master, raw), Saved(c, master, ivs, raw))
  {
    var keys, saved := LiveKeys(c, master, raw), Saved(c, master, ivs, raw);
    forall id | id in saved ensures OpenEntry(c, master, id, saved[id]) == Some(keys[id]) && saved[id].Sealed? && saved[id].meta == raw[id].meta {
      SealedOpens(c, master, ivs, id, keys[id], raw[id].meta);
    }
    hide OpenEntry, SealEntry, Opens;
    assert saved.Keys == keys.Keys;
  }

  // ---------- crash, then start ----------

  /** Nothing sealed under `sealedWith` opens with `key`. */
  ghost predicate WrongKey(c: Cipher, key: ByteString, sealedWith: ByteString) {
    forall aad, iv, text :: c.open(key, aad, c.seal(sealedWith, aad, iv, text)) == None
  }

  /** What a start leaves: the backups untouched, the live files as described. */
  ghost predicate Kept(d: Disk<Content>, d': Disk<Content>, stamp: string) {
    && (Bak(KS, stamp) in d ==> Bak(KS, stamp) in d' && d'[Bak(KS, stamp)] == d[Bak(KS, stamp)])
    && (Bak(MK, stamp) in d ==> Bak(MK, stamp) in d' && d'[Bak(MK, stamp)] == d[Bak(MK, stamp)])
    && (MK in d ==> MK in d' && d'[MK] == d[MK])
  }

  lemma BootKeepsBackups(c: Cipher, store: ChainStore, d: Disk<Content>, made: ByteString, ivs: Nonces, fsyncDir: bool, stamp: string)
    ensures Kept(d, Boot(c, store, d, made, ivs, fsyncDir).0, stamp)
    ensures KS !in d ==> KS !in Boot(c, store, d, made, ivs, fsyncDir).0
  {
    hide ApplyAll, DurableOps, Saved, LiveKeys;
    var (d1, master) := MasterLoaded(d, made, fsyncDir);
    Written(d - {Tmp(MK)}, MK, MasterBytes(made), fsyncDir);
    if master.Ok? && KS in d1 && d1[KS].content.Some? && d1[KS].content.value.KeystoreJson? {
      Written(d1 - {Tmp(KS)}, KS, KeystoreJson(Saved(c, master.value, ivs, d1[KS].content.value.entries)), fsyncDir);
    }
  }

  /** With both files there and every entry opening, the keys are all loaded and the pair still opens to them. */
  lemma BootHealthy(c: Cipher, store: ChainStore, d: Disk<Content>, raw: Keystore, master: ByteString, made: ByteString, ivs: Nonces, fsyncDir: bool)
    requires Opens(c) && Holds(d, KS, KeystoreJson(raw)) && Holds(d, MK, MasterBytes(master)) && |master| == KEY_BYTES
    requires AllOpen(c, master, raw)
    ensures var (d', r) := Boot(c, store, d, made, ivs, fsyncDir);
      r == Started(store, Plaintexts(c, master, raw)) && PairOpens(c, d', KS, MK, Plaintexts(c, master, raw))
  {
    SavedOpens(c, master, ivs, raw);
    hide ApplyAll, DurableOps, Opens, Saved, HasLegacy, LiveKeys, AllOpen, Plaintexts;
    Written(d - {Tmp(MK)} - {Tmp(KS)}, KS, KeystoreJson(Saved(c, master, ivs, raw)), fsyncDir);
  }

  /** When every entry opens, all keys are live and saving keeps them. */
  lemma SavedOpens(c: Cipher, master: ByteString, ivs: Nonces, raw: Keystore)
    requires Opens(c) && AllOpen(c, master, raw)
    ensures LiveKeys(c, master, raw) == Plaintexts(c, master, raw)
    ensures AllOpen(c, master, Saved(c, master, ivs, raw))
    ensures Plaintexts(c, master, Saved(c, master, ivs, raw)) == Plaintexts(c, master, raw)
  {
    hide OpenEntry, SealEntry, Opens;
    SavedIsResealed(c, master, ivs, raw);
    ResealedSameKeys(c, master, master, ivs, raw);
  }

  lemma SavedIsResealed(c: Cipher, master: ByteString, ivs: Nonces, raw: Keystore)
    requires AllOpen(c, master, raw)
    ensures Saved(c, master, ivs, raw) == Resealed(c, master, master, ivs, raw)
  {
    hide OpenEntry, SealEntry;
  }

  /** Without a master file the one generated opens nothing that is sealed under another. */
  lemma BootWithFreshMaster(c: Cipher, store: ChainStore, d: Disk<Content>, raw: Keystore, master: ByteString, newMaster: ByteString, ivs: Nonces,
                            made: ByteString, ivs': Nonces, fsyncDir: bool)
    requires WrongKey(c, made, newMaster) && AllOpen(c, master, raw)
    requires Holds(d, KS, KeystoreJson(Resealed(c, master, newMaster, ivs, raw))) && MK !in d
    ensures var (d', r) := Boot(c, store, d, made, ivs', fsyncDir);
      && r == Ok(Empty()) && Holds(d', MK, MasterBytes(made))
      && Holds(d', KS, KeystoreJson(Resealed(c, master, newMaster, ivs, raw)))
  {
    var resealed := Resealed(c, master, newMaster, ivs, raw);
    NoneOpens(c, made, master, newMaster, ivs, raw);
    hide ApplyAll, DurableOps, OpenEntry, AllOpen, SealEntry;
    assert !HasLegacy(resealed);
    hide Resealed;
    Written(d - {Tmp(MK)}, MK, MasterBytes(made), fsyncDir);
    assert LiveKeys(c, made, resealed) == map[];
  }

  lemma NoneOpens(c: Cipher, key: ByteString, master: ByteString, newMaster: ByteString, ivs: Nonces, raw: Keystore)
    requires WrongKey(c, key, newMaster) && AllOpen(c, master, raw)
    ensures var resealed := Resealed(c, master, newMaster, ivs, raw);
      forall id | id in resealed :: resealed[id].Sealed? && OpenEntry(c, key, id, resealed[id]).None?
  {
  }

  /** Without a keystore file there are no keys, and the file stays away. */
  lemma BootWithoutKeystore(c: Cipher, store: ChainStore, d: Disk<Content>, made: ByteString, ivs: Nonces, fsyncDir: bool)
    requires KS !in d && (MK in d ==> MasterLoaded(d, made, fsyncDir).1.Ok?)
    ensures var (d', r) := Boot(c, store, d, made, ivs, fsyncDir); r == Ok(Empty()) && KS !in d'
  {
    hide ApplyAll, DurableOps;
    Written(d - {Tmp(MK)}, MK, MasterBytes(made), fsyncDir);
  }

  /** The files a crash left decide what the next start has. */
  lemma BootAtStage(c: Cipher, store: ChainStore, d: Disk<Content>, stage: Stage, raw: Keystore, master: ByteString, newMaster: ByteString,
                    ivs: Nonces, stamp: string, made: ByteString, ivs': Nonces, fsyncDir: bool)
    requires Opens(c) && AllOpen(c, master, raw) && WrongKey(c, made, newMaster) && |master| == |newMaster| == KEY_BYTES
    requires AtStage(d, stage, raw, master, Resealed(c, master, newMaster, ivs, raw), newMaster, stamp)
    ensures var (d', r) := Boot(c, store, d, made, ivs', fsyncDir); var plain := Plaintexts(c, master, raw);
      && Kept(d, d', stamp)
      && (stage == Before || stage == Done ==> KS in d && MK in d && r == Started(store, plain) && PairOpens(c, d', KS, MK, plain))
      && (stage == KeystoreMoved || stage == BothMoved ==> KS !in d && r == Ok(Empty()) && KS !in d')
      && (stage == KeystoreWritten ==>
            && KS in d && MK !in d && r == Ok(Empty()) && Holds(d', MK, MasterBytes(made))
            && Holds(d', KS, KeystoreJson(Resealed(c, master, newMaster, ivs, raw))))
  {
    ResealedSameKeys(c, master, newMaster, ivs, raw);
    match stage
    case Before =>
      hide Boot, AllOpen, Plaintexts, PairOpens, Opens, Resealed;
      BootKeepsBackups(c, store, d, made, ivs', fsyncDir, stamp);
      BootHealthy(c, store, d, raw, master, made, ivs', fsyncDir);
    case Done =>
      hide Boot, AllOpen, Plaintexts, PairOpens, Opens, Resealed;
      BootKeepsBackups(c, store, d, made, ivs', fsyncDir, stamp);
      BootHealthy(c, store, d, Resealed(c, master, newMaster, ivs, raw), newMaster, made, ivs', fsyncDir);
    case KeystoreWritten =>
      hide Boot, AllOpen, Plaintexts, PairOpens, Opens, Resealed;
      BootKeepsBackups(c, store, d, made, ivs', fsyncDir, stamp);
      BootWithFreshMaster(c, store, d, raw, master, newMaster, ivs, made, ivs', fsyncDir);
    case _ =>
      hide Boot, AllOpen, Plaintexts, PairOpens, Opens, Resealed, ApplyAll, DurableOps;
      BootKeepsBackups(c, store, d, made, ivs', fsyncDir, stamp);
      BootWithoutKeystore(c, store, d, made, ivs', fsyncDir);
  }

  lemma PairKept(c: Cipher, d: Disk<Content>, d': Disk<Content>, p: Path, q: Path, plain: map<KeyId, Keys>)
    requires PairOpens(c, d, p, q, plain) && p in d' && d'[p] == d[p] && q in d' && d'[q] == d[q]
    ensures PairOpens(c, d', p, q, plain)
  {
    hide AllOpen, Plaintexts;
  }

  lemma EmptyOpens(c: Cipher, master: ByteString, raw: Keystore)
    requires raw == map[]
    ensures AllOpen(c, master, raw) && Plaintexts(c, master, raw) == map[]
  {
  }

  lemma ResealedKeys(c: Cipher, master: ByteString, newMaster: ByteString, ivs: Nonces, raw: Keystore)
    requires AllOpen(c, master, raw)
    ensures Resealed(c, master, newMaster, ivs, raw).Keys == raw.Keys
  {
    hide OpenEntry, SealEntry;
  }

  /** The pair a start makes of the new keystore and a generated master opens only if there is nothing in it. */
  lemma FreshPairIff(c: Cipher, d: Disk<Content>, raw: Keystore, master: ByteString, newMaster: ByteString, ivs: Nonces,
                     made: ByteString)
    requires WrongKey(c, made, newMaster) && AllOpen(c, master, raw)
    requires Holds(d, MK, MasterBytes(made)) && Holds(d, KS, KeystoreJson(Resealed(c, master, newMaster, ivs, raw)))
    ensures PairOpens(c, d, KS, MK, Plaintexts(c, master, raw)) <==> raw == map[]
  {
    hide OpenEntry, SealEntry, WrongKey, Plaintexts, Resealed;
    var resealed := Resealed(c, master, newMaster, ivs, raw);
    ResealedKeys(c, master, newMaster, ivs, raw);
    NoneOpens(c, made, master, newMaster, ivs, raw);
    if raw == map[] {
      assert resealed == map[];
      EmptyOpens(c, made, resealed);
      EmptyOpens(c, master, raw);
    } else {
      var id :| id in raw;
      assert id in resealed;
    }
  }

  /**
   Wherever a rotation is cut and the server started again: a pair that opens to the original keys is on disk still. With
   both live files there the server has all the keys, unless the chain of one does not verify, and without them it has none.
   The live pair is good exactly if both were there, or the keystore was and is empty.
   */
  lemma RestartAfterCrash(c: Cipher, store: ChainStore, d: Disk<Content>, raw: Keystore, master: ByteString, newMaster: ByteString, ivs: Nonces,
                          stamp: string, fsyncDir: bool, n: nat, found: Disk<Content>, made: ByteString, ivs': Nonces)
    requires Opens(c) && Healthy(d, raw, master) && AllOpen(c, master, raw)
    requires |master| == |newMaster| == KEY_BYTES && WrongKey(c, made, newMaster)
    requires n <= |RotationOps(Resealed(c, master, newMaster, ivs, raw), newMaster, stamp, fsyncDir)|
    requires Found(d, RotationOps(Resealed(c, master, newMaster, ivs, raw), newMaster, stamp, fsyncDir), n, found)
    ensures var (d', r) := Boot(c, store, found, made, ivs', fsyncDir); var plain := Plaintexts(c, master, raw);
      && Recoverable(c, d', stamp, plain)
      && r == (if KS in found && MK in found then Started(store, plain) else Ok(Empty()))
      && (PairOpens(c, d', KS, MK, plain) <==> KS in found && (MK in found || raw == map[]))
  {
    hide RotationOps, ApplyAll, Torn, AtStage, PairOpens, Healthy, StageAt, Resealed, AllOpen, Boot, Plaintexts, WrongKey, Opens;
    var stage := StageFound(c, d, raw, master, newMaster, ivs, stamp, fsyncDir, n, found);
    var d' := Boot(c, store, found, made, ivs', fsyncDir).0;
    var plain := Plaintexts(c, master, raw);
    StagePairs(c, found, stage, raw, master, newMaster, ivs, stamp);
    BootAtStage(c, store, found, stage, raw, master, newMaster, ivs, stamp, made, ivs', fsyncDir);
    match stage
    case KeystoreMoved =>
      BackupsThere(found, stage, raw, master, Resealed(c, master, newMaster, ivs, raw), newMaster, stamp);
      PairKept(c, found, d', Bak(KS, stamp), MK, plain);
      NoLivePair(c, d', plain);
    case BothMoved =>
      BackupsThere(found, stage, raw, master, Resealed(c, master, newMaster, ivs, raw), newMaster, stamp);
      PairKept(c, found, d', Bak(KS, stamp), Bak(MK, stamp), plain);
      NoLivePair(c, d', plain);
    case KeystoreWritten =>
      BackupsThere(found, stage, raw, master, Resealed(c, master, newMaster, ivs, raw), newMaster, stamp);
      PairKept(c, found, d', Bak(KS, stamp), Bak(MK, stamp), plain);
      FreshPairIff(c, d', raw, master, newMaster, ivs, made);
    case _ =>
  }

  lemma StageFound(c: Cipher, d: Disk<Content>, raw: Keystore, master: ByteString, newMaster: ByteString, ivs: Nonces,
                   stamp: string, fsyncDir: bool, n: nat, found: Disk<Content>) returns (stage: Stage)
    requires Healthy(d, raw, master) && AllOpen(c, master, raw)
    requires n <= |RotationOps(Resealed(c, master, newMaster, ivs, raw), newMaster, stamp, fsyncDir)|
    requires Found(d, RotationOps(Resealed(c, master, newMaster, ivs, raw), newMaster, stamp, fsyncDir), n, found)
    ensures AtStage(found, stage, raw, master, Resealed(c, master, newMaster, ivs, raw), newMaster, stamp)
  {
    var resealed := Resealed(c, master, newMaster, ivs, raw);
    var ops := RotationOps(resealed, newMaster, stamp, fsyncDir);
    var k :| Settled(ops, n) <= k <= n && Torn(ApplyAll(d, ops[..k]), found);
    hide RotationOps, ApplyAll, Torn, AtStage, Healthy, StageAt, Resealed, AllOpen;
    StageReached(d, raw, master, resealed, newMaster, stamp, fsyncDir, k);
    stage := StageAt(k, fsyncDir);
    StageSurvives(ApplyAll(d, ops[..k]), found, stage, raw, master, resealed, newMaster, stamp);
  }

  lemma BackupsThere(d: Disk<Content>, stage: Stage, raw: Keystore, master: ByteString, resealed: Keystore,
                     newMaster: ByteString, stamp: string)
    requires AtStage(d, stage, raw, master, resealed, newMaster, stamp)
    ensures stage == KeystoreMoved ==> Bak(KS, stamp) in d && MK in d
    ensures stage == BothMoved || stage == KeystoreWritten ==> Bak(KS, stamp) in d && Bak(MK, stamp) in d
  {
  }

  lemma NoLivePair(c: Cipher, d: Disk<Content>, plain: map<KeyId, Keys>)
    requires KS !in d
    ensures !PairOpens(c, d, KS, MK, plain)
  {
  }

  /**
   If the start had to generate a master, both live files are there again, so another run of the tool passes its existence
   checks. It then succeeds with the new master as the old one, and with any wrong key it names the first entry.
   */
  lemma RerunAfterRestart(c: Cipher, store: ChainStore, d: Disk<Content>, raw: Keystore, master: ByteString, newMaster: ByteString, ivs: Nonces,
                          made: ByteString, ivs': Nonces, fsyncDir: bool, key: ByteString, order: seq<KeyId>)
    requires Opens(c) && AllOpen(c, master, raw) && WrongKey(c, made, newMaster) && WrongKey(c, key, newMaster)
    requires Holds(d, KS, KeystoreJson(Resealed(c, master, newMaster, ivs, raw))) && MK !in d
    requires forall id :: id in order <==> id in raw
    ensures var d' := Boot(c, store, d, made, ivs', fsyncDir).0;
      && KS in d' && MK in d' && Entries(d').Some? && AllOpen(c, newMaster, Entries(d').value)
      && forall id :: IsFirstShut(c, key, Entries(d').value, order, id) <==> order != [] && id == order[0]
  {
    var resealed := Resealed(c, master, newMaster, ivs, raw);
    BootWithFreshMaster(c, store, d, raw, master, newMaster, ivs, made, ivs', fsyncDir);
    ResealedSameKeys(c, master, newMaster, ivs, raw);
    NoneOpens(c, key, master, newMaster, ivs, raw);
    hide Boot, OpenEntry, SealEntry, AllOpen, Opens, WrongKey, Resealed;
    assert order != [] ==> order[0] in resealed;
    forall id ensures IsFirstShut(c, key, resealed, order, id) <==> order != [] && id == order[0] {
      FirstIsShut(c, key, resealed, order, id);
    }
  }

  lemma FirstIsShut(c: Cipher, key: ByteString, raw: Keystore, order: seq<KeyId>, id: KeyId)
    requires forall j | j in raw :: OpenEntry(c, key, j, raw[j]).None?
    requires forall j :: j in order <==> j in raw
    ensures IsFirstShut(c, key, raw, order, id) <==> order != [] && id == order[0]
  {
    hide OpenEntry;
    if order != [] { assert order[0] in order; }
  }
}
