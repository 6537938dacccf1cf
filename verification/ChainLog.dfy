/** The append-only chain log: 40-byte records, the linkage verifier and the file backend. */
module ChainLog {
  import opened Bytes
  import opened Ratchet
  import opened Wrappers

  const RECORD_BYTES: nat := 40

  /** One stored record; `state` may have any length, since a database column may hold anything. */
  datatype Row = Row(counter: int, state: ByteString)

  datatype LoadResult =
    | Loaded(counter: nat, state: Digest, records: nat)
    | Corrupt
    | NonMonotonic(record: nat)
    | Tampered(record: nat)

  /** The records that `n` issues from `seed` leave behind. */
  function ChainRows(sha: Sha3, seed: Digest, n: nat): (rows: seq<Row>)
    ensures |rows| == n
    ensures forall i :: 0 <= i < n ==> rows[i] == Row(i + 1, ChainState(sha, seed, i + 1))
  {
    seq(n, i requires 0 <= i => Row(i + 1, ChainState(sha, seed, i + 1)))
  }

  lemma ChainRowsPrefix(sha: Sha3, seed: Digest, n: nat, k: nat)
    requires k <= n
    ensures ChainRows(sha, seed, n)[..k] == ChainRows(sha, seed, k)
  {
  }

  lemma ChainRowsExtend(sha: Sha3, seed: Digest, n: nat)
    ensures ChainRows(sha, seed, n + 1) == ChainRows(sha, seed, n) + [Row(n + 1, ChainState(sha, seed, n + 1))]
  {
  }

  /** The linkage walk from record `i` on, `prev` being the state the record must continue. */
  function Walk(sha: Sha3, rows: seq<Row>, prev: Digest, i: nat): LoadResult
    requires i <= |rows|
    decreases |rows| - i
  {
    if i == |rows| then Loaded(i, prev, i)
    else if rows[i].counter != i + 1 then NonMonotonic(i)
    else
      var derived := DeriveNext(sha, prev, i + 1);
      if derived != rows[i].state then Tampered(i) else Walk(sha, rows, derived, i + 1)
  }

  function LoadRows(sha: Sha3, seed: Digest, rows: seq<Row>): LoadResult {
    Walk(sha, rows, seed, 0)
  }

  /** What the verdict `r` says about `rows`: which prefix is genuine and what is wrong right after it. */
  ghost predicate Verdict(sha: Sha3, seed: Digest, rows: seq<Row>, r: LoadResult) {
    match r
    case Loaded(c, s, n) => rows == ChainRows(sha, seed, |rows|) && c == n == |rows| && s == ChainState(sha, seed, n)
    case NonMonotonic(k) => k < |rows| && rows[..k] == ChainRows(sha, seed, k) && rows[k].counter != k + 1
    case Tampered(k) =>
      && k < |rows| && rows[..k] == ChainRows(sha, seed, k)
      && rows[k].counter == k + 1 && rows[k].state != ChainState(sha, seed, k + 1)
    case Corrupt => false
  }

  lemma {:induction false} WalkVerdict(sha: Sha3, seed: Digest, rows: seq<Row>, i: nat)
    requires i <= |rows| && rows[..i] == ChainRows(sha, seed, i)
    ensures Verdict(sha, seed, rows, Walk(sha, rows, ChainState(sha, seed, i), i))
    decreases |rows| - i
  {
    if i == |rows| {
      assert rows[..i] == rows;
    } else if rows[i] == Row(i + 1, ChainState(sha, seed, i + 1)) {
      ChainRowsExtend(sha, seed, i);
      assert rows[..i + 1] == rows[..i] + [rows[i]];
      WalkVerdict(sha, seed, rows, i + 1);
    }
  }

  lemma GenuineBelow(sha: Sha3, seed: Digest, rows: seq<Row>, k: nat)
    requires k <= |rows| && rows[..k] == ChainRows(sha, seed, k)
    ensures forall i :: 0 <= i < k ==> rows[i] == Row(i + 1, ChainState(sha, seed, i + 1))
  {
    forall i | 0 <= i < k
      ensures rows[i] == Row(i + 1, ChainState(sha, seed, i + 1))
    {
      assert rows[i] == rows[..k][i];
    }
  }

  lemma VerdictUnique(sha: Sha3, seed: Digest, rows: seq<Row>, r: LoadResult, r': LoadResult)
    requires Verdict(sha, seed, rows, r) && Verdict(sha, seed, rows, r')
    ensures r == r'
  {
    GenuineBelow(sha, seed, rows, if r.Loaded? then |rows| else r.record);
    GenuineBelow(sha, seed, rows, if r'.Loaded? then |rows| else r'.record);
  }

  /** The verdict is exactly the one its description fixes: both directions, all inputs. */
  lemma LoadRowsExact(sha: Sha3, seed: Digest, rows: seq<Row>, r: LoadResult)
    ensures LoadRows(sha, seed, rows) == r <==> Verdict(sha, seed, rows, r)
  {
    WalkVerdict(sha, seed, rows, 0);
    if Verdict(sha, seed, rows, r) {
      VerdictUnique(sha, seed, rows, r, LoadRows(sha, seed, rows));
    }
  }

  // ---------- the byte format ----------

  function EncodeRow(row: Row): (b: ByteString)
    requires 0 <= row.counter
    ensures |b| == 8 + |row.state|
  {
    BigEndian(row.counter, 8) + row.state
  }

  function DecodeRow(b: ByteString): Row
    requires |b| == RECORD_BYTES
  {
    Row(FromBigEndian(b[..8]), b[8..])
  }

  function Records(data: ByteString): (rows: seq<Row>)
    requires |data| % RECORD_BYTES == 0
    ensures |rows| == |data| / RECORD_BYTES
  {
    seq(|data| / RECORD_BYTES,
        i requires 0 <= i < |data| / RECORD_BYTES => DecodeRow(data[RECORD_BYTES * i..RECORD_BYTES * i + RECORD_BYTES]))
  }

  /** The log file that `n` issues from `seed` leave behind. */
  function LogBytes(sha: Sha3, seed: Digest, n: nat): (b: ByteString)
    ensures |b| == RECORD_BYTES * n
  {
    if n == 0 then []
    else LogBytes(sha, seed, n - 1) + EncodeRow(Row(n, ChainState(sha, seed, n)))
  }

  lemma RowRoundTrip(row: Row)
    requires 0 <= row.counter < U64 && |row.state| == 32
    ensures DecodeRow(EncodeRow(row)) == row
  {
    Pow256Values();
    BigEndianRoundTrip(row.counter, 8);
    assert EncodeRow(row)[..8] == BigEndian(row.counter, 8);
  }

  lemma RecordsAppend(data: ByteString, rec: ByteString)
    requires |data| % RECORD_BYTES == 0 && |rec| == RECORD_BYTES
    ensures Records(data + rec) == Records(data) + [DecodeRow(rec)]
  {
    var n := |data| / RECORD_BYTES;
    assert (data + rec)[RECORD_BYTES * n..RECORD_BYTES * n + RECORD_BYTES] == rec;
    forall i | 0 <= i < n
      ensures Records(data + rec)[i] == Records(data)[i]
    {
      assert (data + rec)[RECORD_BYTES * i..RECORD_BYTES * i + RECORD_BYTES]
          == data[RECORD_BYTES * i..RECORD_BYTES * i + RECORD_BYTES];
    }
  }

  lemma {:induction false} LogRecords(sha: Sha3, seed: Digest, n: nat)
    requires n < U64
    ensures Records(LogBytes(sha, seed, n)) == ChainRows(sha, seed, n)
  {
    if n > 0 {
      var row := Row(n, ChainState(sha, seed, n));
      LogRecords(sha, seed, n - 1);
      RowRoundTrip(row);
      RecordsAppend(LogBytes(sha, seed, n - 1), EncodeRow(row));
      ChainRowsExtend(sha, seed, n - 1);
    }
  }

  lemma EncodeDecodedRow(rec: ByteString)
    requires |rec| == RECORD_BYTES
    ensures EncodeRow(DecodeRow(rec)) == rec && DecodeRow(rec).counter < U64
  {
    Pow256Values();
    FromBigEndianRoundTrip(rec[..8]);
    assert rec == rec[..8] + rec[8..];
  }

  lemma {:induction false} RecordsDetermineBytes(sha: Sha3, seed: Digest, data: ByteString, n: nat)
    requires |data| == RECORD_BYTES * n && Records(data) == ChainRows(sha, seed, n)
    ensures n < U64 && data == LogBytes(sha, seed, n)
  {
    if n > 0 {
      var cut := RECORD_BYTES * (n - 1);
      var init, rec := data[..cut], data[cut..];
      assert data == init + rec;
      var row := DecodeRow(rec);
      assert Records(data) == Records(init) + [row] by { RecordsAppend(init, rec); }
      ChainRowsExtend(sha, seed, n - 1);
      assert row == Records(data)[n - 1] && Records(init) == Records(data)[..n - 1];
      RecordsDetermineBytes(sha, seed, init, n - 1);
      EncodeDecodedRow(rec);
    }
  }

  /** The whole load of a log file; `None` is a missing file. */
  function LoadFile(sha: Sha3, seed: Digest, file: Option<ByteString>): LoadResult {
    match file
    case None => Loaded(0, seed, 0)
    case Some(data) =>
      if |data| % RECORD_BYTES != 0 then Corrupt else LoadRows(sha, seed, Records(data))
  }

  /** A log loads if and only if it is, byte for byte, the log of some number of issues from the seed. */
  lemma LoadFileIff(sha: Sha3, seed: Digest, data: ByteString, n: nat, s: Digest)
    ensures LoadFile(sha, seed, Some(data)) == Loaded(n, s, n)
       <==> n < U64 && data == LogBytes(sha, seed, n) && s == ChainState(sha, seed, n)
  {
    if |data| % RECORD_BYTES == 0 {
      LoadRowsExact(sha, seed, Records(data), Loaded(n, s, n));
      if LoadFile(sha, seed, Some(data)) == Loaded(n, s, n) {
        RecordsDetermineBytes(sha, seed, data, |data| / RECORD_BYTES);
      } else if n < U64 && data == LogBytes(sha, seed, n) {
        LogRecords(sha, seed, n);
      }
    }
  }

  /** Every cut inside a log: aligned cuts reload the earlier position, all others are refused as corrupt. */
  lemma LogPrefixLoads(sha: Sha3, seed: Digest, n: nat, cut: nat)
    requires n < U64 && cut <= RECORD_BYTES * n
    ensures LoadFile(sha, seed, Some(LogBytes(sha, seed, n)[..cut]))
         == if cut % RECORD_BYTES != 0 then Corrupt
            else Loaded(cut / RECORD_BYTES, ChainState(sha, seed, cut / RECORD_BYTES), cut / RECORD_BYTES)
  {
    if cut % RECORD_BYTES == 0 {
      var k := cut / RECORD_BYTES;
      LogBytesPrefix(sha, seed, n, k);
      LoadFileIff(sha, seed, LogBytes(sha, seed, k), k, ChainState(sha, seed, k));
    }
  }

  lemma {:induction false} LogBytesPrefix(sha: Sha3, seed: Digest, n: nat, k: nat)
    requires k <= n
    ensures LogBytes(sha, seed, n)[..RECORD_BYTES * k] == LogBytes(sha, seed, k)
  {
    if k < n {
      LogBytesPrefix(sha, seed, n - 1, k);
      assert LogBytes(sha, seed, n)[..RECORD_BYTES * k] == LogBytes(sha, seed, n - 1)[..RECORD_BYTES * k];
    }
  }

  lemma LogPlusRecord(sha: Sha3, seed: Digest, n: nat, row: Row)
    requires n < U64 && 0 <= row.counter < U64 && |row.state| == 32
    ensures Records(LogBytes(sha, seed, n) + EncodeRow(row)) == ChainRows(sha, seed, n) + [row]
  {
    LogRecords(sha, seed, n);
    RowRoundTrip(row);
    RecordsAppend(LogBytes(sha, seed, n), EncodeRow(row));
  }

  /** The verdict on a genuine chain and one more record, whatever that record is. */
  lemma RowsPlusOne(sha: Sha3, seed: Digest, n: nat, row: Row)
    ensures LoadRows(sha, seed, ChainRows(sha, seed, n) + [row])
         == if row.counter != n + 1 then NonMonotonic(n)
            else if row.state != ChainState(sha, seed, n + 1) then Tampered(n)
            else Loaded(n + 1, ChainState(sha, seed, n + 1), n + 1)
  {
    var rows, next := ChainRows(sha, seed, n) + [row], ChainState(sha, seed, n + 1);
    assert rows[..n] == ChainRows(sha, seed, n) && rows[n] == row;
    ChainRowsExtend(sha, seed, n);
    hide LoadRows, ChainRows, ChainState;
    LoadRowsExact(sha, seed, rows,
                  if row.counter != n + 1 then NonMonotonic(n)
                  else if row.state != next then Tampered(n) else Loaded(n + 1, next, n + 1));
  }

  /**
   Appending one record to a good log keeps it good exactly when the record is the next one of the
   chain: a counter that ran ahead of the log (an issue that advanced but was never appended) breaks it.
   */
  lemma AppendKeepsLogIff(sha: Sha3, seed: Digest, n: nat, c: nat)
    requires n + 1 < U64 && 0 < c < U64
    ensures var r := LoadFile(sha, seed, Some(LogBytes(sha, seed, n) + EncodeRow(Row(c, ChainState(sha, seed, c)))));
      (r.Loaded? <==> c == n + 1) && (c != n + 1 ==> r == NonMonotonic(n))
  {
    var row := Row(c, ChainState(sha, seed, c));
    hide LoadRows, Records, ChainRows, LogBytes, ChainState, EncodeRow;
    LogPlusRecord(sha, seed, n, row);
    RowsPlusOne(sha, seed, n, row);
  }

  lemma RecordAt(buf: ByteString, i: nat)
    requires |buf| % RECORD_BYTES == 0 && i < |buf| / RECORD_BYTES
    ensures var off := i * RECORD_BYTES;
      Records(buf)[i] == Row(FromBigEndian(buf[off..off + 8]), buf[off + 8..off + RECORD_BYTES])
  {
    hide FromBigEndian;
    var off := i * RECORD_BYTES;
    var rec := buf[off..off + RECORD_BYTES];
    assert rec[..8] == buf[off..off + 8] && rec[8..] == buf[off + 8..off + RECORD_BYTES];
  }

  /** The record loop of the loader, over one in-memory copy of the file. */
  method VerifyAndLoadChainLog(sha: Sha3, file: Option<ByteString>, seed: Digest) returns (r: LoadResult)
    ensures r == LoadFile(sha, seed, file)
  {
    if file == None || file.value == [] {
      return Loaded(0, seed, 0);
    }
    var buf := file.value;
    if |buf| % RECORD_BYTES != 0 {
      return Corrupt;
    }
    var nRecords := |buf| / RECORD_BYTES;
    var prevState: Digest := seed;
    var expectedCtr := 1;
    ghost var rows := Records(buf);
    hide FromBigEndian, DeriveNext, LoadFile, Records;
    for i := 0 to nRecords
      invariant expectedCtr == i + 1
      invariant LoadFile(sha, seed, file) == Walk(sha, rows, prevState, i)
    {
      var off := i * RECORD_BYTES;
      var ctr := FromBigEndian(buf[off..off + 8]);
      var state := buf[off + 8..off + RECORD_BYTES];
      RecordAt(buf, i);
      if ctr != expectedCtr {
        return NonMonotonic(i);
      }
      var derived := DeriveNext(sha, prevState, ctr);
      if |derived| != |state| || derived != state {
        return Tampered(i);
      }
      prevState := state;
      expectedCtr := expectedCtr + 1;
    }
    return Loaded(nRecords, prevState, nRecords);
  }

  /** The file backend: one log per key id. */
  class FileChainStore<KeyId(==)> {
    const sha: Sha3
    var files: map<KeyId, ByteString>

    constructor(sha: Sha3)
      ensures this.sha == sha && files == map[]
    {
      this.sha := sha;
      files := map[];
    }

    function Read(keyId: KeyId): Option<ByteString>
      reads this
    {
      if keyId in files then Some(files[keyId]) else None
    }

    method Load(keyId: KeyId, seed: Digest) returns (r: LoadResult)
      ensures r == LoadFile(sha, seed, if keyId in files then Some(files[keyId]) else None)
    {
      r := VerifyAndLoadChainLog(sha, Read(keyId), seed);
    }

    /** Fills a 40-byte record and extends the log; no other key's log changes. */
    method Append(keyId: KeyId, counter: nat, stateHash: Digest)
      requires counter < U64
      modifies this
      ensures files == old(files)[keyId := (if keyId in old(files) then old(files)[keyId] else [])
                                           + (BigEndian(counter, 8) + stateHash)]
    {
      var rec := BigEndian(counter, 8) + stateHash;
      var before := if keyId in files then files[keyId] else [];
      files := files[keyId := before + rec];
    }
  }

  /** The log after one record more; opening for append creates a missing file. */
  function Extended(file: Option<ByteString>, row: Row): ByteString
    requires 0 <= row.counter
  {
    Stored(file) + EncodeRow(row)
  }

  /** An issue appended to a log that reloads to the position before it reloads to the position after it. */
  lemma AppendThenLoad(sha: Sha3, seed: Digest, file: Option<ByteString>, p: Position)
    requires p.counter + 1 < U64 && LoadFile(sha, seed, file) == Loaded(p.counter, p.state, p.counter)
    ensures var q := Advanced(sha, p);
      LoadFile(sha, seed, Some(Extended(file, Row(q.counter, q.state)))) == Loaded(q.counter, q.state, q.counter)
  {
    var data := Stored(file);
    var q := Advanced(sha, p);
    LoadFileIff(sha, seed, data, p.counter, p.state);
    LoadFileIff(sha, seed, Extended(file, Row(q.counter, q.state)), q.counter, q.state);
  }

  /** A good log and one more record of the chain: loadable exactly when the record is the next one. */
  lemma ExtendedLoads(sha: Sha3, seed: Digest, file: Option<ByteString>, n: nat, c: nat)
    requires n + 1 < U64 && 0 < c < U64 && LoadFile(sha, seed, file) == Loaded(n, ChainState(sha, seed, n), n)
    ensures LoadFile(sha, seed, Some(Extended(file, Row(c, ChainState(sha, seed, c)))))
         == if c == n + 1 then Loaded(n + 1, ChainState(sha, seed, n + 1), n + 1) else NonMonotonic(n)
  {
    GoodBytes(sha, seed, file, n);
    var row := Row(c, ChainState(sha, seed, c));
    hide LoadRows, Records, ChainRows, LogBytes, ChainState, EncodeRow;
    LogPlusRecord(sha, seed, n, row);
    RowsPlusOne(sha, seed, n, row);
  }

  function Stored(file: Option<ByteString>): ByteString {
    if file.Some? then file.value else []
  }

  lemma GoodBytes(sha: Sha3, seed: Digest, file: Option<ByteString>, n: nat)
    requires LoadFile(sha, seed, file) == Loaded(n, ChainState(sha, seed, n), n)
    ensures n < U64 && Stored(file) == LogBytes(sha, seed, n)
  {
    hide LogBytes, ChainState, LoadRows;
    if file.Some? {
      LoadFileIff(sha, seed, file.value, n, ChainState(sha, seed, n));
    } else {
      NoBytes(sha, seed);
    }
  }

  lemma NoBytes(sha: Sha3, seed: Digest)
    ensures LogBytes(sha, seed, 0) == []
  {}

  /** A good log and the first `cut` bytes of its next record: loadable exactly when that is none or all of it. */
  lemma TornLoads(sha: Sha3, seed: Digest, file: Option<ByteString>, n: nat, cut: nat)
    requires n + 1 < U64 && cut <= RECORD_BYTES && LoadFile(sha, seed, file) == Loaded(n, ChainState(sha, seed, n), n)
    ensures |EncodeRow(Row(n + 1, ChainState(sha, seed, n + 1)))| == RECORD_BYTES
    ensures LoadFile(sha, seed, Some(Stored(file) + EncodeRow(Row(n + 1, ChainState(sha, seed, n + 1)))[..cut]))
         == if cut == 0 then Loaded(n, ChainState(sha, seed, n), n)
            else if cut == RECORD_BYTES then Loaded(n + 1, ChainState(sha, seed, n + 1), n + 1)
            else Corrupt
  {
    hide LoadFile, LogBytes, ChainState, EncodeRow, Stored;
    var rec := EncodeRow(Row(n + 1, ChainState(sha, seed, n + 1)));
    GoodBytes(sha, seed, file, n);
    OneMore(sha, seed, n);
    CutAfter(LogBytes(sha, seed, n), rec, cut);
    LogPrefixLoads(sha, seed, n + 1, RECORD_BYTES * n + cut);
    CutQuotient(n, cut);
  }

  lemma OneMore(sha: Sha3, seed: Digest, n: nat)
    ensures LogBytes(sha, seed, n + 1) == LogBytes(sha, seed, n) + EncodeRow(Row(n + 1, ChainState(sha, seed, n + 1)))
  {}

  lemma CutQuotient(n: nat, cut: nat)
    requires cut <= RECORD_BYTES
    ensures (RECORD_BYTES * n + cut) % RECORD_BYTES == cut % RECORD_BYTES
    ensures (RECORD_BYTES * n + cut) / RECORD_BYTES == if cut == RECORD_BYTES then n + 1 else n
  {}

  lemma CutAfter(a: ByteString, b: ByteString, cut: nat)
    requires cut <= |b|
    ensures (a + b)[..|a| + cut] == a + b[..cut]
  {}

  /** What stands where in a log: record `i` is 40 bytes, its counter as eight of them, then the state after that issue. */
  lemma LogLayout(sha: Sha3, seed: Digest, n: nat, i: nat)
    requires i < n < U64
    ensures var log, at := LogBytes(sha, seed, n), 40 * i;
      && |log| == 40 * n
      && FromBigEndian(log[at..at + 8]) == i + 1 && log[at + 8..at + 40] == ChainState(sha, seed, i + 1)
  {
    hide FromBigEndian, ChainState;
    LogRecords(sha, seed, n);
    RecordAt(LogBytes(sha, seed, n), i);
    assert ChainRows(sha, seed, n)[i] == Row(i + 1, ChainState(sha, seed, i + 1));
  }
}
