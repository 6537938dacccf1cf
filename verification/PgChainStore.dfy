/** The Postgres chain store: `PRIMARY KEY (key_id, counter)` is all that several writers share. */
module PgChainStore {
  import opened Ratchet
  import opened ChainLog

  datatype AppendResult = Appended | Conflict

  /** `counter` is taken: the INSERT fails with 23505. */
  predicate Taken(rows: seq<Row>, counter: int) {
    exists i :: 0 <= i < |rows| && rows[i].counter == counter
  }

  /** A key's rows are kept in counter order, which is the order the SELECT returns them in. */
  function InsertOrdered(rows: seq<Row>, row: Row): (r: seq<Row>)
    ensures |r| == |rows| + 1
  {
    if rows == [] || rows[|rows| - 1].counter < row.counter then rows + [row]
    else InsertOrdered(rows[..|rows| - 1], row) + [rows[|rows| - 1]]
  }

  function InsertRow(rows: seq<Row>, row: Row): (AppendResult, seq<Row>) {
    if Taken(rows, row.counter) then (Conflict, rows) else (Appended, InsertOrdered(rows, row))
  }

  lemma TakenOnChain(sha: Sha3, seed: Digest, m: nat, counter: int)
    ensures Taken(ChainRows(sha, seed, m), counter) <==> 1 <= counter <= m
  {
    var rows := ChainRows(sha, seed, m);
    if 1 <= counter <= m {
      assert rows[counter - 1].counter == counter;
    }
  }

  lemma {:induction false} InsertKeepsMembers(rows: seq<Row>, row: Row)
    ensures multiset(InsertOrdered(rows, row)) == multiset(rows) + multiset{row}
  {
    if !(rows == [] || rows[|rows| - 1].counter < row.counter) {
      InsertKeepsMembers(rows[..|rows| - 1], row);
      assert rows == rows[..|rows| - 1] + [rows[|rows| - 1]];
    }
  }

  /** An INSERT of a free counter keeps the table a ratchet chain exactly when it is the next link. */
  lemma InsertKeepsChainIff(sha: Sha3, seed: Digest, m: nat, row: Row)
    requires row.counter >= 1 && !Taken(ChainRows(sha, seed, m), row.counter)
    ensures InsertRow(ChainRows(sha, seed, m), row).1 == ChainRows(sha, seed, m + 1)
       <==> row == Row(m + 1, ChainState(sha, seed, m + 1))
    ensures row.counter != m + 1 ==>
      LoadRows(sha, seed, InsertRow(ChainRows(sha, seed, m), row).1) == NonMonotonic(m)
  {
    TakenOnChain(sha, seed, m, row.counter);
    ChainRowsExtend(sha, seed, m);
    var after := ChainRows(sha, seed, m) + [row];
    assert InsertRow(ChainRows(sha, seed, m), row).1 == after;
    assert after[m] == row;
    if row.counter != m + 1 {
      assert after[..m] == ChainRows(sha, seed, m);
      LoadRowsExact(sha, seed, after, NonMonotonic(m));
    }
  }

  /** The shared table, as one writer's store object sees it. */
  class ChainTable<KeyId(==)> {
    const sha: Sha3
    var table: map<KeyId, seq<Row>>

    constructor(sha: Sha3)
      ensures this.sha == sha && table == map[]
    {
      this.sha := sha;
      table := map[];
    }

    function Rows(keyId: KeyId): seq<Row>
      reads this
    {
      if keyId in table then table[keyId] else []
    }

    method Load(keyId: KeyId, seed: Digest) returns (r: LoadResult)
      ensures r == LoadRows(sha, seed, if keyId in table then table[keyId] else [])
    {
      var rows := Rows(keyId);
      var prevState: Digest := seed;
      var expected := 1;
      var lastState: Digest := prevState;
      for i := 0 to |rows|
        invariant expected == i + 1 && lastState == prevState
        invariant LoadRows(sha, seed, rows) == Walk(sha, rows, prevState, i)
      {
        var ctr, state := rows[i].counter, rows[i].state;
        if ctr != expected {
          return NonMonotonic(i);
        }
        var derived := DeriveNext(sha, prevState, ctr);
        if |derived| != |state| || derived != state {
          return Tampered(i);
        }
        prevState := state;
        lastState := state;
        expected := expected + 1;
      }
      return Loaded(|rows|, lastState, |rows|);
    }

    method Append(keyId: KeyId, counter: nat, stateHash: Digest) returns (r: AppendResult)
      modifies this
      ensures var rows := if keyId in old(table) then old(table)[keyId] else [];
        && r == InsertRow(rows, Row(counter, stateHash)).0
        && table == if r == Conflict then old(table) else old(table)[keyId := InsertRow(rows, Row(counter, stateHash)).1]
    {
      var rows := Rows(keyId);
      if exists i :: 0 <= i < |rows| && rows[i].counter == counter {
        return Conflict;
      }
      table := table[keyId := InsertOrdered(rows, Row(counter, stateHash))];
      return Appended;
    }
  }
}
