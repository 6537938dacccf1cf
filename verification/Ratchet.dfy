/**
 The SHA3 mutation ratchet shared by the Rust core and by both log backends.
 SHA3-256 stays uninterpreted: every definition takes it as the parameter `sha`.
 */
module Ratchet {
  import opened Bytes

  type Digest = d: ByteString | |d| == 32 witness seq(32, _ => 0)

  type Sha3 = ByteString -> Digest

  /** The state after the advance that makes the counter `postCounter`. */
  function DeriveNext(sha: Sha3, prev: Digest, postCounter: nat): Digest
    requires postCounter > 0
  {
    sha(prev + BigEndian(postCounter - 1, 8))
  }

  /** The state of the chain seeded with `seed` after `n` advances. */
  function ChainState(sha: Sha3, seed: Digest, n: nat): Digest {
    if n == 0 then seed else DeriveNext(sha, ChainState(sha, seed, n - 1), n)
  }

  /** The in-memory chain: the position it has reached. */
  datatype Position = Position(counter: nat, state: Digest)

  predicate OnChain(sha: Sha3, seed: Digest, p: Position) {
    p.state == ChainState(sha, seed, p.counter)
  }

  function Advanced(sha: Sha3, p: Position): Position {
    Position(p.counter + 1, DeriveNext(sha, p.state, p.counter + 1))
  }

  /** One `advance` in u64 arithmetic: after the last counter it starts again at 0, as a release build does. */
  function Stepped(sha: Sha3, p: Position): (q: Position)
    requires p.counter < U64
    ensures q.counter < U64
    ensures p.counter < U64 - 1 ==> q == Advanced(sha, p)
  {
    Position((p.counter + 1) % U64, sha(p.state + BigEndian(p.counter, 8)))
  }

  /**
   What is hashed: the one string of 40 bytes that begins with the old state and ends with the counter before the step,
   most significant byte first. The Rust core and both loaders hash the same bytes.
   */
  lemma NextStateIsHash(sha: Sha3, p: Position, input: ByteString)
    requires p.counter < U64 && |input| == 40 && input[..32] == p.state && FromBigEndian(input[32..]) == p.counter
    ensures DeriveNext(sha, p.state, p.counter + 1) == sha(input)
    ensures Advanced(sha, p) == Position(p.counter + 1, sha(input))
    ensures Stepped(sha, p) == Position(if p.counter == U64 - 1 then 0 else p.counter + 1, sha(input))
  {
    FromBigEndianRoundTrip(input[32..]);
    hide BigEndian, FromBigEndian;
    assert input == p.state + input[32..];
  }

  lemma AdvancedOnChain(sha: Sha3, seed: Digest, p: Position)
    requires OnChain(sha, seed, p)
    ensures OnChain(sha, seed, Advanced(sha, p))
  {
  }

  class MutationChain {
    const sha: Sha3
    var state: Digest
    var counter: Word64

    constructor FromState(sha: Sha3, state: Digest, counter: Word64)
      ensures this.sha == sha && this.state == state && this.counter == counter
    {
      this.sha := sha;
      this.state := state;
      this.counter := counter;
    }

    ghost function At(): Position
      reads this
    {
      Position(counter, state)
    }

    /** One ratchet step; it stays on the chain of every seed until the counter wraps. */
    method Advance() returns (tag: Digest)
      modifies this
      ensures At() == Stepped(sha, old(At())) && tag == state
      ensures old(counter) < U64 - 1 ==> forall seed :: old(OnChain(sha, seed, At())) ==> OnChain(sha, seed, At())
    {
      var input := state + BigEndian(counter, 8);
      state := sha(input);
      counter := (counter + 1) % U64;
      tag := state;
    }
  }
}
