/** ErrorResponse bodies: tagged, zero-terminated fields, closed by a zero tag or by the end of the message. */
module PgError {
  import opened Bytes
  import opened Wrappers

  datatype Field = Field(tag: Byte, value: ByteString)

  datatype ServerError = ServerError(
    severity: ByteString, code: ByteString, message: ByteString, detail: ByteString, hint: ByteString)

  /** `p.indexOf(0, off)`. */
  function IndexOfZero(p: ByteString, off: nat): (i: Option<nat>)
    ensures i.Some? ==> off <= i.value < |p| && p[i.value] == 0 && forall j | off <= j < i.value :: p[j] != 0
    ensures i.None? ==> forall j | off <= j < |p| :: p[j] != 0
    decreases |p| - off
  {
    if off >= |p| then None else if p[off] == 0 then Some(off) else IndexOfZero(p, off + 1)
  }

  // ---------- the loop as it runs ----------

  datatype Cursor = Ended | At(off: nat)

  /** One turn of the loop. A value without its zero byte gives index -1, and the cursor goes back to the start. */
  function Turn(p: ByteString, at: Cursor): Cursor {
    if at.Ended? || at.off >= |p| || p[at.off] == 0 then Ended
    else
      var end := IndexOfZero(p, at.off + 1);
      if end.None? then At(0) else At(end.value + 1)
  }

  function Walk(p: ByteString, turns: nat): Cursor {
    if turns == 0 then At(0) else Turn(p, Walk(p, turns - 1))
  }

  ghost predicate Ends(p: ByteString) {
    exists turns :: Walk(p, turns) == Ended
  }

  // ---------- when it ends ----------

  /** From `off` on, every field has its zero byte. */
  predicate Terminated(p: ByteString, off: nat)
    decreases |p| - off
  {
    off >= |p| || p[off] == 0 || (IndexOfZero(p, off + 1).Some? && Terminated(p, IndexOfZero(p, off + 1).value + 1))
  }

  lemma {:induction false} ReachesEnd(p: ByteString, off: nat, turns: nat) returns (n: nat)
    requires Terminated(p, off) && Walk(p, turns) == At(off)
    ensures Walk(p, n) == Ended
    decreases |p| - off
  {
    hide IndexOfZero;
    if off >= |p| || p[off] == 0 {
      n := turns + 1;
    } else {
      n := ReachesEnd(p, IndexOfZero(p, off + 1).value + 1, turns + 1);
    }
  }

  lemma {:induction false} NeverEnds(p: ByteString, turns: nat)
    requires !Terminated(p, 0)
    ensures Walk(p, turns).At? && !Terminated(p, Walk(p, turns).off)
  {
    hide IndexOfZero;
    if turns > 0 { NeverEnds(p, turns - 1); }
  }

  lemma EndsIffTerminated(p: ByteString)
    ensures Ends(p) <==> Terminated(p, 0)
  {
    if Terminated(p, 0) {
      var n := ReachesEnd(p, 0, 0);
    } else {
      forall turns ensures Walk(p, turns) != Ended {
        NeverEnds(p, turns);
      }
    }
  }

  // ---------- what ends is what the protocol sends ----------

  /** Non-zero tags, values without a zero byte. */
  predicate Plain(fs: seq<Field>) {
    forall i | 0 <= i < |fs| :: fs[i].tag != 0 && 0 !in fs[i].value
  }

  function FieldBytes(f: Field): ByteString {
    [f.tag] + f.value + [0]
  }

  function FieldsBytes(fs: seq<Field>): ByteString {
    if fs == [] then [] else FieldBytes(fs[0]) + FieldsBytes(fs[1..])
  }

  predicate Closed(tail: ByteString) {
    tail == [] || tail[0] == 0
  }

  /** Fields one after the other, up to the end of the payload or to a zero tag. */
  ghost predicate WellFormed(p: ByteString) {
    exists fs: seq<Field>, tail :: Plain(fs) && Closed(tail) && p == FieldsBytes(fs) + tail
  }

  function Fields(p: ByteString, off: nat): seq<Field>
    requires Terminated(p, off)
    decreases |p| - off
  {
    if off >= |p| || p[off] == 0 then []
    else
      var end := IndexOfZero(p, off + 1).value;
      [Field(p[off], p[off + 1..end])] + Fields(p, end + 1)
  }

  lemma NoField(p: ByteString, off: nat)
    requires off >= |p| || p[off] == 0
    ensures Terminated(p, off) && Fields(p, off) == []
  {
  }

  lemma NextField(p: ByteString, off: nat, end: nat)
    requires off < |p| && p[off] != 0 && IndexOfZero(p, off + 1) == Some(end)
    ensures off < end < |p| && p[end] == 0 && 0 !in p[off + 1..end]
    ensures Terminated(p, off) <==> Terminated(p, end + 1)
    ensures Terminated(p, off) ==> Fields(p, off) == [Field(p[off], p[off + 1..end])] + Fields(p, end + 1)
  {
    hide IndexOfZero;
  }

  lemma FieldSplit(p: ByteString, off: nat, end: nat)
    requires off < end < |p| && p[end] == 0
    ensures p[off..] == FieldBytes(Field(p[off], p[off + 1..end])) + p[end + 1..]
  {
    assert p[off..] == [p[off]] + p[off + 1..end] + [p[end]] + p[end + 1..];
  }

  lemma {:induction false} FieldsSplit(p: ByteString, off: nat) returns (tail: ByteString)
    requires Terminated(p, off) && off <= |p|
    ensures Plain(Fields(p, off)) && Closed(tail) && p[off..] == FieldsBytes(Fields(p, off)) + tail
    decreases |p| - off
  {
    hide FieldBytes, IndexOfZero, Fields;
    if off >= |p| || p[off] == 0 {
      NoField(p, off);
      tail := p[off..];
    } else {
      var end := IndexOfZero(p, off + 1).value;
      NextField(p, off, end);
      FieldSplit(p, off, end);
      tail := FieldsSplit(p, end + 1);
      FieldsCons(Field(p[off], p[off + 1..end]), Fields(p, end + 1), tail);
    }
  }

  lemma FieldsCons(f: Field, fs: seq<Field>, tail: ByteString)
    ensures FieldsBytes([f] + fs) + tail == FieldBytes(f) + (FieldsBytes(fs) + tail)
  {
    hide FieldBytes;
    assert ([f] + fs)[1..] == fs;
  }

  lemma ZeroAt(p: ByteString, off: nat, f: Field, more: ByteString)
    requires off <= |p| && p[off..] == FieldBytes(f) + more && 0 !in f.value
    ensures off + 1 + |f.value| < |p| && IndexOfZero(p, off + 1) == Some(off + 1 + |f.value|)
    ensures p[off] == f.tag && p[off + 1..off + 1 + |f.value|] == f.value && p[off + 2 + |f.value|..] == more
  {
    var n := |f.value|;
    var q := p[off..];
    assert q[0] == f.tag && q[1..n + 1] == f.value && q[n + 1] == 0 && q[n + 2..] == more;
    assert p[off + n + 1] == q[n + 1];
    assert p[off + 1..off + 1 + n] == q[1..n + 1] && p[off + n + 2..] == q[n + 2..];
    forall j | off + 1 <= j < off + 1 + n ensures p[j] != 0 {
      assert p[j] == q[j - off] == f.value[j - off - 1];
    }
  }

  /** What fields were put in is what the walk reads out. */
  lemma {:induction false} FieldsReadBack(p: ByteString, off: nat, fs: seq<Field>, tail: ByteString)
    requires off <= |p| && p[off..] == FieldsBytes(fs) + tail && Plain(fs) && Closed(tail)
    ensures Terminated(p, off) && Fields(p, off) == fs
    decreases |fs|
  {
    hide FieldBytes, IndexOfZero, Fields, Terminated;
    if fs == [] {
      assert p[off..] == tail;
      if off < |p| { assert tail[0] == p[off]; }
      NoField(p, off);
    } else {
      var f, next := fs[0], off + 2 + |fs[0].value|;
      FieldsCons(f, fs[1..], tail);
      assert fs == [f] + fs[1..];
      ZeroAt(p, off, f, FieldsBytes(fs[1..]) + tail);
      FieldsReadBack(p, next, fs[1..], tail);
      NextField(p, off, next - 1);
    }
  }

  /**
   For every payload the field walk ends if and only if the payload is fields, each a non-zero tag and a zero-terminated
   value, up to its end or to a zero tag. On any other payload it starts over for ever.
   */
  lemma DecodeEndsIff(p: ByteString)
    ensures Ends(p) <==> WellFormed(p)
    ensures Terminated(p, 0) <==> WellFormed(p)
  {
    EndsIffTerminated(p);
    assert p[0..] == p;
    if Terminated(p, 0) {
      var tail := FieldsSplit(p, 0);
    }
    if WellFormed(p) {
      var fs: seq<Field>, tail :| Plain(fs) && Closed(tail) && p == FieldsBytes(fs) + tail;
      FieldsReadBack(p, 0, fs, tail);
    }
  }

  /** One tag and nothing after it. */
  lemma LoneTagHangs(p: ByteString)
    requires p == [0x53]
    ensures !Ends(p)
  {
    EndsIffTerminated(p);
  }

  // ---------- the error itself ----------

  /** The last value with this tag, empty if there is none. */
  function LastValue(fs: seq<Field>, tag: Byte): ByteString {
    if fs == [] then [] else if fs[|fs| - 1].tag == tag then fs[|fs| - 1].value else LastValue(fs[..|fs| - 1], tag)
  }

  function ErrorOf(fs: seq<Field>): ServerError {
    ServerError(LastValue(fs, 0x53), LastValue(fs, 0x43), LastValue(fs, 0x4d), LastValue(fs, 0x44), LastValue(fs, 0x48))
  }

  lemma ErrorSnoc(fs: seq<Field>, f: Field)
    ensures var e := ErrorOf(fs);
      ErrorOf(fs + [f]) == if f.tag == 0x53 then e.(severity := f.value) else if f.tag == 0x43 then e.(code := f.value)
                           else if f.tag == 0x4d then e.(message := f.value) else if f.tag == 0x44 then e.(detail := f.value)
                           else if f.tag == 0x48 then e.(hint := f.value) else e
  {
    assert (fs + [f])[..|fs|] == fs;
  }

  /** The field walk, on the payloads on which it ends. */
  method DecodeError(p: ByteString) returns (out: ServerError)
    requires Terminated(p, 0)
    ensures out == ErrorOf(Fields(p, 0))
  {
    hide IndexOfZero, Fields, Terminated, ErrorOf;
    out := ServerError([], [], [], [], []);
    var off := 0;
    ghost var read: seq<Field> := [];
    NothingTold(read);
    while off < |p|
      invariant Terminated(p, off) && Fields(p, 0) == read + Fields(p, off) && out == ErrorOf(read)
      decreases |p| - off
    {
      var tag := p[off];
      if tag == 0 { break; }
      FieldHasEnd(p, off);
      var end := IndexOfZero(p, off + 1).value;
      var val := p[off + 1..end];
      NextField(p, off, end);
      ErrorSnoc(read, Field(tag, val));
      assert read + Fields(p, off) == read + [Field(tag, val)] + Fields(p, end + 1);
      read := read + [Field(tag, val)];
      if tag == 0x53 { out := out.(severity := val); }
      else if tag == 0x43 { out := out.(code := val); }
      else if tag == 0x4d { out := out.(message := val); }
      else if tag == 0x44 { out := out.(detail := val); }
      else if tag == 0x48 { out := out.(hint := val); }
      off := end + 1;
    }
    NoField(p, off);
    assert read + [] == read;
  }

  lemma NothingTold(fs: seq<Field>)
    requires fs == []
    ensures ErrorOf(fs) == ServerError([], [], [], [], [])
  {
  }

  lemma FieldHasEnd(p: ByteString, off: nat)
    requires off < |p| && p[off] != 0 && Terminated(p, off)
    ensures IndexOfZero(p, off + 1).Some?
  {
  }
}
