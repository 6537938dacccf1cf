/** IPv4 text: four numbers between dots. */
module Ipv4 {
  import opened Bytes
  import opened Parts
  import opened Wrappers

  /** One part. `num` is the host's Number(), absent when it yields no integer. */
  function Octet(num: string -> Option<int>, part: string): Option<Byte> {
    if num(part).None? || num(part).value < 0 || num(part).value > 255 then None else Some(num(part).value)
  }

  function V4Bytes(num: string -> Option<int>, s: string): (r: Option<ByteString>)
    ensures r.Some? ==> |r.value| == 4
  {
    var p := Split(s, '.');
    if |p| != 4 || exists i | 0 <= i < 4 :: Octet(num, p[i]).None? then None
    else Some([Octet(num, p[0]).value, Octet(num, p[1]).value, Octet(num, p[2]).value, Octet(num, p[3]).value])
  }

  method ParseV4(num: string -> Option<int>, s: string) returns (r: Option<ByteString>)
    ensures r == V4Bytes(num, s)
  {
    var parts := Split(s, '.');
    if |parts| != 4 { return None; }
    var bytes := new Byte[4];
    for i := 0 to 4
      invariant forall j | 0 <= j < i :: Octet(num, parts[j]) == Some(bytes[j])
    {
      var n := num(parts[i]);
      if n.None? || n.value < 0 || n.value > 255 {
        assert Octet(num, parts[i]).None?;
        return None;
      }
      bytes[i] := n.value;
    }
    assert bytes[..] == [bytes[0], bytes[1], bytes[2], bytes[3]];
    r := Some(bytes[..]);
  }

  /** Four dot-free parts denote their four numbers, and nothing else is an address. */
  lemma DottedDenotes(num: string -> Option<int>, s: string, b: ByteString)
    ensures V4Bytes(num, s) == Some(b) <==>
      exists p: seq<string> ::
        |p| == 4 == |b| && Free(p, '.') && s == Join(p, '.') && forall i | 0 <= i < 4 :: num(p[i]) == Some(b[i] as int)
  {
    JoinSplit(s, '.');
    if V4Bytes(num, s) == Some(b) {
      var p := Split(s, '.');
      assert forall i | 0 <= i < 4 :: Octet(num, p[i]).Some?;
      assert forall i | 0 <= i < 4 :: num(p[i]) == Some(b[i] as int);
    }
    forall p: seq<string> |
      |p| == 4 == |b| && Free(p, '.') && s == Join(p, '.') && forall i | 0 <= i < 4 :: num(p[i]) == Some(b[i] as int)
      ensures V4Bytes(num, s) == Some(b)
    {
      SplitJoin(p, '.');
      assert b == [b[0], b[1], b[2], b[3]];
      assert forall i | 0 <= i < 4 :: Octet(num, p[i]) == Some(b[i]);
    }
  }
}
