/**
 An issue request as the route passes it on: claims, and a lifetime that nothing has looked at before the chain advances.
 Both are turned into bytes after the advance, and either can end the request there.
 */
module IssueRequest {
  import opened IssueClaims
  import opened Wrappers

  /** A JSON value. Of an object only the names of its own members matter here, of a number its text. */
  datatype Json =
    | Null
    | Bool(value: bool)
    | Number(text: string)
    | Text(chars: string)
    | Array(items: seq<Json>)
    | Object(names: set<string>)

  // ---------- a number from a JSON value ----------

  /**
   ECMAScript's ToString. An object's own member called "toString" is data, which cannot be called, and its inherited
   valueOf gives the object back, so the conversion throws. Arrays are joined, and the host ends the conversion by throwing
   when they are nested more than `room` deep.
   */
  function TextOf(j: Json, room: nat): Option<string>
    decreases j, if j.Array? then |j.items| + 1 else 0
  {
    match j
    case Null => Some("null")
    case Bool(b) => Some(if b then "true" else "false")
    case Number(t) => Some(t)
    case Text(t) => Some(t)
    case Object(names) => if "toString" in names then None else Some("[object Object]")
    case Array(items) => if room == 0 then None else Joined(j, |items|, room - 1)
  }

  /** The first `n` elements of an array, joined by commas; null joins as nothing. */
  function Joined(j: Json, n: nat, room: nat): Option<string>
    requires j.Array? && n <= |j.items|
    decreases j, n
  {
    if n == 0 then Some("")
    else
      var init, last := Joined(j, n - 1, room), if j.items[n - 1].Null? then Some("") else TextOf(j.items[n - 1], room);
      if init.None? || last.None? then None else Some(init.value + (if n == 1 then "" else ",") + last.value)
  }

  /** ECMAScript's ToNumber comes to an end: only objects and arrays go through their text. */
  predicate Converts(j: Json, room: nat) {
    if j.Array? || j.Object? then TextOf(j, room).Some? else true
  }

  /** What a caller can check: no object with a member called "toString", alone or among the elements of arrays. */
  predicate Plain(j: Json) {
    match j
    case Object(names) => "toString" !in names
    case Array(items) => forall i | 0 <= i < |items| :: Plain(items[i])
    case _ => true
  }

  predicate Shallow(j: Json, room: nat) {
    match j
    case Array(items) => room > 0 && forall i | 0 <= i < |items| :: Shallow(items[i], room - 1)
    case _ => true
  }

  lemma {:induction false} TextIff(j: Json, room: nat)
    ensures TextOf(j, room).Some? <==> Plain(j) && Shallow(j, room)
    decreases j, if j.Array? then |j.items| + 1 else 0
  {
    if j.Array? && room > 0 { JoinedIff(j, |j.items|, room - 1); }
  }

  lemma {:induction false} JoinedIff(j: Json, n: nat, room: nat)
    requires j.Array? && n <= |j.items|
    ensures Joined(j, n, room).Some? <==> forall i | 0 <= i < n :: Plain(j.items[i]) && Shallow(j.items[i], room)
    decreases j, n
  {
    if n > 0 {
      JoinedIff(j, n - 1, room);
      TextIff(j.items[n - 1], room);
    }
  }

  /** A value has a number if and only if it is plain and not nested too deep. */
  lemma ConvertsIff(j: Json, room: nat)
    ensures Converts(j, room) <==> Plain(j) && Shallow(j, room)
  {
    TextIff(j, room);
  }

  // ---------- the request ----------

  datatype Request = Request(claims: seq<Entry>, ttl: Json)

  /** The steps between the advance and the fence check come to an end: the claims encode, and the header takes the lifetime. */
  predicate Builds(r: Request, room: nat) {
    EncodeClaims(r.claims).Ok? && Converts(r.ttl, room)
  }

  /** What a caller can check before asking. */
  predicate Sound(r: Request, room: nat) {
    WithinCaps(r.claims) && Plain(r.ttl) && Shallow(r.ttl, room)
  }

  /** A request makes a token if and only if its claims are within the caps and its lifetime has a number. */
  lemma BuildsIffSound(r: Request, room: nat)
    ensures Builds(r, room) <==> Sound(r, room)
  {
    EncodesIffWithinCaps(r.claims);
    ConvertsIff(r.ttl, room);
  }

  /** No claims and the default lifetime of an hour. */
  function OrdinaryRequest(): Request {
    Request([], Number("3600"))
  }

  /** Sixteen small claims: the structural check lets up to 64 through. */
  function SixteenClaimsRequest(): Request {
    Request(SixteenClaims(), Number("3600"))
  }

  /** The body {"claims":{},"ttl":{"toString":0}}. */
  function OddTtlRequest(): Request {
    Request([], Object({"toString"}))
  }

  lemma WhichAreSound(room: nat)
    ensures Sound(OrdinaryRequest(), room) && !Sound(SixteenClaimsRequest(), room) && !Sound(OddTtlRequest(), room)
  {
    SixteenRefused();
  }
}
