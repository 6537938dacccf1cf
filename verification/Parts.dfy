/** Cutting a text at a separator and putting it together again. */
module Parts {

  /** The pieces between the separators; always at least one. */
  function Split(s: string, sep: char): (parts: seq<string>)
    ensures |parts| >= 1
  {
    if s == [] then [[]]
    else
      var parts := Split(s[1..], sep);
      if s[0] == sep then [[]] + parts else [[s[0]] + parts[0]] + parts[1..]
  }

  function Join(parts: seq<string>, sep: char): string {
    if parts == [] then [] else if |parts| == 1 then parts[0] else parts[0] + [sep] + Join(parts[1..], sep)
  }

  predicate Free(parts: seq<string>, sep: char) {
    forall i | 0 <= i < |parts| :: sep !in parts[i]
  }

  lemma {:induction false} SplitPlain(s: string, rest: string, sep: char)
    requires sep !in s
    ensures Split(s + [sep] + rest, sep) == [s] + Split(rest, sep)
    ensures Split(s, sep) == [s]
  {
    if s == [] {
      assert s + [sep] + rest == [sep] + rest && ([sep] + rest)[1..] == rest;
    } else {
      assert (s + [sep] + rest)[1..] == s[1..] + [sep] + rest;
      SplitPlain(s[1..], rest, sep);
      assert [s[0]] + s[1..] == s;
    }
  }

  /** Splitting undoes joining. */
  lemma {:induction false} SplitJoin(parts: seq<string>, sep: char)
    requires parts != [] && Free(parts, sep)
    ensures Split(Join(parts, sep), sep) == parts
  {
    if |parts| == 1 {
      SplitPlain(parts[0], [], sep);
      assert parts == [parts[0]];
    } else {
      SplitJoin(parts[1..], sep);
      SplitPlain(parts[0], Join(parts[1..], sep), sep);
      assert parts == [parts[0]] + parts[1..];
    }
  }

  /** Joining undoes splitting. */
  lemma {:induction false} JoinSplit(s: string, sep: char)
    ensures Join(Split(s, sep), sep) == s && Free(Split(s, sep), sep)
  {
    if s != [] {
      var more := Split(s[1..], sep);
      JoinSplit(s[1..], sep);
      assert s == [s[0]] + s[1..];
      if s[0] == sep {
        assert Split(s, sep)[1..] == more;
      } else {
        assert Split(s, sep)[1..] == more[1..];
        if |more| > 1 {
          assert [s[0]] + (more[0] + [sep] + Join(more[1..], sep)) == ([s[0]] + more[0]) + [sep] + Join(more[1..], sep);
        }
      }
    }
  }

  // ---------- trimming ----------

  /** ECMAScript's white space and line ends. */
  predicate IsSpace(c: char) {
    || '\t' <= c <= '\r' || c == ' ' || c == '\U{a0}' || c == '\U{1680}' || '\U{2000}' <= c <= '\U{200a}'
    || c == '\U{2028}' || c == '\U{2029}' || c == '\U{202f}' || c == '\U{205f}' || c == '\U{3000}' || c == '\U{feff}'
  }

  /** Tab, line feed, vertical tab, form feed, carriage return, the line and paragraph separators, the byte order mark, and Zs. */
  lemma SpaceCodes(c: char)
    ensures IsSpace(c) <==>
      (c as int) in {0x09, 0x0a, 0x0b, 0x0c, 0x0d, 0x20, 0xa0, 0x1680, 0x2000, 0x2001, 0x2002, 0x2003, 0x2004, 0x2005,
                     0x2006, 0x2007, 0x2008, 0x2009, 0x200a, 0x2028, 0x2029, 0x202f, 0x205f, 0x3000, 0xfeff}
  {
  }

  predicate AllSpace(s: string) {
    forall i | 0 <= i < |s| :: IsSpace(s[i])
  }

  /** Nothing to trim. */
  predicate Trimmed(s: string) {
    s == [] || (!IsSpace(s[0]) && !IsSpace(s[|s| - 1]))
  }

  function TrimStart(s: string): string {
    if s != [] && IsSpace(s[0]) then TrimStart(s[1..]) else s
  }

  function TrimEnd(s: string): string {
    if s != [] && IsSpace(s[|s| - 1]) then TrimEnd(s[..|s| - 1]) else s
  }

  function Trim(s: string): string {
    TrimEnd(TrimStart(s))
  }

  lemma {:induction false} TrimStartPadded(l: string, e: string)
    requires AllSpace(l) && (e == [] || !IsSpace(e[0]))
    ensures TrimStart(l + e) == e
  {
    hide IsSpace;
    if l == [] {
      assert l + e == e;
    } else {
      assert (l + e)[1..] == l[1..] + e;
      TrimStartPadded(l[1..], e);
    }
  }

  lemma {:induction false} TrimEndPadded(e: string, r: string)
    requires AllSpace(r) && (e == [] || !IsSpace(e[|e| - 1]))
    ensures TrimEnd(e + r) == e
  {
    hide IsSpace;
    if r == [] {
      assert e + r == e;
    } else {
      assert (e + r)[..|e + r| - 1] == e + r[..|r| - 1];
      TrimEndPadded(e, r[..|r| - 1]);
    }
  }

  lemma {:induction false} StartSpaces(s: string) returns (l: string)
    ensures AllSpace(l) && s == l + TrimStart(s)
    ensures TrimStart(s) == [] || !IsSpace(TrimStart(s)[0])
  {
    hide IsSpace;
    if s != [] && IsSpace(s[0]) {
      var more := StartSpaces(s[1..]);
      l := [s[0]] + more;
      assert s == [s[0]] + s[1..];
    } else {
      l := [];
    }
  }

  lemma {:induction false} EndSpaces(s: string) returns (r: string)
    ensures AllSpace(r) && s == TrimEnd(s) + r
    ensures TrimEnd(s) == [] || !IsSpace(TrimEnd(s)[|TrimEnd(s)| - 1])
  {
    hide IsSpace;
    if s != [] && IsSpace(s[|s| - 1]) {
      var more := EndSpaces(s[..|s| - 1]);
      r := more + [s[|s| - 1]];
      assert s == s[..|s| - 1] + [s[|s| - 1]];
    } else {
      r := [];
    }
  }

  /** Trimming yields exactly what is left when spaces are taken off both ends and none is left there. */
  lemma TrimIff(s: string, e: string)
    ensures Trim(s) == e <==> Trimmed(e) && exists l, r :: AllSpace(l) && AllSpace(r) && s == l + e + r
  {
    var l := StartSpaces(s);
    var t := TrimStart(s);
    var r := EndSpaces(t);
    hide IsSpace;
    assert s == l + Trim(s) + r;
    assert Trimmed(Trim(s)) by {
      if Trim(s) != [] { assert t[0] == Trim(s)[0]; }
    }
    forall l, r | AllSpace(l) && AllSpace(r) && s == l + e + r && Trimmed(e) ensures Trim(s) == e {
      PaddedTrims(l, e, r);
    }
  }

  lemma PaddedTrims(l: string, e: string, r: string)
    requires AllSpace(l) && AllSpace(r) && Trimmed(e)
    ensures Trim(l + e + r) == e
  {
    hide IsSpace, TrimStart, TrimEnd;
    if e == [] {
      assert l + e + r == (l + r) + [] && e == [];
      assert AllSpace(l + r);
      TrimStartPadded(l + r, []);
      TrimEndPadded([], []);
      assert [] + [] == e;
    } else {
      assert l + e + r == l + (e + r);
      TrimStartPadded(l, e + r);
      TrimEndPadded(e, r);
    }
  }
}
