/** The 64 letters of RFC 4648, section 4, what each character is worth, and texts that the RFC gives. */
module Base64Table {
  import opened Base64
  import opened Bits
  import opened Bytes
  import opened Wrappers

  const UPPER: string := "ABCDEFGHIJKLMNOPQRSTUVWXYZ"
  const LOWER: string := "abcdefghijklmnopqrstuvwxyz"
  const FIGURES: string := "0123456789"
  const TABLE: string := UPPER + LOWER + FIGURES + "+/"

  lemma SmallNumber(v: nat)
    requires v < 26
    ensures v == 0 || v == 1 || v == 2 || v == 3 || v == 4 || v == 5 || v == 6 || v == 7 || v == 8 || v == 9 || v == 10
         || v == 11 || v == 12 || v == 13 || v == 14 || v == 15 || v == 16 || v == 17 || v == 18 || v == 19 || v == 20
         || v == 21 || v == 22 || v == 23 || v == 24 || v == 25
  {
  }

  lemma UpperLetters(v: nat)
    requires v < 26
    ensures UPPER[v] as int == 'A' as int + v
  {
    SmallNumber(v);
  }

  lemma LowerLetters(v: nat)
    requires v < 26
    ensures LOWER[v] as int == 'a' as int + v
  {
    SmallNumber(v);
  }

  lemma FigureLetters(v: nat)
    requires v < 10
    ensures FIGURES[v] as int == '0' as int + v
  {
    SmallNumber(v);
  }

  lemma TableParts(v: nat, table: string)
    requires v < 64 && table == TABLE
    ensures |table| == 64
    ensures if v < 26 then table[v] == UPPER[v] else if v < 52 then table[v] == LOWER[v - 26]
            else if v < 62 then table[v] == FIGURES[v - 52] else if v == 62 then table[v] == '+' else table[v] == '/'
  {
    var upper, lower, figures := UPPER, LOWER, FIGURES;
    assert |upper| == 26 && |lower| == 26 && |figures| == 10 && table == upper + lower + figures + "+/";
  }

  lemma TableLetters(v: nat)
    requires v < 64
    ensures |TABLE| == 64
    ensures TABLE[v] as int == if v < 26 then 'A' as int + v else if v < 52 then 'a' as int + v - 26
                               else if v < 62 then '0' as int + v - 52 else if v == 62 then '+' as int else '/' as int
  {
    TableParts(v, TABLE);
    if v < 26 {
      UpperLetters(v);
    } else if v < 52 {
      LowerLetters(v - 26);
    } else if v < 62 {
      FigureLetters(v - 52);
    }
  }

  /**
   A character is the digit `v` if and only if it is letter `v` of the table, or one of the two URL-safe ones; exactly the
   padding and white space is passed over. The encoder's letters are the table's.
   */
  lemma ReadByTable(c: char, v: nat)
    ensures |TABLE| == 64
    ensures Read(c) == Digit(v) <==> v < 64 && (c == TABLE[v] || (v == 62 && c == '-') || (v == 63 && c == '_'))
    ensures Read(c) == Skip <==> c == '=' || c == '\n' || c == '\r' || c == ' ' || c == '\t'
    ensures v < 64 ==> Alphabet(v) == TABLE[v]
  {
    if v < 64 {
      TableLetters(v);
    }
  }

  // ---------- one text per data ----------

  lemma SameLetter(c: char, d: char)
    requires IsDigit(c) && IsDigit(d) && Read(c) == Read(d)
    ensures c == d
  {
    ReadByTable(c, Read(c).value);
    ReadByTable(d, Read(c).value);
  }

  lemma {:induction false} SameDigits(s: string, t: string)
    requires |s| == |t| && Value(s) == Value(t)
    requires forall i | 0 <= i < |s| :: IsDigit(s[i]) && IsDigit(t[i])
    ensures s == t
  {
    if s != [] {
      var n := |s| - 1;
      assert IsDigit(s[n]) && IsDigit(t[n]);
      SameDigits(s[..n], t[..n]) by {
        DivModUnique(Value(s), 64, Value(s[..n]), Read(s[n]).value);
        DivModUnique(Value(s), 64, Value(t[..n]), Read(t[n]).value);
      }
      SameLetter(s[n], t[n]);
      assert s == s[..n] + [s[n]] && t == t[..n] + [t[n]];
    }
  }

  lemma {:induction false} PaddingIsWorthNothing(s: string, n: nat)
    requires n <= |s| && forall i | n <= i < |s| :: s[i] == '='
    ensures Value(s) == Value(s[..n])
    decreases |s|
  {
    if n == |s| {
      assert s[..n] == s;
    } else {
      PaddingIsWorthNothing(s[..|s| - 1], n);
      assert s[..|s| - 1][..n] == s[..n] && s[|s| - 1] == '=';
    }
  }

  /** Data has one encoded text only. */
  lemma EncodingUnique(data: ByteString, s: string, t: string)
    requires Encodes(s, data) && Encodes(t, data)
    ensures s == t
  {
    var n := |s| - Padding(|data|);
    PaddingIsWorthNothing(s, n);
    PaddingIsWorthNothing(t, n);
    hide Value, IsDigit, Digits, Shifted;
    SameDigits(s[..n], t[..n]);
    assert forall i | n <= i < |s| :: s[i] == t[i];
    assert s == s[..n] + s[n..] && t == t[..n] + t[n..];
  }

  // ---------- a text of section 10 of RFC 4648 ----------

  /** "fo" is "Zm8=", and nothing else. */
  lemma FoIsZm8(s: string, data: ByteString)
    requires data == ['f' as int, 'o' as int]
    ensures Encodes(s, data) <==> s == "Zm8="
  {
    var t := "Zm8=";
    assert Encodes(t, data) by {
      ThreeDigits('Z', 'm', '8');
      Snoc("Zm8", '=');
      assert t == "Zm8" + ['='];
      TwoBytes('f' as int, 'o' as int);
      ShiftedValues(0x666f);
    }
    if Encodes(s, data) {
      EncodingUnique(data, s, t);
    }
  }

  lemma ThreeDigits(a: char, b: char, c: char)
    requires Read(a).Digit? && Read(b).Digit? && Read(c).Digit?
    ensures Digits([a, b, c]) == 3
    ensures Value([a, b, c]) == 0x1000 * Read(a).value + 64 * Read(b).value + Read(c).value
  {
    var none: string := [];
    Snoc(none, a);
    Snoc([a], b);
    Snoc([a, b], c);
    assert none + [a] == [a] && [a] + [b] == [a, b] && [a, b] + [c] == [a, b, c];
  }

  lemma TwoBytes(a: Byte, b: Byte)
    ensures FromBigEndian([a, b]) == 256 * a + b
  {
    assert [a, b][..1] == [a] && [a][..0] == [];
  }
}
