/**
 What a base64 text stands for, by Table 1 and the bit groups of section 4 of RFC 4648 and without the
 codec, and that the codec agrees.
 */
module Rfc4648 {
  import opened Options
  import opened Messages
  import opened Base64

  /** Table 1: the character of each of the values 0 to 63. */
  const TABLE := "ABCDEFGHIJKLMNOPQRSTUVWXYZ" + "abcdefghijklmnopqrstuvwxyz" + "0123456789+/"

  ghost predicate InTable(table: string, s: string) {
    forall i :: 0 <= i < |s| ==> s[i] in table
  }

  /** The value that a character stands for. */
  ghost function Position(table: string, c: char): (v: nat)
    ensures c in table ==> v < |table| && table[v] == c
  {
    if c in table then var v :| 0 <= v < |table| && table[v] == c; v else 0
  }

  /** The number that the first n of four characters make, six bits each. */
  ghost function Sextets(table: string, s: string, n: nat): int
    requires 2 <= n <= 4 && n <= |s|
  {
    Position(table, s[0]) * 0x40000 + Position(table, s[1]) * 0x1000
    + (if n > 2 then Position(table, s[2]) * 0x40 else 0) + if n > 3 then Position(table, s[3]) else 0
  }

  /** The number that three bytes make. */
  ghost function Octets(b0: int, b1: int, b2: int): int {
    b0 * 0x10000 + b1 * 0x100 + b2
  }

  /**
   The text stands for the bytes: each four characters for three bytes with the same 24 bits; at the end
   three and a pad for two bytes, or two and two pads for one, where the bits left over are zero if `strict`.
   */
  ghost predicate Spells(table: string, s: string, b: seq<Byte>, strict: bool)
    decreases |s|
  {
    if s == "" then b == []
    else if |s| < 4 then false
    else if |s| == 4 && s[2] == '=' then
      && s[3] == '=' && InTable(table, s[..2]) && |b| == 1
      && LeftOver(Sextets(table, s, 2), Octets(b[0], 0, 0), 0x10000, strict)
    else if |s| == 4 && s[3] == '=' then
      && InTable(table, s[..3]) && |b| == 2
      && LeftOver(Sextets(table, s, 3), Octets(b[0], b[1], 0), 0x100, strict)
    else
      && InTable(table, s[..4]) && |b| >= 3
      && Sextets(table, s, 4) == Octets(b[0], b[1], b[2])
      && Spells(table, s[4..], b[3..], strict)
  }

  /** The bits are those of the bytes, followed by less than one byte of others. */
  ghost predicate LeftOver(bits: int, bytes: int, room: int, strict: bool) {
    bytes <= bits < bytes + room && (strict ==> bits == bytes)
  }

  // ---- the alphabet of the codec -----------------------------------------------------------------

  /** The codec reads the characters of the table, and no others, as digits, at their positions. */
  ghost predicate Agrees(table: string, c: char) {
    && (Read(c).Digit? <==> c in table)
    && (c in table && Read(c).Digit? ==> Read(c).v == Position(table, c))
    && (Read(c).Pad? <==> c == '=')
  }

  ghost predicate IsAlphabet(table: string) {
    forall c: char :: Agrees(table, c)
  }

  lemma ShowsTable(v: Sextet)
    ensures |TABLE| == 64 && Show(Digit(v)) == TABLE[v]
  {
  }

  lemma ReadShown(v: Sextet)
    ensures Read(Show(Digit(v))) == Digit(v)
  {
  }

  lemma AgreesWithTable(c: char)
    ensures Agrees(TABLE, c)
  {
    if c in TABLE {
      var v := Position(TABLE, c);
      ShowsTable(v);
      ReadShown(v);
    }
    if Read(c).Digit? {
      ShowsTable(Read(c).v);
      assert Show(Read(c)) == c;
    }
  }

  lemma TableIsAlphabet()
    ensures IsAlphabet(TABLE)
  {
    forall c: char ensures Agrees(TABLE, c) { AgreesWithTable(c); }
  }

  // ---- one group -----------------------------------------------------------------------------------

  lemma WholeGroup(v0: Sextet, v1: Sextet, v2: Sextet, v3: Sextet, b0: Byte, b1: Byte, b2: Byte)
    ensures v0 * 0x40000 + v1 * 0x1000 + v2 * 0x40 + v3 == Octets(b0, b1, b2) <==>
            b0 == Byte0(v0, v1) && b1 == Byte1(v1, v2) && b2 == Byte2(v2, v3)
    ensures v0 * 0x40000 + v1 * 0x1000 + v2 * 0x40 + v3 == Octets(b0, b1, b2) <==>
            v0 == First(b0) && v1 == Second(b0, b1) && v2 == Third(b1, b2) && v3 == Fourth(b2)
  {
  }

  lemma TwoBytes(v0: Sextet, v1: Sextet, v2: Sextet, b0: Byte, b1: Byte)
    ensures LeftOver(v0 * 0x40000 + v1 * 0x1000 + v2 * 0x40, Octets(b0, b1, 0), 0x100, false) <==>
            b0 == Byte0(v0, v1) && b1 == Byte1(v1, v2)
  {
  }

  lemma TwoBytesStrictly(v0: Sextet, v1: Sextet, v2: Sextet, b0: Byte, b1: Byte)
    ensures LeftOver(v0 * 0x40000 + v1 * 0x1000 + v2 * 0x40, Octets(b0, b1, 0), 0x100, true) <==>
            v0 == First(b0) && v1 == Second(b0, b1) && v2 == Third(b1, 0)
  {
  }

  lemma OneByte(v0: Sextet, v1: Sextet, b0: Byte)
    ensures LeftOver(v0 * 0x40000 + v1 * 0x1000, Octets(b0, 0, 0), 0x10000, false) <==> b0 == Byte0(v0, v1)
    ensures LeftOver(v0 * 0x40000 + v1 * 0x1000, Octets(b0, 0, 0), 0x10000, true) <==>
            v0 == First(b0) && v1 == Second(b0, 0)
  {
  }

  // ---- whole texts -----------------------------------------------------------------------------------

  lemma InTableFirst(table: string, s: string, n: nat)
    requires n <= |s|
    ensures InTable(table, s[..n]) <==> forall i :: 0 <= i < n ==> s[i] in table
  {
    assert forall i :: 0 <= i < n ==> s[..n][i] == s[i];
  }

  /** The first n characters are digits, at their positions, or not all of them are. */
  lemma ReadsFirst(table: string, s: string, n: nat)
    requires IsAlphabet(table) && n <= |s|
    ensures InTable(table, s[..n]) <==> forall i :: 0 <= i < n ==> ReadAll(s)[i].Digit?
    ensures InTable(table, s[..n]) ==>
              forall i :: 0 <= i < n ==> ReadAll(s)[i].Digit? && ReadAll(s)[i].v == Position(table, s[i])
  {
    InTableFirst(table, s, n);
    forall i | 0 <= i < n
      ensures ReadAll(s)[i].Digit? <==> s[i] in table
      ensures s[i] in table ==> ReadAll(s)[i].v == Position(table, s[i])
    {
      assert Agrees(table, s[i]);
    }
  }

  lemma ReadsPad(table: string, s: string, i: nat)
    requires IsAlphabet(table) && i < |s|
    ensures ReadAll(s)[i] == Pad <==> s[i] == '='
  {
    assert Agrees(table, s[i]);
  }

  lemma TwoPads(table: string, s: string, b: seq<Byte>)
    requires IsAlphabet(table) && |s| == 4 && s[2] == '='
    ensures Decode(s) == Some(b) <==> Spells(table, s, b, false)
  {
    var xs := ReadAll(s);
    ReadsFirst(table, s, 2);
    ReadsPad(table, s, 2);
    ReadsPad(table, s, 3);
    if |b| == 1 && xs[0].Digit? && xs[1].Digit? {
      OneByte(xs[0].v, xs[1].v, b[0]);
      assert b == [b[0]];
    }
  }

  lemma OnePad(table: string, s: string, b: seq<Byte>)
    requires IsAlphabet(table) && |s| == 4 && s[2] != '=' && s[3] == '='
    ensures Decode(s) == Some(b) <==> Spells(table, s, b, false)
  {
    var xs := ReadAll(s);
    ReadsFirst(table, s, 3);
    ReadsPad(table, s, 2);
    ReadsPad(table, s, 3);
    if |b| == 2 && xs[0].Digit? && xs[1].Digit? && xs[2].Digit? {
      TwoBytes(xs[0].v, xs[1].v, xs[2].v, b[0], b[1]);
      assert b == [b[0], b[1]];
    }
  }

  /** The bytes of one group in front of others. */
  lemma InFront(b: seq<Byte>, b0: Byte, b1: Byte, b2: Byte, rest: seq<Byte>)
    ensures b == [b0, b1, b2] + rest <==> |b| >= 3 && b[0] == b0 && b[1] == b1 && b[2] == b2 && b[3..] == rest
  {
    if |b| >= 3 { assert b == [b[0], b[1], b[2]] + b[3..]; }
    assert ([b0, b1, b2] + rest)[3..] == rest;
  }

  /** The bytes are those of the group that the text begins with. */
  ghost predicate FirstBytes(table: string, s: string, b0: Byte, b1: Byte, b2: Byte)
    requires |s| >= 4
  {
    Sextets(table, s, 4) == Octets(b0, b1, b2)
  }

  lemma WholeValues(table: string, s: string) returns (v0: Sextet, v1: Sextet, v2: Sextet, v3: Sextet)
    requires IsAlphabet(table) && |s| >= 4 && InTable(table, s[..4])
    ensures ReadAll(s) == [Digit(v0), Digit(v1), Digit(v2), Digit(v3)] + ReadAll(s[4..])
    ensures Sextets(table, s, 4) == v0 * 0x40000 + v1 * 0x1000 + v2 * 0x40 + v3
  {
    var xs := ReadAll(s);
    ReadsFirst(table, s, 4);
    v0, v1, v2, v3 := xs[0].v, xs[1].v, xs[2].v, xs[3].v;
    assert xs[4..] == ReadAll(s[4..]);
  }

  /** What the first group of a text decodes to. */
  lemma WholeBytes(table: string, s: string) returns (c0: Byte, c1: Byte, c2: Byte)
    requires IsAlphabet(table) && |s| >= 4 && InTable(table, s[..4])
    ensures forall b0: Byte, b1: Byte, b2: Byte ::
              FirstBytes(table, s, b0, b1, b2) <==> b0 == c0 && b1 == c1 && b2 == c2
    ensures Decode(s[4..]).None? ==> Decode(s).None?
    ensures Decode(s[4..]).Some? ==> Decode(s) == Some([c0, c1, c2] + Decode(s[4..]).value)
  {
    var v0, v1, v2, v3 := WholeValues(table, s);
    c0, c1, c2 := Byte0(v0, v1), Byte1(v1, v2), Byte2(v2, v3);
    DecodedCons(ReadAll(s), c0, c1, c2);
    assert ReadAll(s)[4..] == ReadAll(s[4..]);
    forall b0: Byte, b1: Byte, b2: Byte
      ensures FirstBytes(table, s, b0, b1, b2) <==> b0 == c0 && b1 == c1 && b2 == c2
    {
      WholeGroup(v0, v1, v2, v3, b0, b1, b2);
    }
  }

  lemma WholeDecodes(table: string, s: string, b: seq<Byte>)
    requires IsAlphabet(table) && |s| >= 4 && InTable(table, s[..4])
    ensures Decode(s) == Some(b) <==>
            |b| >= 3 && FirstBytes(table, s, b[0], b[1], b[2]) && Decode(s[4..]) == Some(b[3..])
  {
    var c0, c1, c2 := WholeBytes(table, s);
    if Decode(s[4..]).Some? { InFront(b, c0, c1, c2, Decode(s[4..]).value); }
  }

  lemma OthersFail(table: string, s: string)
    requires IsAlphabet(table) && s != "" && (|s| == 4 ==> s[2] != '=' && s[3] != '=')
    requires |s| < 4 || !InTable(table, s[..4])
    ensures Decode(s) == None
  {
    if |s| >= 4 {
      ReadsFirst(table, s, 4);
      ReadsPad(table, s, 2);
      ReadsPad(table, s, 3);
    }
  }

  lemma {:induction false} DecodesSpelt(table: string, s: string, b: seq<Byte>)
    requires IsAlphabet(table)
    ensures Decode(s) == Some(b) <==> Spells(table, s, b, false)
    decreases |s|
  {
    if |s| == 4 && s[2] == '=' {
      TwoPads(table, s, b);
    } else if |s| == 4 && s[3] == '=' {
      OnePad(table, s, b);
    } else if |s| >= 4 && InTable(table, s[..4]) {
      WholeDecodes(table, s, b);
      if |b| >= 3 { DecodesSpelt(table, s[4..], b[3..]); }
    } else if s != "" {
      OthersFail(table, s);
    }
  }

  /**
   Validated decoding accepts exactly the texts that stand for bytes, whatever bits are left over, and yields
   those bytes; it refuses all others.
   */
  lemma DecodesExactly(s: string, b: seq<Byte>)
    ensures Decode(s) == Some(b) <==> Spells(TABLE, s, b, false)
  {
    TableIsAlphabet();
    DecodesSpelt(TABLE, s, b);
  }

  // ---- encoding --------------------------------------------------------------------------------------

  lemma EncodesIff(b: seq<Byte>, s: string)
    ensures Encode(b) == s <==> Encoded(b) == ReadAll(s)
  {
    ShowThenRead(Encoded(b));
    ReadThenShow(s);
  }

  lemma TwoPadsEncode(table: string, s: string, b: seq<Byte>)
    requires IsAlphabet(table) && |b| == 1
    ensures Encoded(b) == ReadAll(s) <==> Spells(table, s, b, true)
  {
    EncodedOne(b[0], First(b[0]), Second(b[0], 0));
    assert b == [b[0]];
    if |s| == 4 {
      var xs := ReadAll(s);
      ReadsFirst(table, s, 2);
      ReadsPad(table, s, 2);
      ReadsPad(table, s, 3);
      if xs[0].Digit? && xs[1].Digit? { OneByte(xs[0].v, xs[1].v, b[0]); }
    }
  }

  lemma OnePadEncode(table: string, s: string, b: seq<Byte>)
    requires IsAlphabet(table) && |b| == 2
    ensures Encoded(b) == ReadAll(s) <==> Spells(table, s, b, true)
  {
    EncodedTwo(b[0], b[1], First(b[0]), Second(b[0], b[1]), Third(b[1], 0));
    assert b == [b[0], b[1]];
    if |s| == 4 {
      var xs := ReadAll(s);
      ReadsFirst(table, s, 3);
      ReadsPad(table, s, 2);
      ReadsPad(table, s, 3);
      if xs[0].Digit? && xs[1].Digit? && xs[2].Digit? {
        TwoBytesStrictly(xs[0].v, xs[1].v, xs[2].v, b[0], b[1]);
      }
    }
  }

  lemma Groups(xs: seq<Symbol>, v0: Sextet, v1: Sextet, v2: Sextet, v3: Sextet, rest: seq<Symbol>)
    ensures [Digit(v0), Digit(v1), Digit(v2), Digit(v3)] + rest == xs <==>
            |xs| >= 4 && xs[0] == Digit(v0) && xs[1] == Digit(v1) && xs[2] == Digit(v2) && xs[3] == Digit(v3)
            && xs[4..] == rest
  {
    if |xs| >= 4 { assert xs == [xs[0], xs[1], xs[2], xs[3]] + xs[4..]; }
    assert ([Digit(v0), Digit(v1), Digit(v2), Digit(v3)] + rest)[4..] == rest;
  }

  /** Which digits the first three bytes are. */
  lemma FirstDigits(table: string, s: string, b0: Byte, b1: Byte, b2: Byte)
    returns (v0: Sextet, v1: Sextet, v2: Sextet, v3: Sextet)
    requires IsAlphabet(table) && |s| >= 4
    ensures v0 == First(b0) && v1 == Second(b0, b1) && v2 == Third(b1, b2) && v3 == Fourth(b2)
    ensures var xs := ReadAll(s);
      && (xs[0] == Digit(v0) && xs[1] == Digit(v1) && xs[2] == Digit(v2) && xs[3] == Digit(v3) <==>
            InTable(table, s[..4]) && FirstBytes(table, s, b0, b1, b2))
  {
    v0, v1, v2, v3 := First(b0), Second(b0, b1), Third(b1, b2), Fourth(b2);
    if InTable(table, s[..4]) {
      var u0, u1, u2, u3 := WholeValues(table, s);
      WholeGroup(u0, u1, u2, u3, b0, b1, b2);
    } else {
      ReadsFirst(table, s, 4);
    }
  }

  lemma {:induction false} EncodesSpelt(table: string, s: string, b: seq<Byte>)
    requires IsAlphabet(table)
    ensures Encoded(b) == ReadAll(s) <==> Spells(table, s, b, true)
    decreases |b|
  {
    if |b| == 0 {
    } else if |b| == 1 {
      TwoPadsEncode(table, s, b);
    } else if |b| == 2 {
      OnePadEncode(table, s, b);
    } else if |s| >= 4 {
      var v0, v1, v2, v3 := FirstDigits(table, s, b[0], b[1], b[2]);
      EncodedCons(b, v0, v1, v2, v3);
      Groups(ReadAll(s), v0, v1, v2, v3, Encoded(b[3..]));
      assert ReadAll(s)[4..] == ReadAll(s[4..]);
      EncodesSpelt(table, s[4..], b[3..]);
      ReadsPad(table, s, 2);
      ReadsPad(table, s, 3);
    } else {
      EncodedCons(b, First(b[0]), Second(b[0], b[1]), Third(b[1], b[2]), Fourth(b[2]));
    }
  }

  /** A text is the encoding of the bytes exactly if it stands for them and leaves no bit set that is not theirs. */
  lemma EncodesExactly(b: seq<Byte>, s: string)
    ensures Encode(b) == s <==> Spells(TABLE, s, b, true)
  {
    TableIsAlphabet();
    EncodesIff(b, s);
    EncodesSpelt(TABLE, s, b);
  }

  lemma {:induction false} SpeltInTable(table: string, s: string, b: seq<Byte>, strict: bool, i: nat)
    requires Spells(table, s, b, strict) && i < |s|
    ensures s[i] in table || s[i] == '='
    decreases |s|
  {
    InTableFirst(table, s, 2);
    if |s| == 4 && s[2] == '=' {
    } else if |s| == 4 && s[3] == '=' {
      InTableFirst(table, s, 3);
    } else if i < 4 {
      InTableFirst(table, s, 4);
    } else {
      SpeltInTable(table, s[4..], b[3..], strict, i - 4);
    }
  }

  /** A text with any other character is refused, and is no encoding. */
  lemma OthersAreRefused(s: string, i: nat)
    requires i < |s| && s[i] !in TABLE && s[i] != '='
    ensures Decode(s) == None && forall b :: Encode(b) != s
  {
    forall b ensures !Spells(TABLE, s, b, false) && !Spells(TABLE, s, b, true) {
      if Spells(TABLE, s, b, false) { SpeltInTable(TABLE, s, b, false, i); }
      if Spells(TABLE, s, b, true) { SpeltInTable(TABLE, s, b, true, i); }
    }
    forall b ensures Encode(b) != s { EncodesExactly(b, s); }
    if Decode(s).Some? { DecodesExactly(s, Decode(s).value); }
  }

  /** The canonical texts are those that stand for bytes without bits left over. */
  lemma CanonicalIsSpelt(s: string)
    ensures Canonical(s) <==> exists b :: Spells(TABLE, s, b, true)
  {
    CanonicalIff(s);
    if Canonical(s) {
      var b :| Encode(b) == s;
      EncodesExactly(b, s);
    }
    forall b | Spells(TABLE, s, b, true) ensures Canonical(s) { EncodesExactly(b, s); }
  }
}
