/** UTF-8 (RFC 3629, section 3), as Python's strict codec applies it. */
module Utf8 {
  import opened Options
  import opened Messages

  predicate Tail(b: Byte) { 0x80 <= b <= 0xBF }

  function EncodeChar(c: char): (bytes: seq<Byte>)
    ensures 1 <= |bytes| <= 4
  {
    var n := c as int;
    if n < 0x80 then [n]
    else if n < 0x800 then [0xC0 + n / 64, 0x80 + n % 64]
    else if n < 0x10000 then [0xE0 + n / 64 / 64, 0x80 + n / 64 % 64, 0x80 + n % 64]
    else [0xF0 + n / 64 / 64 / 64, 0x80 + n / 64 / 64 % 64, 0x80 + n / 64 % 64, 0x80 + n % 64]
  }

  /** `str.encode("utf-8")` */
  function Encode(s: string): seq<Byte> {
    if s == [] then [] else EncodeChar(s[0]) + Encode(s[1..])
  }

  datatype Lead = Lead(c: char, size: nat)

  /**
   The first character and the number of bytes it takes. Overlong forms, surrogates and numbers past
   U+10FFFF are refused by the range of the second byte, as the grammar of section 4 does it.
   */
  function DecodeFirst(b: seq<Byte>): (r: Option<Lead>)
    requires b != []
    ensures r.Some? ==> 1 <= r.value.size <= |b|
  {
    var b0: int := b[0];
    if b0 < 0x80 then Some(Lead(b0 as char, 1))
    else if 0xC2 <= b0 <= 0xDF && |b| >= 2 && Tail(b[1]) then
      Some(Lead(Join(b0 - 0xC0, b[1]) as char, 2))
    else if 0xE0 <= b0 <= 0xEF && |b| >= 3 && Tail(b[1]) && Tail(b[2])
            && (b0 == 0xE0 ==> b[1] >= 0xA0) && (b0 == 0xED ==> b[1] <= 0x9F) then
      Some(Lead(Join(Join(b0 - 0xE0, b[1]), b[2]) as char, 3))
    else if 0xF0 <= b0 <= 0xF4 && |b| >= 4 && Tail(b[1]) && Tail(b[2]) && Tail(b[3])
            && (b0 == 0xF0 ==> b[1] >= 0x90) && (b0 == 0xF4 ==> b[1] <= 0x8F) then
      Some(Lead(Join(Join(Join(b0 - 0xF0, b[1]), b[2]), b[3]) as char, 4))
    else None
  }

  /** Appends the six bits of a tail byte. */
  function Join(high: int, tail: int): int {
    high * 64 + (tail - 0x80)
  }

  /** `bytes.decode("utf-8")`; `None` stands for `UnicodeDecodeError`. */
  function Decode(b: seq<Byte>): Option<string>
    decreases |b|
  {
    if b == [] then Some([])
    else
      match DecodeFirst(b)
      case None => None
      case Some(lead) =>
        match Decode(b[lead.size..])
        case None => None
        case Some(rest) => Some([lead.c] + rest)
  }

  lemma FirstOfEncoded(c: char, rest: seq<Byte>)
    ensures DecodeFirst(EncodeChar(c) + rest) == Some(Lead(c, |EncodeChar(c)|))
  {
    var n, e := c as int, EncodeChar(c);
    var b := e + rest;
    assert forall i :: 0 <= i < |e| ==> b[i] == e[i];
    if 0x800 <= n { assert n / 64 / 64 * 64 + n / 64 % 64 == n / 64; }
    if 0x10000 <= n { assert n / 64 / 64 / 64 * 64 + n / 64 / 64 % 64 == n / 64 / 64; }
  }

  lemma EncodedOfFirst(b: seq<Byte>)
    requires b != [] && DecodeFirst(b).Some?
    ensures b[..DecodeFirst(b).value.size] == EncodeChar(DecodeFirst(b).value.c)
  {
    var size := DecodeFirst(b).value.size;
    if size == 2 {
      Joined(b[0] - 0xC0, b[1]);
    } else if size == 3 {
      Joined(b[0] - 0xE0, b[1]);
      Joined(Join(b[0] - 0xE0, b[1]), b[2]);
    } else if size == 4 {
      Joined(b[0] - 0xF0, b[1]);
      Joined(Join(b[0] - 0xF0, b[1]), b[2]);
      Joined(Join(Join(b[0] - 0xF0, b[1]), b[2]), b[3]);
    }
  }

  lemma Joined(high: int, tail: int)
    requires 0x80 <= tail <= 0xBF
    ensures Join(high, tail) / 64 == high && 0x80 + Join(high, tail) % 64 == tail
  {
  }

  lemma {:induction false} EncodeThenDecode(s: string)
    ensures Decode(Encode(s)) == Some(s)
  {
    if s != [] {
      FirstOfEncoded(s[0], Encode(s[1..]));
      assert Encode(s)[|EncodeChar(s[0])|..] == Encode(s[1..]);
      EncodeThenDecode(s[1..]);
      assert s == [s[0]] + s[1..];
    }
  }

  lemma EncodeCons(c: char, rest: string)
    ensures Encode([c] + rest) == EncodeChar(c) + Encode(rest)
  {
  }

  /** One step of `Decode`, without the arithmetic of its first character. */
  lemma DecodeStep(b: seq<Byte>) returns (c: char, size: nat, rest: string)
    requires b != [] && Decode(b).Some?
    ensures 1 <= size <= |b| && b[..size] == EncodeChar(c)
    ensures Decode(b[size..]) == Some(rest) && Decode(b).value == [c] + rest
  {
    EncodedOfFirst(b);
    c, size := DecodeFirst(b).value.c, DecodeFirst(b).value.size;
    rest := Decode(b[size..]).value;
  }

  lemma {:induction false} DecodeThenEncode(b: seq<Byte>)
    requires Decode(b).Some?
    ensures Encode(Decode(b).value) == b
    decreases |b|
  {
    if b != [] {
      var c, size, rest := DecodeStep(b);
      DecodeThenEncode(b[size..]);
      EncodeCons(c, rest);
      assert b == b[..size] + b[size..];
    }
  }

  /** The decoder accepts exactly the encodings of strings, and inverts them. */
  lemma DecodesExactly(b: seq<Byte>, s: string)
    ensures Decode(b) == Some(s) <==> b == Encode(s)
  {
    EncodeThenDecode(s);
    if Decode(b).Some? { DecodeThenEncode(b); }
  }

  // ---- the table of section 3 ------------------------------------------------------------------------

  /** The bits of a character number: those of a lead byte after its prefix, then six of each tail byte. */
  ghost predicate TwoOctets(n: int, b0: int, b1: int) {
    0x80 <= n <= 0x7FF && n == (b0 - 0xC0) * 0x40 + (b1 - 0x80)
  }

  ghost predicate ThreeOctets(n: int, b0: int, b1: int, b2: int) {
    0x800 <= n <= 0xFFFF && n == (b0 - 0xE0) * 0x1000 + (b1 - 0x80) * 0x40 + (b2 - 0x80)
  }

  ghost predicate FourOctets(n: int, b0: int, b1: int, b2: int, b3: int) {
    && 0x10000 <= n <= 0x10FFFF
    && n == (b0 - 0xF0) * 0x40000 + (b1 - 0x80) * 0x1000 + (b2 - 0x80) * 0x40 + (b3 - 0x80)
  }

  /** The octet sequence of a character number: as many tail bytes as its size needs. */
  ghost predicate IsCharacter(n: int, b: seq<Byte>) {
    && 1 <= |b| <= 4 && (forall i :: 1 <= i < |b| ==> Tail(b[i]))
    && if |b| == 1 then 0 <= n <= 0x7F && n == b[0]
       else if |b| == 2 then TwoOctets(n, b[0], b[1])
       else if |b| == 3 then ThreeOctets(n, b[0], b[1], b[2])
       else FourOctets(n, b[0], b[1], b[2], b[3])
  }

  /** The bytes are the octet sequences of the characters, one after the other. */
  ghost predicate IsText(s: string, b: seq<Byte>) {
    if s == "" then b == []
    else exists n :: 0 <= n <= |b| && IsCharacter(s[0] as int, b[..n]) && IsText(s[1..], b[n..])
  }

  lemma TwoAre(n: int, b0: int, b1: int)
    requires 0x80 <= n <= 0x7FF && 0x80 <= b1 <= 0xBF
    ensures TwoOctets(n, b0, b1) <==> b0 == 0xC0 + n / 64 && b1 == 0x80 + n % 64
  {
  }

  lemma ThreeAre(n: int, b0: int, b1: int, b2: int)
    requires 0x800 <= n <= 0xFFFF && 0x80 <= b1 <= 0xBF && 0x80 <= b2 <= 0xBF
    ensures ThreeOctets(n, b0, b1, b2) <==>
            b0 == 0xE0 + n / 64 / 64 && b1 == 0x80 + n / 64 % 64 && b2 == 0x80 + n % 64
  {
  }

  lemma FourAre(n: int, b0: int, b1: int, b2: int, b3: int)
    requires 0x10000 <= n <= 0x10FFFF && 0x80 <= b1 <= 0xBF && 0x80 <= b2 <= 0xBF && 0x80 <= b3 <= 0xBF
    ensures FourOctets(n, b0, b1, b2, b3) <==>
            && b0 == 0xF0 + n / 64 / 64 / 64 && b1 == 0x80 + n / 64 / 64 % 64
            && b2 == 0x80 + n / 64 % 64 && b3 == 0x80 + n % 64
  {
    assert n == n / 64 / 64 / 64 * 0x40000 + n / 64 / 64 % 64 * 0x1000 + n / 64 % 64 * 0x40 + n % 64;
  }

  lemma SequenceIs(c: char, b: seq<Byte>)
    requires 1 <= |b| <= 4 && forall i :: 1 <= i < |b| ==> Tail(b[i])
    ensures IsCharacter(c as int, b) <==> b == EncodeChar(c)
  {
    var n := c as int;
    if |b| == 2 && 0x80 <= n <= 0x7FF {
      TwoAre(n, b[0], b[1]);
    } else if |b| == 3 && 0x800 <= n <= 0xFFFF {
      ThreeAre(n, b[0], b[1], b[2]);
    } else if |b| == 4 && 0x10000 <= n {
      FourAre(n, b[0], b[1], b[2], b[3]);
    }
  }

  lemma EncodedTails(c: char)
    ensures forall i :: 1 <= i < |EncodeChar(c)| ==> Tail(EncodeChar(c)[i])
  {
  }

  /** The bytes of a character are its octet sequence, and no other bytes are. */
  lemma CharacterIff(c: char, b: seq<Byte>)
    ensures IsCharacter(c as int, b) <==> b == EncodeChar(c)
  {
    EncodedTails(c);
    if 1 <= |b| <= 4 && forall i :: 1 <= i < |b| ==> Tail(b[i]) { SequenceIs(c, b); }
  }

  lemma FirstOctets(s: string, b: seq<Byte>) returns (n: nat)
    requires s != "" && b == Encode(s)
    ensures n <= |b| && IsCharacter(s[0] as int, b[..n]) && b[n..] == Encode(s[1..])
  {
    var e := EncodeChar(s[0]);
    n := |e|;
    assert b[..n] == e;
    CharacterIff(s[0], e);
  }

  /** The bytes of a text are its octet sequences, and no other bytes are. */
  lemma {:induction false} EncodesExactly(s: string, b: seq<Byte>)
    ensures b == Encode(s) <==> IsText(s, b)
  {
    if s != "" {
      if b == Encode(s) {
        var n := FirstOctets(s, b);
        EncodesExactly(s[1..], b[n..]);
      }
      if IsText(s, b) {
        var n :| 0 <= n <= |b| && IsCharacter(s[0] as int, b[..n]) && IsText(s[1..], b[n..]);
        CharacterIff(s[0], b[..n]);
        EncodesExactly(s[1..], b[n..]);
        assert b == b[..n] + b[n..];
      }
    }
  }
}
