/** Base64 (RFC 4648, section 4), as Python's `base64` module applies it with `validate=True`. */
module Base64 {
  import opened Options
  import opened Messages

  type Sextet = v: int | 0 <= v < 64

  /** A character of a text: a digit of the alphabet, the pad character, or anything else. */
  datatype Symbol = Digit(v: Sextet) | Pad | Alien(c: char)

  // ---- the alphabet ------------------------------------------------------------------------------

  function Show(x: Symbol): char {
    match x
    case Digit(v) =>
      if v < 26 then (65 + v) as char
      else if v < 52 then (71 + v) as char
      else if v < 62 then (v - 4) as char
      else if v == 62 then '+' else '/'
    case Pad => '='
    case Alien(c) => c
  }

  function Read(c: char): Symbol {
    var n := c as int;
    if 65 <= n <= 90 then Digit(n - 65)
    else if 97 <= n <= 122 then Digit(n - 71)
    else if 48 <= n <= 57 then Digit(n + 4)
    else if c == '+' then Digit(62)
    else if c == '/' then Digit(63)
    else if c == '=' then Pad
    else Alien(c)
  }

  function ShowAll(xs: seq<Symbol>): (s: string)
    ensures |s| == |xs| && forall i :: 0 <= i < |s| ==> s[i] == Show(xs[i])
  {
    seq(|xs|, i requires 0 <= i < |xs| => Show(xs[i]))
  }

  function ReadAll(s: string): (xs: seq<Symbol>)
    ensures |xs| == |s| && forall i :: 0 <= i < |s| ==> xs[i] == Read(s[i])
  {
    seq(|s|, i requires 0 <= i < |s| => Read(s[i]))
  }

  lemma ShowThenRead(xs: seq<Symbol>)
    requires forall i :: 0 <= i < |xs| ==> !xs[i].Alien?
    ensures ReadAll(ShowAll(xs)) == xs
  {
  }

  lemma ReadThenShow(s: string)
    ensures ShowAll(ReadAll(s)) == s
  {
  }

  // ---- three bytes are four digits ---------------------------------------------------------------

  function First(b0: Byte): Sextet { b0 / 4 }
  function Second(b0: Byte, b1: Byte): Sextet { b0 % 4 * 16 + b1 / 16 }
  function Third(b1: Byte, b2: Byte): Sextet { b1 % 16 * 4 + b2 / 64 }
  function Fourth(b2: Byte): Sextet { b2 % 64 }

  function Byte0(v0: Sextet, v1: Sextet): Byte { v0 * 4 + v1 / 16 }
  function Byte1(v1: Sextet, v2: Sextet): Byte { v1 % 16 * 16 + v2 / 4 }
  function Byte2(v2: Sextet, v3: Sextet): Byte { v2 % 4 * 64 + v3 }

  lemma SplitThenJoin(b0: Byte, b1: Byte, b2: Byte)
    ensures Byte0(First(b0), Second(b0, b1)) == b0
    ensures Byte1(Second(b0, b1), Third(b1, b2)) == b1
    ensures Byte2(Third(b1, b2), Fourth(b2)) == b2
  {
  }

  lemma JoinThenSplit(v0: Sextet, v1: Sextet, v2: Sextet, v3: Sextet)
    ensures First(Byte0(v0, v1)) == v0
    ensures Second(Byte0(v0, v1), Byte1(v1, v2)) == v1
    ensures Third(Byte1(v1, v2), Byte2(v2, v3)) == v2
    ensures Fourth(Byte2(v2, v3)) == v3
  {
  }

  // ---- the codec ---------------------------------------------------------------------------------

  function Encoded(b: seq<Byte>): (xs: seq<Symbol>)
    ensures forall i :: 0 <= i < |xs| ==> !xs[i].Alien?
  {
    if |b| == 0 then []
    else if |b| == 1 then [Digit(First(b[0])), Digit(Second(b[0], 0)), Pad, Pad]
    else if |b| == 2 then [Digit(First(b[0])), Digit(Second(b[0], b[1])), Digit(Third(b[1], 0)), Pad]
    else
      [Digit(First(b[0])), Digit(Second(b[0], b[1])), Digit(Third(b[1], b[2])), Digit(Fourth(b[2]))]
      + Encoded(b[3..])
  }

  function Decoded(xs: seq<Symbol>): Option<seq<Byte>> {
    if xs == [] then Some([])
    else if |xs| < 4 || !xs[0].Digit? || !xs[1].Digit? then None
    else if xs[2].Pad? then
      if xs[3].Pad? && |xs| == 4 then Some([Byte0(xs[0].v, xs[1].v)]) else None
    else if !xs[2].Digit? then None
    else if xs[3].Pad? then
      if |xs| == 4 then Some([Byte0(xs[0].v, xs[1].v), Byte1(xs[1].v, xs[2].v)]) else None
    else if !xs[3].Digit? then None
    else
      match Decoded(xs[4..])
      case None => None
      case Some(rest) =>
        Some([Byte0(xs[0].v, xs[1].v), Byte1(xs[1].v, xs[2].v), Byte2(xs[2].v, xs[3].v)] + rest)
  }

  /** `base64.b64encode` */
  function Encode(b: seq<Byte>): string {
    ShowAll(Encoded(b))
  }

  /**
   `base64.b64decode(s, validate=True)`; `None` stands for an exception. The pad bits that a padded
   last group leaves over are ignored, whatever they are.
   */
  function Decode(s: string): Option<seq<Byte>> {
    Decoded(ReadAll(s))
  }

  lemma DecodedCons(xs: seq<Symbol>, b0: Byte, b1: Byte, b2: Byte)
    requires |xs| >= 4 && xs[0].Digit? && xs[1].Digit? && xs[2].Digit? && xs[3].Digit?
    requires Byte0(xs[0].v, xs[1].v) == b0 && Byte1(xs[1].v, xs[2].v) == b1 && Byte2(xs[2].v, xs[3].v) == b2
    ensures Decoded(xs[4..]).None? ==> Decoded(xs).None?
    ensures Decoded(xs[4..]).Some? ==> Decoded(xs) == Some([b0, b1, b2] + Decoded(xs[4..]).value)
  {
  }

  lemma EncodedCons(b: seq<Byte>, v0: Sextet, v1: Sextet, v2: Sextet, v3: Sextet)
    requires |b| >= 3
    requires First(b[0]) == v0 && Second(b[0], b[1]) == v1 && Third(b[1], b[2]) == v2 && Fourth(b[2]) == v3
    ensures Encoded(b) == [Digit(v0), Digit(v1), Digit(v2), Digit(v3)] + Encoded(b[3..])
  {
  }

  lemma DecodedOne(v0: Sextet, v1: Sextet, b0: Byte)
    requires Byte0(v0, v1) == b0
    ensures Decoded([Digit(v0), Digit(v1), Pad, Pad]) == Some([b0])
  {
  }

  lemma DecodedTwo(v0: Sextet, v1: Sextet, v2: Sextet, b0: Byte, b1: Byte)
    requires Byte0(v0, v1) == b0 && Byte1(v1, v2) == b1
    ensures Decoded([Digit(v0), Digit(v1), Digit(v2), Pad]) == Some([b0, b1])
  {
  }

  lemma EncodedOne(b0: Byte, v0: Sextet, v1: Sextet)
    requires First(b0) == v0 && Second(b0, 0) == v1
    ensures Encoded([b0]) == [Digit(v0), Digit(v1), Pad, Pad]
  {
  }

  lemma EncodedTwo(b0: Byte, b1: Byte, v0: Sextet, v1: Sextet, v2: Sextet)
    requires First(b0) == v0 && Second(b0, b1) == v1 && Third(b1, 0) == v2
    ensures Encoded([b0, b1]) == [Digit(v0), Digit(v1), Digit(v2), Pad]
  {
  }

  lemma {:induction false} DecodedEncoded(b: seq<Byte>)
    ensures Decoded(Encoded(b)) == Some(b)
  {
    if |b| == 1 {
      var v0, v1 := First(b[0]), Second(b[0], 0);
      assert b == [b[0]];
      EncodedOne(b[0], v0, v1);
      SplitThenJoin(b[0], 0, 0);
      DecodedOne(v0, v1, b[0]);
    } else if |b| == 2 {
      var v0, v1, v2 := First(b[0]), Second(b[0], b[1]), Third(b[1], 0);
      assert b == [b[0], b[1]];
      EncodedTwo(b[0], b[1], v0, v1, v2);
      SplitThenJoin(b[0], b[1], 0);
      DecodedTwo(v0, v1, v2, b[0], b[1]);
    } else if |b| >= 3 {
      var xs := Encoded(b);
      var v0, v1, v2, v3 := First(b[0]), Second(b[0], b[1]), Third(b[1], b[2]), Fourth(b[2]);
      EncodedCons(b, v0, v1, v2, v3);
      assert xs[4..] == Encoded(b[3..]);
      SplitThenJoin(b[0], b[1], b[2]);
      DecodedCons(xs, b[0], b[1], b[2]);
      DecodedEncoded(b[3..]);
      assert b == [b[0], b[1], b[2]] + b[3..];
    }
  }

  lemma EncodeThenDecode(b: seq<Byte>)
    ensures Decode(Encode(b)) == Some(b)
  {
    ShowThenRead(Encoded(b));
    DecodedEncoded(b);
  }

  // ---- which texts are encodings -----------------------------------------------------------------

  predicate Digits(xs: seq<Symbol>) {
    forall i :: 0 <= i < |xs| ==> xs[i].Digit?
  }

  /**
   The canonical texts of sections 4 and 3.5: whole groups of four, digits up to the padding, at most
   two pad characters, and all left-over pad bits zero.
   */
  predicate CanonicalSymbols(xs: seq<Symbol>) {
    var n := |xs|;
    && n % 4 == 0
    && (|| Digits(xs)
        || (n >= 4 && Digits(xs[..n - 1]) && xs[n - 1] == Pad && xs[n - 2].Digit? && xs[n - 2].v % 4 == 0)
        || (n >= 4 && Digits(xs[..n - 2]) && xs[n - 2..] == [Pad, Pad] && xs[n - 3].Digit? && xs[n - 3].v % 16 == 0))
  }

  predicate Canonical(s: string) {
    CanonicalSymbols(ReadAll(s))
  }

  lemma DigitsGroup(xs: seq<Symbol>, n: nat)
    requires 4 <= n <= |xs| && Digits(xs[..4])
    ensures Digits(xs[..n]) <==> Digits(xs[4..][..n - 4])
  {
    assert xs[..n] == xs[..4] + xs[4..][..n - 4];
    assert xs[4..][..n - 4] == xs[..n][4..];
  }

  /** A leading group of four digits does not matter. */
  lemma CanonicalGroup(xs: seq<Symbol>)
    requires |xs| >= 8 && Digits(xs[..4])
    ensures CanonicalSymbols(xs) <==> CanonicalSymbols(xs[4..])
  {
    DigitsGroup(xs, |xs|);
    DigitsGroup(xs, |xs| - 1);
    DigitsGroup(xs, |xs| - 2);
    assert xs[..|xs|] == xs && xs[4..][..|xs| - 4] == xs[4..];
  }

  lemma {:induction false} EncodedIsCanonical(b: seq<Byte>)
    ensures CanonicalSymbols(Encoded(b))
    ensures b != [] ==> |Encoded(b)| >= 4
  {
    if |b| >= 3 {
      EncodedIsCanonical(b[3..]);
      assert Encoded(b)[4..] == Encoded(b[3..]);
      if |b| > 3 { CanonicalGroup(Encoded(b)); }
    }
  }

  lemma EncodedJoined(v0: Sextet, v1: Sextet, v2: Sextet, v3: Sextet, rest: seq<Byte>)
    ensures Encoded([Byte0(v0, v1), Byte1(v1, v2), Byte2(v2, v3)] + rest) ==
            [Digit(v0), Digit(v1), Digit(v2), Digit(v3)] + Encoded(rest)
  {
    var b := [Byte0(v0, v1), Byte1(v1, v2), Byte2(v2, v3)] + rest;
    assert b[3..] == rest;
    JoinThenSplit(v0, v1, v2, v3);
    EncodedCons(b, v0, v1, v2, v3);
  }

  ghost predicate Survives(xs: seq<Symbol>) {
    Decoded(xs).Some? && Encoded(Decoded(xs).value) == xs
  }

  lemma DecodedJoined(v0: Sextet, v1: Sextet, v2: Sextet, v3: Sextet, tail: seq<Symbol>)
    requires Decoded(tail).Some?
    ensures Decoded([Digit(v0), Digit(v1), Digit(v2), Digit(v3)] + tail) ==
            Some([Byte0(v0, v1), Byte1(v1, v2), Byte2(v2, v3)] + Decoded(tail).value)
  {
  }

  lemma OnePaddedAgain(v0: Sextet, v1: Sextet, v2: Sextet)
    requires v2 % 4 == 0
    ensures Survives([Digit(v0), Digit(v1), Digit(v2), Pad])
  {
    var b0, b1 := Byte0(v0, v1), Byte1(v1, v2);
    DecodedTwo(v0, v1, v2, b0, b1);
    JoinThenSplit(v0, v1, v2, 0);
    assert Third(b1, 0) == v2;
    EncodedTwo(b0, b1, v0, v1, v2);
  }

  lemma TwoPaddedAgain(v0: Sextet, v1: Sextet)
    requires v1 % 16 == 0
    ensures Survives([Digit(v0), Digit(v1), Pad, Pad])
  {
    var b0 := Byte0(v0, v1);
    DecodedOne(v0, v1, b0);
    assert First(b0) == v0 && Second(b0, 0) == v1;
    EncodedOne(b0, v0, v1);
  }

  lemma PaddedGroupAgain(xs: seq<Symbol>)
    requires |xs| == 4 && CanonicalSymbols(xs) && !Digits(xs)
    ensures Survives(xs)
  {
    assert xs[0] == xs[..2][0] && xs[1] == xs[..2][1];
    if xs[2].Pad? {
      assert xs[3] == xs[2..][1];
      assert xs == [Digit(xs[0].v), Digit(xs[1].v), Pad, Pad];
      TwoPaddedAgain(xs[0].v, xs[1].v);
    } else {
      assert xs == [Digit(xs[0].v), Digit(xs[1].v), Digit(xs[2].v), Pad];
      OnePaddedAgain(xs[0].v, xs[1].v, xs[2].v);
    }
  }

  /** One more group of four digits in front. */
  lemma FirstGroup(xs: seq<Symbol>)
    requires |xs| >= 4 && Digits(xs[..4]) && Survives(xs[4..])
    ensures Survives(xs)
  {
    assert forall i :: 0 <= i < 4 ==> xs[i] == xs[..4][i];
    var v0, v1, v2, v3, tail := xs[0].v, xs[1].v, xs[2].v, xs[3].v, xs[4..];
    assert xs == [Digit(v0), Digit(v1), Digit(v2), Digit(v3)] + tail;
    DecodedJoined(v0, v1, v2, v3, tail);
    EncodedJoined(v0, v1, v2, v3, Decoded(tail).value);
  }

  lemma {:induction false} CanonicalAgain(xs: seq<Symbol>)
    requires CanonicalSymbols(xs)
    ensures Survives(xs)
  {
    if |xs| > 4 {
      assert xs[..4] == xs[..|xs| - 1][..4] == xs[..|xs| - 2][..4];
      CanonicalGroup(xs);
      CanonicalAgain(xs[4..]);
      FirstGroup(xs);
    } else if |xs| == 4 {
      if Digits(xs) {
        assert xs[..4] == xs && xs[4..] == [];
        FirstGroup(xs);
      } else {
        PaddedGroupAgain(xs);
      }
    }
  }

  /** The canonical texts are the image of `Encode`, and the texts that decode and encode to themselves. */
  lemma CanonicalIff(s: string)
    ensures Canonical(s) <==> exists b :: Encode(b) == s
    ensures Canonical(s) <==> Decode(s).Some? && Encode(Decode(s).value) == s
  {
    if Canonical(s) {
      CanonicalAgain(ReadAll(s));
      ReadThenShow(s);
      assert Encode(Decode(s).value) == s;
    }
    forall b | Encode(b) == s ensures Canonical(s) {
      EncodedIsCanonical(b);
      ShowThenRead(Encoded(b));
    }
  }

  /** Encoding makes every non-empty input longer. */
  lemma {:induction false} EncodingGrows(b: seq<Byte>)
    ensures |b| <= |Encode(b)| && (b != [] ==> |b| < |Encode(b)|)
  {
    if |b| >= 3 { EncodingGrows(b[3..]); }
  }
}
