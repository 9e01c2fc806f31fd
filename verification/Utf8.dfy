/** UTF-8 (RFC 3629): the encoding of text, and the runtime's decoding of any bytes. Where bytes
    are not well-formed the decoder follows the WHATWG Encoding Standard: the longest prefix that
    could still have become a character is replaced by one U+FFFD. */
module Utf8 {
  import opened Positional

  const REPLACEMENT: char := '\U{FFFD}'

  function EncodeChar(c: char): (b: seq<Byte>)
    ensures 1 <= |b| <= 4
  {
    var x := c as int;
    if x < 0x80 then [x]
    else if x < 0x800 then [0xC0 + x / 64, 0x80 + x % 64]
    else if x < 0x1_0000 then [0xE0 + x / 4096, 0x80 + x / 64 % 64, 0x80 + x % 64]
    else [0xF0 + x / 262144, 0x80 + x / 4096 % 64, 0x80 + x / 64 % 64, 0x80 + x % 64]
  }

  function Encode(text: string): seq<Byte> {
    if text == "" then [] else EncodeChar(text[0]) + Encode(text[1..])
  }

  predicate HasReplacement(text: string) {
    REPLACEMENT in text
  }

  /** How many bytes must follow a lead byte; 0 for a byte that leads nothing. */
  function Tails(lead: Byte): nat {
    if 0xC2 <= lead < 0xE0 then 1 else if 0xE0 <= lead < 0xF0 then 2 else if 0xF0 <= lead < 0xF5 then 3 else 0
  }

  predicate IsTail(b: Byte) {
    0x80 <= b < 0xC0
  }

  /** What may follow a lead byte at once: no overlong form, no surrogate, nothing past U+10FFFF. */
  predicate IsSecond(lead: Byte, b: Byte) {
    match lead
    case 0xE0 => 0xA0 <= b < 0xC0
    case 0xED => 0x80 <= b < 0xA0
    case 0xF0 => 0x90 <= b < 0xC0
    case 0xF4 => 0x80 <= b < 0x90
    case _ => IsTail(b)
  }

  function Two(a: int, b: int): int {
    (a - 0xC0) * 64 + (b - 0x80)
  }

  function Three(a: int, b: int, c: int): int {
    ((a - 0xE0) * 64 + (b - 0x80)) * 64 + (c - 0x80)
  }

  function Four(a: int, b: int, c: int, d: int): int {
    (((a - 0xF0) * 64 + (b - 0x80)) * 64 + (c - 0x80)) * 64 + (d - 0x80)
  }

  datatype Unit = Unit(c: char, length: nat)

  /** The first character decoded from some bytes, and how many of them it takes up. */
  function Front(b: seq<Byte>): (u: Unit)
    requires b != []
    ensures 1 <= u.length <= |b| && u.length <= 4
  {
    if b[0] < 0x80 then Unit(b[0] as char, 1)
    else if Tails(b[0]) == 0 || |b| < 2 || !IsSecond(b[0], b[1]) then Unit(REPLACEMENT, 1)
    else if Tails(b[0]) == 1 then Unit(Two(b[0], b[1]) as char, 2)
    else if |b| < 3 || !IsTail(b[2]) then Unit(REPLACEMENT, 2)
    else if Tails(b[0]) == 2 then Unit(Three(b[0], b[1], b[2]) as char, 3)
    else if |b| < 4 || !IsTail(b[3]) then Unit(REPLACEMENT, 3)
    else Unit(Four(b[0], b[1], b[2], b[3]) as char, 4)
  }

  function Decode(b: seq<Byte>): string {
    if b == [] then "" else [Front(b).c] + Decode(b[Front(b).length..])
  }

  lemma ReadTwo(c: char)
    requires 0x80 <= c as int < 0x800
    ensures var b := EncodeChar(c);
            |b| == 2 && Tails(b[0]) == 1 && IsSecond(b[0], b[1]) && Two(b[0], b[1]) == c as int
  {
  }

  lemma ReadThree(c: char)
    requires 0x800 <= c as int < 0x1_0000
    ensures var b := EncodeChar(c);
            && |b| == 3 && Tails(b[0]) == 2 && IsSecond(b[0], b[1]) && IsTail(b[2])
            && Three(b[0], b[1], b[2]) == c as int
  {
    var x := c as int;
    assert x / 4096 == x / 64 / 64;
  }

  lemma ReadFour(c: char)
    requires 0x1_0000 <= c as int
    ensures var b := EncodeChar(c);
            && |b| == 4 && Tails(b[0]) == 3 && IsSecond(b[0], b[1]) && IsTail(b[2]) && IsTail(b[3])
            && Four(b[0], b[1], b[2], b[3]) == c as int
  {
    var x := c as int;
    assert x / 4096 == x / 64 / 64 && x / 262144 == x / 64 / 64 / 64;
  }

  /** A character is read back whatever follows it. */
  lemma FrontOfEncoded(c: char, rest: seq<Byte>)
    ensures Front(EncodeChar(c) + rest) == Unit(c, |EncodeChar(c)|)
  {
    if c as int >= 0x80 {
      hide EncodeChar, Two, Three, Four, IsSecond, IsTail;
      if c as int < 0x800 {
        ReadTwo(c);
      } else if c as int < 0x1_0000 {
        ReadThree(c);
      } else {
        ReadFour(c);
      }
    }
  }

  /** Decoding undoes encoding. */
  lemma {:induction false} DecodeEncode(text: string)
    ensures Decode(Encode(text)) == text
  {
    if text != "" {
      var head, rest := EncodeChar(text[0]), Encode(text[1..]);
      FrontOfEncoded(text[0], rest);
      DecodeEncode(text[1..]);
      assert (head + rest)[|head|..] == rest;
    }
  }

  lemma TwoBytes(a: Byte, b: Byte)
    requires Tails(a) == 1 && IsSecond(a, b)
    ensures EncodeChar(Two(a, b) as char) == [a, b]
  {
    DivideAppended(a - 0xC0, b - 0x80, 64);
  }

  lemma ThreeBytes(a: Byte, b: Byte, c: Byte)
    requires Tails(a) == 2 && IsSecond(a, b) && IsTail(c)
    ensures EncodeChar(Three(a, b, c) as char) == [a, b, c]
  {
    DivideAppended(a - 0xE0, b - 0x80, 64);
    DivideAppended((a - 0xE0) * 64 + (b - 0x80), c - 0x80, 64);
  }

  lemma FourBytes(a: Byte, b: Byte, c: Byte, d: Byte)
    requires Tails(a) == 3 && IsSecond(a, b) && IsTail(c) && IsTail(d)
    ensures EncodeChar(Four(a, b, c, d) as char) == [a, b, c, d]
  {
    DivideAppended(a - 0xF0, b - 0x80, 64);
    DivideAppended((a - 0xF0) * 64 + (b - 0x80), c - 0x80, 64);
    DivideAppended(((a - 0xF0) * 64 + (b - 0x80)) * 64 + (c - 0x80), d - 0x80, 64);
  }

  /** What decodes to a character other than the replacement is that character's encoding. */
  lemma FrontIsEncoded(b: seq<Byte>)
    requires b != [] && Front(b).c != REPLACEMENT
    ensures b[..Front(b).length] == EncodeChar(Front(b).c)
  {
    hide Two, Three, Four;
    match Front(b).length
    case 1 =>
    case 2 => TwoBytes(b[0], b[1]);
    case 3 => ThreeBytes(b[0], b[1], b[2]);
    case _ => FourBytes(b[0], b[1], b[2], b[3]);
  }

  lemma NothingReplaced(b: seq<Byte>)
    requires b != [] && !HasReplacement(Decode(b))
    ensures Front(b).c != REPLACEMENT && !HasReplacement(Decode(b[Front(b).length..]))
    ensures Decode(b) == [Front(b).c] + Decode(b[Front(b).length..])
  {
    hide Front;
    assert Decode(b)[0] == Front(b).c;
  }

  lemma EncodeCons(c: char, text: string)
    ensures Encode([c] + text) == EncodeChar(c) + Encode(text)
  {
    assert ([c] + text)[1..] == text;
  }

  /** Only the replacement character loses anything. */
  lemma {:induction false} EncodeDecode(b: seq<Byte>)
    ensures !HasReplacement(Decode(b)) ==> Encode(Decode(b)) == b
  {
    hide HasReplacement, Front, EncodeChar;
    if b != [] && !HasReplacement(Decode(b)) {
      hide *;
      var u := Front(b);
      var rest := b[u.length..];
      NothingReplaced(b);
      FrontIsEncoded(b);
      EncodeDecode(rest);
      EncodeCons(u.c, Decode(rest));
      assert Encode(Decode(b)) == b[..u.length] + rest == b;
    }
  }

  lemma DecodeCons(unit: seq<Byte>, rest: seq<Byte>)
    requires unit != [] && Front(unit + rest).length == |unit|
    ensures Decode(unit + rest) == [Front(unit + rest).c] + Decode(rest)
  {
    assert (unit + rest)[|unit|..] == rest;
  }

  lemma ReplacementAhead(b: seq<Byte>)
    requires b != [] && HasReplacement(Decode(b)) && Front(b).c != REPLACEMENT
    ensures HasReplacement(Decode(b[Front(b).length..]))
  {
    hide Front;
  }

  /** Bytes that stand for one replacement character, other than the given ones, which do too. */
  function OtherUnit(b: seq<Byte>, n: nat): (u: seq<Byte>)
    requires 1 <= n <= 3 && n <= |b|
    ensures |u| == n && u != b[..n]
  {
    if n == 1 then [if b[0] == 0xFF then 0xFE else 0xFF]
    else if n == 2 then [if b[0] == 0xE1 then 0xE2 else 0xE1, 0x80]
    else [if b[0] == 0xF1 then 0xF2 else 0xF1, 0x80, 0x80]
  }

  /** Other bytes, as many, that decode alike: the first bytes to be replaced give way to others.
      A stray tail byte after three such bytes would complete them, and gives way itself. */
  function Twin(b: seq<Byte>): (t: seq<Byte>)
    requires HasReplacement(Decode(b))
    ensures |t| == |b| && t != b
  {
    var n := Front(b).length;
    if Front(b).c != REPLACEMENT then
      ReplacementAhead(b);
      b[..n] + Twin(b[n..])
    else if n == 3 && |b| > 3 && IsTail(b[3]) then b[..3] + [0xFF] + b[4..]
    else OtherUnit(b, n) + b[n..]
  }

  /** A whole character is read the same way whatever follows it. */
  lemma FrontKept(b: seq<Byte>, rest: seq<Byte>)
    requires b != []
    requires var u := Front(b); u.c != REPLACEMENT || (u.length == 3 && |b| > 3 && IsTail(b[3]))
    ensures Front(b[..Front(b).length] + rest) == Front(b)
  {
    var u := Front(b);
    if u.c == REPLACEMENT {
      assert b[..3] == EncodeChar(REPLACEMENT);
    } else {
      FrontIsEncoded(b);
    }
    FrontOfEncoded(u.c, rest);
  }

  lemma OtherUnitReads(b: seq<Byte>, n: nat)
    requires b != [] && Front(b) == Unit(REPLACEMENT, n) && n <= 3
    requires n == 3 && |b| > 3 ==> !IsTail(b[3])
    ensures Front(OtherUnit(b, n) + b[n..]) == Unit(REPLACEMENT, n)
  {
    if |b| > n {
      assert (OtherUnit(b, n) + b[n..])[n] == b[n];
    }
  }

  lemma StrayByte(x: Byte, rest: seq<Byte>)
    requires IsTail(x) || x == 0xFF
    ensures Decode([x] + rest) == [REPLACEMENT] + Decode(rest)
  {
    DecodeCons([x], rest);
  }

  lemma ReplacedIsShort(b: seq<Byte>)
    ensures b != [] && Front(b).c == REPLACEMENT ==> Front(b).length <= 3
  {
  }

  lemma StrayTwin(b: seq<Byte>)
    requires |b| > 3 && Front(b) == Unit(REPLACEMENT, 3) && IsTail(b[3])
    ensures Decode(b[..3] + [0xFF] + b[4..]) == Decode(b)
  {
    hide Front, Decode;
    var rest := b[4..];
    FrontKept(b, [b[3]] + rest);
    FrontKept(b, [0xFF] + rest);
    DecodeCons(b[..3], [b[3]] + rest);
    DecodeCons(b[..3], [0xFF] + rest);
    StrayByte(b[3], rest);
    StrayByte(0xFF, rest);
    assert b == b[..3] + ([b[3]] + rest);
    assert b[..3] + [0xFF] + rest == b[..3] + ([0xFF] + rest);
  }

  lemma UnitTwin(b: seq<Byte>, n: nat)
    requires b != [] && Front(b) == Unit(REPLACEMENT, n) && n <= 3
    requires n == 3 && |b| > 3 ==> !IsTail(b[3])
    ensures Decode(OtherUnit(b, n) + b[n..]) == Decode(b)
  {
    hide Front, Decode, OtherUnit;
    OtherUnitReads(b, n);
    DecodeCons(OtherUnit(b, n), b[n..]);
    assert b == b[..n] + b[n..];
    DecodeCons(b[..n], b[n..]);
  }

  lemma TwinStep(b: seq<Byte>)
    requires HasReplacement(Decode(b))
    ensures b != []
    ensures Front(b).c != REPLACEMENT ==>
              var n := Front(b).length;
              HasReplacement(Decode(b[n..])) && Twin(b) == b[..n] + Twin(b[n..])
    ensures Front(b).c == REPLACEMENT ==>
              var n := Front(b).length;
              Twin(b) == if n == 3 && |b| > 3 && IsTail(b[3]) then b[..3] + [0xFF] + b[4..]
                         else OtherUnit(b, n) + b[n..]
  {
    assert b != [];
    ReplacedIsShort(b);
    hide Front, Decode, IsTail, OtherUnit, HasReplacement;
    if Front(b).c != REPLACEMENT {
      ReplacementAhead(b);
    }
  }

  /** No text with a U+FFFD in it tells its bytes. */
  lemma {:induction false} TwinDecodes(b: seq<Byte>)
    requires HasReplacement(Decode(b))
    ensures Decode(Twin(b)) == Decode(b)
  {
    hide *;
    TwinStep(b);
    var n := Front(b).length;
    if Front(b).c != REPLACEMENT {
      var other := Twin(b[n..]);
      TwinDecodes(b[n..]);
      FrontKept(b, other);
      DecodeCons(b[..n], other);
      assert b == b[..n] + b[n..];
      DecodeCons(b[..n], b[n..]);
    } else if n == 3 && |b| > 3 && IsTail(b[3]) {
      StrayTwin(b);
    } else {
      ReplacedIsShort(b);
      UnitTwin(b, n);
    }
  }

  /** A byte that never occurs in UTF-8 is replaced by itself. */
  lemma {:induction false} DecodeNever(x: Byte, n: nat)
    requires x >= 0xF5
    ensures Decode(seq(n, _ => x)) == seq(n, _ => REPLACEMENT)
  {
    if n > 0 {
      var rest := seq(n - 1, _ => x);
      assert seq(n, _ => x) == [x] + rest;
      DecodeCons([x], rest);
      DecodeNever(x, n - 1);
    }
  }
}
