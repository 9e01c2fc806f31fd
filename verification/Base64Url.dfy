/** base64url text (section 5 of RFC 4648, without padding) as the runtime's `Buffer` reads
    and writes it: 24-bit groups of three bytes are four base-64 digits; a short last group
    is shifted left to a whole number of digits. */
module Base64Url {
  import opened Positional

  predicate IsChar(c: char) {
    'A' <= c <= 'Z' || 'a' <= c <= 'z' || '0' <= c <= '9' || c == '-' || c == '_'
  }

  predicate IsText(s: string) {
    forall i | 0 <= i < |s| :: IsChar(s[i])
  }

  type Sextet = d: nat | d < 64

  function CharOf(d: Sextet): (c: char)
    ensures IsChar(c)
  {
    if d < 26 then 'A' + d as char
    else if d < 52 then 'a' + (d - 26) as char
    else if d < 62 then '0' + (d - 52) as char
    else if d == 62 then '-' else '_'
  }

  function DigitOf(c: char): (d: Sextet)
    requires IsChar(c)
    ensures CharOf(d) == c
  {
    if 'A' <= c <= 'Z' then (c - 'A') as int
    else if 'a' <= c <= 'z' then (c - 'a') as int + 26
    else if '0' <= c <= '9' then (c - '0') as int + 52
    else if c == '-' then 62 else 63
  }

  const ALPHABET := "ABCDEFGHIJKLMNOPQRSTUVWXYZ" + "abcdefghijklmnopqrstuvwxyz" + "0123456789-_"

  lemma CharOfIsAlphabet(d: Sextet)
    ensures |ALPHABET| == 64 && CharOf(d) == ALPHABET[d]
  {
  }

  lemma DigitOfCharOf(d: Sextet)
    ensures DigitOf(CharOf(d)) == d
  {
  }

  function Text(ds: seq<Sextet>): (s: string)
    ensures |s| == |ds| && IsText(s)
  {
    seq(|ds|, i requires 0 <= i < |ds| => CharOf(ds[i]))
  }

  function Sextets(s: string): (ds: seq<Sextet>)
    requires IsText(s)
    ensures |ds| == |s|
  {
    seq(|s|, i requires 0 <= i < |s| => DigitOf(s[i]))
  }

  /** How far a group of `k` bytes is shifted to fill `k + 1` digits: 64^(k+1) / 256^k. */
  function Shift(k: nat): nat
    requires 1 <= k <= 3
  {
    if k == 1 then 16 else if k == 2 then 4 else 1
  }

  function EncodeGroup(g: seq<Byte>): (ds: seq<Sextet>)
    requires 1 <= |g| <= 3
    ensures |ds| == |g| + 1
  {
    Digits(Value(g, 256) * Shift(|g|), 64, |g| + 1)
  }

  function DecodeGroup(ds: seq<Sextet>): (g: seq<Byte>)
    requires 2 <= |ds| <= 4
    ensures |g| == |ds| - 1
  {
    Digits(Value(ds, 64) / Shift(|ds| - 1), 256, |ds| - 1)
  }

  function EncodeGroups(b: seq<Byte>): seq<Sextet> {
    if b == [] then []
    else if |b| <= 3 then EncodeGroup(b)
    else EncodeGroup(b[..3]) + EncodeGroups(b[3..])
  }

  /** A single trailing digit carries no whole byte and is dropped. */
  function DecodeGroups(ds: seq<Sextet>): seq<Byte> {
    if |ds| < 2 then []
    else if |ds| <= 4 then DecodeGroup(ds)
    else DecodeGroup(ds[..4]) + DecodeGroups(ds[4..])
  }

  function Encode(b: seq<Byte>): (s: string)
    ensures IsText(s)
  {
    Text(EncodeGroups(b))
  }

  function Decode(s: string): seq<Byte>
    requires IsText(s)
  {
    DecodeGroups(Sextets(s))
  }

  function EncodedLength(n: nat): nat {
    n / 3 * 4 + (if n % 3 == 0 then 0 else n % 3 + 1)
  }

  function DecodedLength(n: nat): nat {
    n / 4 * 3 + (if n % 4 < 2 then 0 else n % 4 - 1)
  }

  /** Text whose unused low bits are zero (section 3.5 of RFC 4648) and which has no
      dangling digit. */
  predicate IsCanonical(s: string)
    requires IsText(s)
  {
    match |s| % 4
    case 0 => true
    case 1 => false
    case 2 => DigitOf(s[|s| - 1]) % 16 == 0
    case _ => DigitOf(s[|s| - 1]) % 4 == 0
  }

  lemma ValueOfTwo(a: nat, b: nat, base: Base)
    ensures Value([a, b], base) == a * base + b
  {
    assert [a, b] == [a] + [b];
    ValueAppend([a], b, base);
    ValueOfOne(a, base);
  }

  lemma ValueOfThree(a: nat, b: nat, c: nat, base: Base)
    ensures Value([a, b, c], base) == (a * base + b) * base + c
  {
    assert [a, b, c] == [a, b] + [c];
    ValueAppend([a, b], c, base);
    ValueOfTwo(a, b, base);
  }

  lemma ValueOfFour(a: nat, b: nat, c: nat, d: nat, base: Base)
    ensures Value([a, b, c, d], base) == ((a * base + b) * base + c) * base + d
  {
    assert [a, b, c, d] == [a, b, c] + [d];
    ValueAppend([a, b, c], d, base);
    ValueOfThree(a, b, c, base);
  }

  /** The digits of a group, six bits each from the left, the last filled up with zeros. */
  lemma GroupBits(a: Byte, b: Byte, c: Byte)
    ensures EncodeGroup([a]) == [a / 4, a % 4 * 16]
    ensures EncodeGroup([a, b]) == [a / 4, a % 4 * 16 + b / 16, b % 16 * 4]
    ensures EncodeGroup([a, b, c]) == [a / 4, a % 4 * 16 + b / 16, b % 16 * 4 + c / 64, c % 64]
  {
    hide Value, Digits;
    ValueOfOne(a, 256);
    ValueOfTwo(a, b, 256);
    ValueOfThree(a, b, c, 256);
    ValueOfTwo(a / 4, a % 4 * 16, 64);
    ValueOfThree(a / 4, a % 4 * 16 + b / 16, b % 16 * 4, 64);
    ValueOfFour(a / 4, a % 4 * 16 + b / 16, b % 16 * 4 + c / 64, c % 64, 64);
    DigitsOfValue([a / 4, a % 4 * 16], 64);
    DigitsOfValue([a / 4, a % 4 * 16 + b / 16, b % 16 * 4], 64);
    DigitsOfValue([a / 4, a % 4 * 16 + b / 16, b % 16 * 4 + c / 64, c % 64], 64);
  }

  lemma SextetsOfText(ds: seq<Sextet>)
    ensures Sextets(Text(ds)) == ds
  {
    forall i | 0 <= i < |ds| ensures Sextets(Text(ds))[i] == ds[i] {
      DigitOfCharOf(ds[i]);
    }
  }

  lemma PowersOf256()
    ensures Pow(256, 1) == 256 && Pow(256, 2) == 0x1_0000 && Pow(256, 3) == 0x100_0000
    ensures Pow(64, 2) == 0x1000 && Pow(64, 3) == 0x4_0000 && Pow(64, 4) == 0x100_0000
  {
    assert Pow(256, 1) == 256 * Pow(256, 0);
    assert Pow(256, 2) == 256 * Pow(256, 1);
    assert Pow(256, 3) == 256 * Pow(256, 2);
    assert Pow(64, 1) == 64 * Pow(64, 0);
    assert Pow(64, 2) == 64 * Pow(64, 1);
    assert Pow(64, 3) == 64 * Pow(64, 2);
    assert Pow(64, 4) == 64 * Pow(64, 3);
  }

  lemma ShiftUndone(v: nat, k: nat)
    requires 1 <= k <= 3 && v < Pow(256, k)
    ensures v * Shift(k) < Pow(64, k + 1) && v * Shift(k) / Shift(k) == v
  {
    PowersOf256();
    hide Pow;
  }

  lemma DecodeEncodeGroup(g: seq<Byte>)
    requires 1 <= |g| <= 3
    ensures DecodeGroup(EncodeGroup(g)) == g
  {
    hide Digits, Value, Pow, Shift;
    ValueBound(g, 256);
    ShiftUndone(Value(g, 256), |g|);
    ValueOfDigits(Value(g, 256) * Shift(|g|), 64, |g| + 1);
    DigitsOfValue(g, 256);
  }

  /** The group's last digit has its unused bits clear. */
  predicate IsCanonicalGroup(ds: seq<Sextet>)
    requires 2 <= |ds| <= 4
  {
    ds[|ds| - 1] % Shift(|ds| - 1) == 0
  }

  lemma RoundDown(w: nat, last: nat, k: nat)
    requires 1 <= k <= 3
    ensures var v, s := w * 64 + last, Shift(k);
            v / s * s <= v && (v / s * s == v <==> last % s == 0)
  {
    if k == 1 {
      assert (w * 64 + last) / 16 == w * 4 + last / 16;
    } else if k == 2 {
      assert (w * 64 + last) / 4 == w * 16 + last / 4;
    }
  }

  lemma SameDigits(m: nat, n: nat, b: Base, width: nat)
    requires m < Pow(b, width) && n < Pow(b, width)
    ensures Digits(m, b, width) == Digits(n, b, width) <==> m == n
  {
    ValueOfDigits(m, b, width);
    ValueOfDigits(n, b, width);
  }

  lemma GroupValueBound(v: nat, k: nat)
    requires 1 <= k <= 3 && v < Pow(64, k + 1)
    ensures v / Shift(k) < Pow(256, k)
  {
    PowersOf256();
    if k == 1 {
    } else if k == 2 {
    } else {
    }
  }

  lemma EncodeDecodeGroup(ds: seq<Sextet>)
    requires 2 <= |ds| <= 4
    ensures EncodeGroup(DecodeGroup(ds)) == ds <==> IsCanonicalGroup(ds)
  {
    hide Digits, Pow;
    var k := |ds| - 1;
    var v := Value(ds, 64);
    ValueBound(ds, 64);
    GroupValueBound(v, k);
    ValueOfDigits(v / Shift(k), 256, k);
    RoundDown(Value(ds[..k], 64), ds[k], k);
    DigitsOfValue(ds, 64);
    SameDigits(v / Shift(k) * Shift(k), v, 64, k + 1);
  }

  lemma DecodeGroupsCons(head: seq<Sextet>, tail: seq<Sextet>)
    requires |head| == 4 && |tail| > 0
    ensures DecodeGroups(head + tail) == DecodeGroup(head) + DecodeGroups(tail)
  {
    assert (head + tail)[..4] == head && (head + tail)[4..] == tail;
  }

  lemma EncodeGroupsCons(head: seq<Byte>, tail: seq<Byte>)
    requires |head| == 3 && |tail| > 0
    ensures EncodeGroups(head + tail) == EncodeGroup(head) + EncodeGroups(tail)
  {
    assert (head + tail)[..3] == head && (head + tail)[3..] == tail;
  }

  lemma LengthsStep(n: nat)
    ensures EncodedLength(n + 3) == EncodedLength(n) + 4
    ensures DecodedLength(n + 4) == DecodedLength(n) + 3
    ensures (n + 4) % 4 == n % 4
  {
    assert (n + 3) / 3 == n / 3 + 1 && (n + 3) % 3 == n % 3;
    assert (n + 4) / 4 == n / 4 + 1;
  }

  lemma {:induction false} EncodeGroupsLength(b: seq<Byte>)
    ensures |EncodeGroups(b)| == EncodedLength(|b|)
  {
    if |b| > 3 {
      EncodeGroupsLength(b[3..]);
      LengthsStep(|b| - 3);
    }
  }

  lemma {:induction false} DecodeGroupsLength(ds: seq<Sextet>)
    ensures |DecodeGroups(ds)| == DecodedLength(|ds|)
  {
    if |ds| > 4 {
      DecodeGroupsLength(ds[4..]);
      LengthsStep(|ds| - 4);
    }
  }

  lemma {:induction false} DecodeEncodeGroups(b: seq<Byte>)
    ensures DecodeGroups(EncodeGroups(b)) == b
  {
    if b == [] {
    } else if |b| <= 3 {
      DecodeEncodeGroup(b);
    } else {
      DecodeEncodeGroup(b[..3]);
      DecodeEncodeGroups(b[3..]);
      assert EncodeGroups(b[3..]) != [];
      DecodeGroupsCons(EncodeGroup(b[..3]), EncodeGroups(b[3..]));
      assert b == b[..3] + b[3..];
    }
  }

  /** Decoding undoes encoding at every length. */
  lemma DecodeEncode(b: seq<Byte>)
    ensures Decode(Encode(b)) == b && |Encode(b)| == EncodedLength(|b|)
  {
    SextetsOfText(EncodeGroups(b));
    DecodeEncodeGroups(b);
    EncodeGroupsLength(b);
  }

  predicate IsCanonicalSextets(ds: seq<Sextet>) {
    match |ds| % 4
    case 0 => true
    case 1 => false
    case 2 => ds[|ds| - 1] % 16 == 0
    case _ => ds[|ds| - 1] % 4 == 0
  }

  lemma EncodeDecodeStep(first: seq<Sextet>, rest: seq<Sextet>)
    requires |first| == 4 && rest != []
    ensures EncodeGroups(DecodeGroups(first + rest)) == first + rest
            <==> EncodeGroups(DecodeGroups(rest)) == rest
  {
    var head, tail := DecodeGroup(first), DecodeGroups(rest);
    DecodeGroupsCons(first, rest);
    EncodeDecodeGroup(first);
    if tail == [] {
      assert head + tail == head;
    } else {
      EncodeGroupsCons(head, tail);
      var again := EncodeGroups(tail);
      assert (first + again)[4..] == again && (first + rest)[4..] == rest;
    }
  }

  lemma CanonicalSmall(ds: seq<Sextet>)
    requires 2 <= |ds| <= 4
    ensures IsCanonicalSextets(ds) <==> IsCanonicalGroup(ds)
    ensures DecodeGroups(ds) == DecodeGroup(ds) && EncodeGroups(DecodeGroup(ds)) == EncodeGroup(DecodeGroup(ds))
  {
    hide EncodeGroup, DecodeGroup;
    if |ds| == 2 {
      assert |ds| % 4 == 2 && Shift(|ds| - 1) == 16;
    } else if |ds| == 3 {
      assert |ds| % 4 == 3 && Shift(|ds| - 1) == 4;
    } else {
      assert |ds| % 4 == 0 && Shift(|ds| - 1) == 1;
    }
  }

  lemma EncodeDecodeSmall(ds: seq<Sextet>)
    requires |ds| <= 4
    ensures EncodeGroups(DecodeGroups(ds)) == ds <==> IsCanonicalSextets(ds)
  {
    if |ds| < 2 {
      assert DecodeGroups(ds) == [] && EncodeGroups([]) == [];
      assert |ds| == 0 <==> ds == [];
    } else {
      hide *;
      EncodeDecodeGroup(ds);
      CanonicalSmall(ds);
    }
  }

  lemma {:induction false} EncodeDecodeGroups(ds: seq<Sextet>)
    ensures EncodeGroups(DecodeGroups(ds)) == ds <==> IsCanonicalSextets(ds)
  {
    if |ds| <= 4 {
      EncodeDecodeSmall(ds);
    } else {
      assert ds == ds[..4] + ds[4..];
      EncodeDecodeGroups(ds[4..]);
      EncodeDecodeStep(ds[..4], ds[4..]);
      LengthsStep(|ds| - 4);
    }
  }

  /** The re-encode check accepts exactly the canonical texts, so one text per byte string. */
  lemma ReencodeCheck(s: string)
    requires IsText(s)
    ensures Encode(Decode(s)) == s <==> IsCanonical(s)
    ensures |Decode(s)| == DecodedLength(|s|)
  {
    EncodeDecodeGroups(Sextets(s));
    DecodeGroupsLength(Sextets(s));
    assert Text(Sextets(s)) == s;
    if Encode(Decode(s)) == s {
      SextetsOfText(EncodeGroups(Decode(s)));
    }
  }

  /** Texts of whole groups need no check: decoding them is injective. */
  lemma WholeGroupsBijective(s: string, t: string)
    requires IsText(s) && IsText(t) && |s| % 4 == 0 && |t| % 4 == 0
    ensures Decode(s) == Decode(t) <==> s == t
  {
    ReencodeCheck(s);
    ReencodeCheck(t);
  }
}
