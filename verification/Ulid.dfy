/** 26-character ULID text against 128-bit binary ids. */
module Ulid {
  import opened Positional
  import opened Results

  const ULID_ALPHABET := "0123456789ABCDEFGHJKMNPQRSTVWXYZ"

  const MAX_UINT128: nat := 0xffff_ffff_ffff_ffff_ffff_ffff_ffff_ffff

  predicate IsUlidChar(c: char) {
    '0' <= c <= '9' || 'A' <= c <= 'H' || 'J' <= c <= 'K' || 'M' <= c <= 'N' || 'P' <= c <= 'T' || 'V' <= c <= 'Z'
  }

  predicate IsUlidText(s: string) {
    forall i | 0 <= i < |s| :: IsUlidChar(s[i])
  }

  /** The repository's `isId`: 26 characters of the alphabet, with no bound on the value. */
  predicate IsId(s: string) {
    |s| == 26 && IsUlidText(s)
  }

  type UlidDigit = d: nat | d < 32

  function CharOf(d: UlidDigit): (c: char)
    ensures IsUlidChar(c)
  {
    if d < 10 then '0' + d as char
    else if d < 18 then 'A' + (d - 10) as char
    else if d < 20 then 'J' + (d - 18) as char
    else if d < 22 then 'M' + (d - 20) as char
    else if d < 27 then 'P' + (d - 22) as char
    else 'V' + (d - 27) as char
  }

  /** `ULID_ALPHABET.indexOf(c)`. */
  function IndexOf(c: char): (d: int)
    ensures IsUlidChar(c) ==> 0 <= d < 32 && CharOf(d) == c
    ensures !IsUlidChar(c) ==> d == -1
  {
    if '0' <= c <= '9' then (c - '0') as int
    else if 'A' <= c <= 'H' then (c - 'A') as int + 10
    else if 'J' <= c <= 'K' then (c - 'J') as int + 18
    else if 'M' <= c <= 'N' then (c - 'M') as int + 20
    else if 'P' <= c <= 'T' then (c - 'P') as int + 22
    else if 'V' <= c <= 'Z' then (c - 'V') as int + 27
    else -1
  }

  lemma CharOfIsAlphabet(d: UlidDigit)
    ensures |ULID_ALPHABET| == 32 && CharOf(d) == ULID_ALPHABET[d]
  {
  }

  lemma IndexOfCharOf(d: UlidDigit)
    ensures IndexOf(CharOf(d)) == d
  {
  }

  lemma CharOrder(d: UlidDigit, e: UlidDigit)
    ensures CharOf(d) < CharOf(e) <==> d < e
  {
  }

  function DigitsOf(s: string): (ds: seq<nat>)
    requires IsUlidText(s)
    ensures |ds| == |s| && IsNumeral(ds, 32)
  {
    seq(|s|, i requires 0 <= i < |s| => IndexOf(s[i]))
  }

  function TextOf(ds: seq<nat>): (s: string)
    requires IsNumeral(ds, 32)
    ensures |s| == |ds| && IsUlidText(s)
  {
    seq(|ds|, i requires 0 <= i < |ds| => CharOf(ds[i]))
  }

  /** The number an id spells in base 32. */
  function Number(id: string): nat
    requires IsUlidText(id)
  {
    Value(DigitsOf(id), 32)
  }

  function EncodeUlid(value: string): (r: Option<seq<Byte>>)
    ensures r.Some? ==> |r.value| == 16
  {
    if IsUlidText(value) && Number(value) <= MAX_UINT128 then Some(Digits(Number(value), 256, 16)) else None
  }

  function DecodeUlid(bytes: seq<Byte>): (id: string)
    ensures IsId(id)
  {
    TextOf(Digits(Value(bytes, 256), 32, 26))
  }

  lemma Powers()
    ensures Pow(256, 16) == MAX_UINT128 + 1
    ensures Pow(32, 25) * 8 == MAX_UINT128 + 1 && Pow(32, 26) == 4 * (MAX_UINT128 + 1)
  {
    PowAdd(256, 1, 1);
    PowAdd(256, 2, 2);
    PowAdd(256, 4, 4);
    PowAdd(256, 8, 8);
    assert Pow(32, 5) == 0x200_0000;
    PowAdd(32, 5, 5);
    PowAdd(32, 10, 10);
    PowAdd(32, 20, 5);
    assert Pow(32, 26) == 32 * Pow(32, 25);
  }

  lemma DigitsOfTextOf(ds: seq<nat>)
    requires IsNumeral(ds, 32)
    ensures DigitsOf(TextOf(ds)) == ds
  {
    forall i | 0 <= i < |ds| ensures DigitsOf(TextOf(ds))[i] == ds[i] {
      IndexOfCharOf(ds[i]);
    }
  }

  /** Every 16-byte string is the encoding of the id it decodes to. */
  lemma EncodeDecode(bytes: seq<Byte>)
    requires |bytes| == 16
    ensures EncodeUlid(DecodeUlid(bytes)) == Some(bytes)
  {
    var n := Value(bytes, 256);
    ValueBound(bytes, 256);
    Powers();
    DigitsOfTextOf(Digits(n, 32, 26));
    ValueOfDigits(n, 32, 26);
    DigitsOfValue(bytes, 256);
  }

  /** An id that encodes comes back unchanged. */
  lemma DecodeEncode(id: string)
    requires IsId(id) && EncodeUlid(id).Some?
    ensures DecodeUlid(EncodeUlid(id).value) == id
  {
    Powers();
    ValueOfDigits(Number(id), 256, 16);
    DigitsOfValue(DigitsOf(id), 32);
    assert TextOf(DigitsOf(id)) == id;
  }

  /** The ids that encode are exactly those whose first character is at most '7'. */
  lemma EncodesIff(id: string)
    requires IsId(id)
    ensures EncodeUlid(id).Some? <==> id[0] <= '7'
  {
    var ds := DigitsOf(id);
    Powers();
    assert ds == [ds[0]] + ds[1..];
    ValuePrepend(ds[0], ds[1..], 32);
    ValueBound(ds[1..], 32);
    CharOrder(ds[0], 7);
    CharOrder(7, ds[0]);
    var p := Pow(32, 25);
    if ds[0] <= 7 {
      MulMonotone(ds[0], 7, p);
    } else {
      MulMonotone(8, ds[0], p);
    }
  }

  /** The first id that does not encode. */
  lemma TooLargeId()
    ensures IsId("80000000000000000000000000") && EncodeUlid("80000000000000000000000000").None?
  {
    var id := "80000000000000000000000000";
    assert |id| == 26 && id[0] == '8' && forall i | 1 <= i < 26 :: id[i] == '0';
    EncodesIff(id);
  }

  ghost predicate TextLess(s: string, t: string)
    requires |s| == |t|
  {
    exists k :: 0 <= k < |s| && s[..k] == t[..k] && s[k] < t[k]
  }

  lemma SamePrefix(xs: seq<nat>, ys: seq<nat>, k: nat)
    requires k <= |xs| == |ys| && IsNumeral(xs, 32) && IsNumeral(ys, 32)
    ensures TextOf(xs)[..k] == TextOf(ys)[..k] <==> xs[..k] == ys[..k]
  {
    hide CharOf;
    var s, t := TextOf(xs), TextOf(ys);
    if s[..k] == t[..k] {
      forall i | 0 <= i < k ensures xs[i] == ys[i] {
        assert s[..k][i] == t[..k][i];
        IndexOfCharOf(xs[i]);
        IndexOfCharOf(ys[i]);
      }
    }
    if xs[..k] == ys[..k] {
      forall i | 0 <= i < k ensures s[i] == t[i] {
        assert xs[..k][i] == ys[..k][i];
      }
    }
  }

  lemma LessAt(xs: seq<nat>, ys: seq<nat>, k: nat)
    requires k < |xs| == |ys| && IsNumeral(xs, 32) && IsNumeral(ys, 32)
    ensures TextOf(xs)[..k] == TextOf(ys)[..k] && TextOf(xs)[k] < TextOf(ys)[k] <==>
            xs[..k] == ys[..k] && xs[k] < ys[k]
  {
    hide CharOf;
    SamePrefix(xs, ys, k);
    CharOrder(xs[k], ys[k]);
  }

  lemma TextOrder(xs: seq<nat>, ys: seq<nat>)
    requires |xs| == |ys| && IsNumeral(xs, 32) && IsNumeral(ys, 32)
    ensures TextLess(TextOf(xs), TextOf(ys)) <==> LexLess(xs, ys)
  {
    hide CharOf, TextOf;
    var s, t := TextOf(xs), TextOf(ys);
    if TextLess(s, t) {
      var k :| 0 <= k < |s| && s[..k] == t[..k] && s[k] < t[k];
      LessAt(xs, ys, k);
    }
    if LexLess(xs, ys) {
      var k :| 0 <= k < |xs| && xs[..k] == ys[..k] && xs[k] < ys[k];
      LessAt(xs, ys, k);
    }
  }

  /** Binary ids sort as their text does. */
  lemma OrderPreserved(a: seq<Byte>, b: seq<Byte>)
    requires |a| == 16 && |b| == 16
    ensures TextLess(DecodeUlid(a), DecodeUlid(b)) <==> LexLess(a, b)
  {
    var m, n := Value(a, 256), Value(b, 256);
    ValueBound(a, 256);
    ValueBound(b, 256);
    Powers();
    ValueOfDigits(m, 32, 26);
    ValueOfDigits(n, 32, 26);
    ValueOrder(a, b, 256);
    ValueOrder(Digits(m, 32, 26), Digits(n, 32, 26), 32);
    TextOrder(Digits(m, 32, 26), Digits(n, 32, 26));
  }

  lemma NumberAppend(s: string)
    requires s != "" && IsUlidText(s)
    ensures Number(s) == Number(s[..|s| - 1]) * 32 + IndexOf(s[|s| - 1])
  {
    assert DigitsOf(s)[..|s| - 1] == DigitsOf(s[..|s| - 1]);
  }

  /** The encoder: fold the text into one number, then write it from the last byte back. */
  method EncodeUlidBytes(value: string) returns (r: Option<seq<Byte>>)
    ensures r == EncodeUlid(value)
  {
    var numeric: nat := 0;
    for i := 0 to |value|
      invariant IsUlidText(value[..i]) && numeric == Number(value[..i])
    {
      var digit := IndexOf(value[i]);
      if digit < 0 {
        return None;
      }
      assert IsUlidText(value[..i + 1]);
      NumberAppend(value[..i + 1]);
      assert value[..i + 1][..i] == value[..i];
      numeric := numeric * 32 + digit;
    }
    assert value[..|value|] == value;
    if numeric > MAX_UINT128 {
      return None;
    }
    ghost var whole := numeric;
    var bytes := new Byte[16](_ => 0);
    var index := 15;
    while index >= 0
      invariant -1 <= index <= 15
      invariant Digits(whole, 256, 16) == Digits(numeric, 256, index + 1) + bytes[index + 1..]
    {
      bytes[index] := numeric % 256;
      assert bytes[index..] == [bytes[index]] + bytes[index + 1..];
      assert Digits(numeric, 256, index + 1) == Digits(numeric / 256, 256, index) + [numeric % 256];
      numeric := numeric / 256;
      index := index - 1;
    }
    assert Digits(numeric, 256, 0) + bytes[0..] == bytes[..];
    return Some(bytes[..]);
  }

  /** The decoder: fold the bytes into one number, then peel 26 digits off its low end. */
  method DecodeUlidText(bytes: array<Byte>) returns (value: string)
    ensures value == DecodeUlid(bytes[..])
  {
    var numeric: nat := 0;
    for i := 0 to bytes.Length
      invariant numeric == Value(bytes[..i], 256)
    {
      assert bytes[..i + 1][..i] == bytes[..i];
      numeric := numeric * 256 + bytes[i];
    }
    assert bytes[..bytes.Length] == bytes[..];
    ghost var whole := numeric;
    value := "";
    for index := 0 to 26
      invariant TextOf(Digits(whole, 32, 26)) == TextOf(Digits(numeric, 32, 26 - index)) + value
    {
      assert TextOf(Digits(numeric, 32, 26 - index))
          == TextOf(Digits(numeric / 32, 32, 25 - index)) + [CharOf(numeric % 32)];
      value := [CharOf(numeric % 32)] + value;
      numeric := numeric / 32;
    }
  }
}
