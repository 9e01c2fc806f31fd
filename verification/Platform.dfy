/** What the codecs take from the runtime: byte encodings of text, and the cryptographic
    functions, of which only the output lengths are known. */
module Platform {
  import opened Positional
  import opened Results
  import Decimal
  import Utf8

  predicate IsAscii(s: string) {
    forall i | 0 <= i < |s| :: s[i] < 128 as char
  }

  function AsciiBytes(s: string): (b: seq<Byte>)
    requires IsAscii(s)
    ensures |b| == |s|
  {
    seq(|s|, i requires 0 <= i < |s| => s[i] as int)
  }

  predicate IsAsciiBytes(b: seq<Byte>) {
    forall i | 0 <= i < |b| :: b[i] < 128
  }

  function AsciiText(b: seq<Byte>): (s: string)
    requires IsAsciiBytes(b)
    ensures |s| == |b| && IsAscii(s)
  {
    seq(|b|, i requires 0 <= i < |b| => b[i] as char)
  }

  lemma AsciiTextOfBytes(s: string)
    requires IsAscii(s)
    ensures IsAsciiBytes(AsciiBytes(s)) && AsciiText(AsciiBytes(s)) == s
  {
  }

  /** `Buffer.byteLength(s, "utf8")`. */
  function Utf8Length(s: string): nat {
    if s == "" then 0
    else
      var c := s[|s| - 1] as int;
      Utf8Length(s[..|s| - 1]) + (if c < 0x80 then 1 else if c < 0x800 then 2 else if c < 0x1_0000 then 3 else 4)
  }

  lemma {:induction false} Utf8LengthOfAscii(s: string)
    requires IsAscii(s)
    ensures Utf8Length(s) == |s|
  {
    if s != "" {
      Utf8LengthOfAscii(s[..|s| - 1]);
    }
  }

  lemma {:induction false} LengthOfFirst(text: string)
    requires text != ""
    ensures Utf8Length(text) == |Utf8.EncodeChar(text[0])| + Utf8Length(text[1..])
  {
    var init := text[..|text| - 1];
    if init == "" {
      assert text[1..] == "";
    } else {
      LengthOfFirst(init);
      assert init[1..] == text[1..][..|text| - 2];
    }
  }

  /** It is the number of bytes of the encoding. */
  lemma {:induction false} LengthIsEncoded(text: string)
    ensures Utf8Length(text) == |Utf8.Encode(text)|
  {
    if text != "" {
      hide Utf8Length, Utf8.EncodeChar;
      LengthOfFirst(text);
      LengthIsEncoded(text[1..]);
    } else {
      assert Utf8Length(text) == 0;
    }
  }

  /** HMAC-SHA-256 of a key and a message. */
  type Hmac = f: (seq<Byte>, seq<Byte>) -> seq<Byte> | forall k, m :: |f(k, m)| == 32
    ghost witness (k: seq<Byte>, m: seq<Byte>) => seq<Byte>(32, _ => 0)

  /** SHA-256 of a message. */
  type Sha256 = f: seq<Byte> -> seq<Byte> | forall m :: |f(m)| == 32
    ghost witness (m: seq<Byte>) => seq<Byte>(32, _ => 0)

  lemma {:induction false} DecodeAscii(b: seq<Byte>)
    requires IsAsciiBytes(b)
    ensures Utf8.Decode(b) == AsciiText(b)
  {
    if b != [] {
      DecodeAscii(b[1..]);
      assert b == [b[0]] + b[1..];
      Utf8.DecodeCons([b[0]], b[1..]);
    }
  }

  /** `buffer.toString("utf8")`. */
  function DecodeUtf8(b: seq<Byte>): (text: string)
    ensures IsAsciiBytes(b) ==> text == AsciiText(b)
  {
    if IsAsciiBytes(b) then DecodeAscii(b); Utf8.Decode(b) else Utf8.Decode(b)
  }

  /** Two byte strings may share a text only where something was replaced. */
  predicate TellsApart(b: seq<Byte>, c: seq<Byte>, textOfB: string, textOfC: string) {
    textOfB == textOfC && !Utf8.HasReplacement(textOfB) ==> b == c
  }

  ghost predicate IsUtf8Decoder(f: seq<Byte> -> string) {
    && (forall b | IsAsciiBytes(b) :: f(b) == AsciiText(b))
    && (forall b, c :: TellsApart(b, c, f(b), f(c)))
  }

  lemma RuntimeDecodes()
    ensures IsUtf8Decoder(DecodeUtf8)
  {
    forall b, c ensures TellsApart(b, c, DecodeUtf8(b), DecodeUtf8(c)) {
      Utf8.EncodeDecode(b);
      Utf8.EncodeDecode(c);
    }
  }

  /** UTF-8 decoding, by the runtime or any other decoder that reads ASCII and loses nothing but
      what it replaces. */
  type Utf8Decoder = f: seq<Byte> -> string | IsUtf8Decoder(f)
    ghost witness (RuntimeDecodes(); DecodeUtf8)

  const RUNTIME: Utf8Decoder := (RuntimeDecodes(); DecodeUtf8)

  /** A Telegram user id as callers hold it. Numbers are integers here. */
  datatype TelegramUserId = Text(text: string) | BigInt(n: int) | Number(n: int)

  const MAX_SAFE_INTEGER: int := 0x1f_ffff_ffff_ffff
  const MAX_UINT64: int := 0xffff_ffff_ffff_ffff

  function NormalizeText(text: string): Option<string> {
    if 1 <= |text| <= 20 && Decimal.AllDigits(text) && text[0] != '0' then
      var parsed := Decimal.Parse(text);
      if parsed <= 0 || parsed > MAX_UINT64 then None else Some(Decimal.Print(parsed))
    else None
  }

  /** A negative number prints with a sign, which the digit pattern refuses. */
  function PrintInteger(n: int): string {
    if n < 0 then "-" + Decimal.Print(-n) else Decimal.Print(n)
  }

  function NormalizeTelegramUserId(value: TelegramUserId): Option<string> {
    match value
    case Text(text) => NormalizeText(text)
    case BigInt(n) => NormalizeText(PrintInteger(n))
    case Number(n) =>
      if n <= 0 || n > MAX_SAFE_INTEGER then None else NormalizeText(PrintInteger(n))
  }

  /** The three spellings of one id normalize alike, to its shortest decimal text. */
  lemma NormalizeAgrees(n: int)
    ensures NormalizeTelegramUserId(BigInt(n))
            == if 0 < n <= 18_446_744_073_709_551_615 then Some(Decimal.Print(n)) else None
    ensures NormalizeTelegramUserId(Number(n))
            == if 0 < n <= 9_007_199_254_740_991 then Some(Decimal.Print(n)) else None
    ensures 0 < n ==> NormalizeTelegramUserId(Text(Decimal.Print(n))) == NormalizeTelegramUserId(BigInt(n))
  {
    if 0 <= n {
      Decimal.ParsePrint(n);
      if n <= MAX_UINT64 {
        PowersOfTen();
        Decimal.PrintLength(n, 20);
      }
    }
  }

  lemma PowersOfTen()
    ensures Pow(10, 20) == 100_000_000_000_000_000_000
  {
    PowAdd(10, 5, 5);
    PowAdd(10, 10, 10);
  }

  /** Normalized text is a fixed point: digits only, no leading zero. */
  lemma NormalizeIdempotent(value: TelegramUserId)
    requires NormalizeTelegramUserId(value).Some?
    ensures var text := NormalizeTelegramUserId(value).value;
            && NormalizeTelegramUserId(Text(text)) == Some(text) && Decimal.AllDigits(text) && IsAscii(text)
            && (value.Text? ==> value.text == text)
  {
    var given := match value case Text(t) => t case BigInt(n) => PrintInteger(n) case Number(n) => PrintInteger(n);
    Decimal.PrintParse(given);
  }
}
