/** Go's encoding/base64 for the two encodings in use: StdEncoding (section 4 of RFC 4648, padded)
    and RawURLEncoding (section 5 of RFC 4648, no padding). Decoding is Go's: it skips CR and LF and
    does not insist that the unused low bits of the last character are zero. */
module Base64 {
  import opened Text

  type Byte = b: int | 0 <= b < 256
  type Sextet = x: int | 0 <= x < 64

  datatype Variant = Std | RawUrl

  function Symbol(v: Variant, x: Sextet): char {
    if x < 26 then (x + 'A' as int) as char
    else if x < 52 then (x - 26 + 'a' as int) as char
    else if x < 62 then (x - 52 + '0' as int) as char
    else if x == 62 then (if v.Std? then '+' else '-')
    else (if v.Std? then '/' else '_')
  }

  function Index(v: Variant, c: char): Option<Sextet> {
    if 'A' <= c <= 'Z' then Some(c as int - 'A' as int)
    else if 'a' <= c <= 'z' then Some(c as int - 'a' as int + 26)
    else if '0' <= c <= '9' then Some(c as int - '0' as int + 52)
    else if c == (if v.Std? then '+' else '-') then Some(62)
    else if c == (if v.Std? then '/' else '_') then Some(63)
    else None
  }

  lemma SymbolIndex(v: Variant, x: Sextet)
    ensures Index(v, Symbol(v, x)) == Some(x)
    ensures Symbol(v, x) != '=' && Symbol(v, x) != '|' && Symbol(v, x) != '\r' && Symbol(v, x) != '\n'
  {
  }

  function Padding(v: Variant, n: nat): string {
    if v.RawUrl? then "" else seq(n, _ => '=')
  }

  function Encode(v: Variant, b: seq<Byte>): string {
    if |b| == 0 then ""
    else if |b| == 1 then
      [Symbol(v, b[0] / 4), Symbol(v, b[0] % 4 * 16)] + Padding(v, 2)
    else if |b| == 2 then
      [Symbol(v, b[0] / 4), Symbol(v, b[0] % 4 * 16 + b[1] / 16), Symbol(v, b[1] % 16 * 4)] + Padding(v, 1)
    else Quantum(v, b[0], b[1], b[2]) + Encode(v, b[3..])
  }

  function Quantum(v: Variant, b0: Byte, b1: Byte, b2: Byte): string {
    [Symbol(v, b0 / 4), Symbol(v, b0 % 4 * 16 + b1 / 16), Symbol(v, b1 % 16 * 4 + b2 / 64), Symbol(v, b2 % 64)]
  }

  function SkipNewlines(s: string): string {
    if s == "" then ""
    else if s[0] == '\r' || s[0] == '\n' then SkipNewlines(s[1..])
    else [s[0]] + SkipNewlines(s[1..])
  }

  function Byte0(x: Sextet, y: Sextet): Byte { x * 4 + y / 16 }
  function Byte1(y: Sextet, z: Sextet): Byte { y % 16 * 16 + z / 4 }
  function Byte2(z: Sextet, w: Sextet): Byte { z % 4 * 64 + w }

  /** Enc.DecodeString, after newlines are dropped. None is CorruptInputError. */
  function DecodeClean(v: Variant, s: string): Option<seq<Byte>> {
    if |s| == 0 then Some([])
    else if |s| == 1 then None
    else
      match (Index(v, s[0]), Index(v, s[1]))
      case (Some(x), Some(y)) =>
        if v.RawUrl? && |s| == 2 then Some([Byte0(x, y)])
        else if v.Std? && |s| == 4 && s[2] == '=' && s[3] == '=' then Some([Byte0(x, y)])
        else if |s| == 2 then None
        else (
          match Index(v, s[2])
          case None => None
          case Some(z) =>
            if v.RawUrl? && |s| == 3 then Some([Byte0(x, y), Byte1(y, z)])
            else if v.Std? && |s| == 4 && s[3] == '=' then Some([Byte0(x, y), Byte1(y, z)])
            else if |s| == 3 then None
            else
              match (Index(v, s[3]), DecodeClean(v, s[4..]))
              case (Some(w), Some(rest)) => Some([Byte0(x, y), Byte1(y, z), Byte2(z, w)] + rest)
              case _ => None)
      case _ => None
  }

  function Decode(v: Variant, s: string): Option<seq<Byte>> {
    DecodeClean(v, SkipNewlines(s))
  }

  /** Encoded text holds no newline and no '|'. */
  lemma {:induction false} EncodedCharacters(v: Variant, b: seq<Byte>)
    ensures forall k :: 0 <= k < |Encode(v, b)| ==>
              Encode(v, b)[k] != '|' && Encode(v, b)[k] != '\r' && Encode(v, b)[k] != '\n'
    decreases |b|
  {
    if |b| > 2 {
      EncodedCharacters(v, b[3..]);
    }
    forall x: Sextet {
      SymbolIndex(v, x);
    }
  }

  lemma NothingToSkip(s: string)
    requires forall k :: 0 <= k < |s| ==> s[k] != '\r' && s[k] != '\n'
    ensures SkipNewlines(s) == s
  {
  }

  lemma RegroupBits(b0: Byte, b1: Byte, b2: Byte)
    ensures Byte0(b0 / 4, b0 % 4 * 16 + b1 / 16) == b0
    ensures Byte1(b0 % 4 * 16 + b1 / 16, b1 % 16 * 4 + b2 / 64) == b1
    ensures Byte2(b1 % 16 * 4 + b2 / 64, b2 % 64) == b2
  {
  }

  lemma QuantumRoundTrip(v: Variant, b0: Byte, b1: Byte, b2: Byte, rest: string)
    ensures DecodeClean(v, Quantum(v, b0, b1, b2) + rest)
         == (match DecodeClean(v, rest) case Some(tail) => Some([b0, b1, b2] + tail) case None => None)
  {
    var x, y, z, w := b0 / 4, b0 % 4 * 16 + b1 / 16, b1 % 16 * 4 + b2 / 64, b2 % 64;
    SymbolIndex(v, x);
    SymbolIndex(v, y);
    SymbolIndex(v, z);
    SymbolIndex(v, w);
    RegroupBits(b0, b1, b2);
    assert (Quantum(v, b0, b1, b2) + rest)[4..] == rest;
  }

  lemma OneByteRoundTrip(v: Variant, b0: Byte)
    ensures DecodeClean(v, Encode(v, [b0])) == Some([b0])
  {
    var x, y := b0 / 4, b0 % 4 * 16;
    SymbolIndex(v, x);
    SymbolIndex(v, y);
    assert Encode(v, [b0]) == [Symbol(v, x), Symbol(v, y)] + Padding(v, 2);
    assert Byte0(x, y) == b0;
  }

  lemma TwoBytesRoundTrip(v: Variant, b0: Byte, b1: Byte)
    ensures DecodeClean(v, Encode(v, [b0, b1])) == Some([b0, b1])
  {
    var x, y, z := b0 / 4, b0 % 4 * 16 + b1 / 16, b1 % 16 * 4;
    SymbolIndex(v, x);
    SymbolIndex(v, y);
    SymbolIndex(v, z);
    assert Encode(v, [b0, b1]) == [Symbol(v, x), Symbol(v, y), Symbol(v, z)] + Padding(v, 1);
    assert Byte0(x, y) == b0 && Byte1(y, z) == b1;
  }

  lemma {:induction false} CleanRoundTrip(v: Variant, b: seq<Byte>)
    ensures DecodeClean(v, Encode(v, b)) == Some(b)
    decreases |b|
  {
    hide DecodeClean, Quantum;
    if b == [] {
      NothingRoundTrip(v);
    } else if |b| == 1 {
      OneByteRoundTrip(v, b[0]);
      assert b == [b[0]];
    } else if |b| == 2 {
      TwoBytesRoundTrip(v, b[0], b[1]);
      assert b == [b[0], b[1]];
    } else {
      CleanRoundTrip(v, b[3..]);
      QuantumRoundTrip(v, b[0], b[1], b[2], Encode(v, b[3..]));
      assert b == [b[0], b[1], b[2]] + b[3..];
    }
  }

  lemma NothingRoundTrip(v: Variant)
    ensures DecodeClean(v, Encode(v, [])) == Some([])
  {
  }

  /** Decoding what was encoded returns every byte sequence unchanged, in both encodings. */
  lemma RoundTrip(v: Variant, b: seq<Byte>)
    ensures Decode(v, Encode(v, b)) == Some(b)
  {
    EncodedCharacters(v, b);
    NothingToSkip(Encode(v, b));
    CleanRoundTrip(v, b);
  }
}
