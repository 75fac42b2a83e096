/**
 * The browser's `btoa` and `atob`: base64 with the alphabet and padding of
 * section 4 of RFC 4648, and the "forgiving-base64 decode" of the WHATWG Infra
 * standard (ASCII white space ignored, padding optional, stray bits dropped).
 * Strings handed to and returned by these functions are "binary strings":
 * one character per byte.
 */
module Base64 {
  import opened Wrappers
  import Seqs

  type Byte = b: int | 0 <= b < 256

  /** The character for a six-bit value (RFC 4648, section 4, Table 1). */
  function Alphabet(i: int): (c: char)
    requires 0 <= i < 64
    ensures IsBase64Char(c)
  {
    if i < 26 then ('A' as int + i) as char
    else if i < 52 then ('a' as int + (i - 26)) as char
    else if i < 62 then ('0' as int + (i - 52)) as char
    else if i == 62 then '+'
    else '/'
  }

  predicate IsBase64Char(c: char) {
    ('A' <= c <= 'Z') || ('a' <= c <= 'z') || ('0' <= c <= '9') || c == '+' || c == '/'
  }

  /** The six-bit value of an alphabet character; inverse of Alphabet. */
  function Index(c: char): (i: int)
    ensures 0 <= i < 64
    ensures IsBase64Char(c) ==> Alphabet(i) == c
  {
    if 'A' <= c <= 'Z' then c as int - 'A' as int
    else if 'a' <= c <= 'z' then c as int - 'a' as int + 26
    else if '0' <= c <= '9' then c as int - '0' as int + 52
    else if c == '+' then 62
    else if c == '/' then 63
    else 0
  }

  lemma IndexOfAlphabet(i: int)
    requires 0 <= i < 64
    ensures Index(Alphabet(i)) == i
  {
  }

  /** The four characters for three bytes: 24 bits cut into four six-bit values. */
  function Group(b0: Byte, b1: Byte, b2: Byte): (r: string)
    ensures |r| == 4
  {
    [Alphabet(b0 / 4), Alphabet((b0 % 4) * 16 + b1 / 16), Alphabet((b1 % 16) * 4 + b2 / 64), Alphabet(b2 % 64)]
  }

  /** Base64 of a byte string: each group of three bytes gives four characters;
      a final group of one or two bytes is padded with "==" or "=". */
  function Encode(b: seq<Byte>): (r: string)
  {
    if |b| == 0 then ""
    else if |b| == 1 then [Alphabet(b[0] / 4), Alphabet((b[0] % 4) * 16), '=', '=']
    else if |b| == 2 then
      [Alphabet(b[0] / 4), Alphabet((b[0] % 4) * 16 + b[1] / 16), Alphabet((b[1] % 16) * 4), '=']
    else
      Group(b[0], b[1], b[2]) + Encode(b[3..])
  }

  /** Encode without the trailing "=" characters. */
  function EncodeUnpadded(b: seq<Byte>): (r: string)
    ensures b != [] ==> r != []
  {
    if |b| == 0 then ""
    else if |b| == 1 then [Alphabet(b[0] / 4), Alphabet((b[0] % 4) * 16)]
    else if |b| == 2 then
      [Alphabet(b[0] / 4), Alphabet((b[0] % 4) * 16 + b[1] / 16), Alphabet((b[1] % 16) * 4)]
    else
      Group(b[0], b[1], b[2]) + EncodeUnpadded(b[3..])
  }

  lemma AddFour(x: int)
    ensures (x + 4) % 4 == x % 4
  {
  }

  lemma {:induction false} EncodedLength(b: seq<Byte>)
    ensures |Encode(b)| % 4 == 0
  {
    if |b| > 2 {
      EncodedLength(b[3..]);
      assert |Encode(b)| == |Encode(b[3..])| + 4;
      AddFour(|Encode(b[3..])|);
    }
  }

  lemma {:induction false} UnpaddedLength(b: seq<Byte>)
    ensures |EncodeUnpadded(b)| % 4 != 1
  {
    if |b| > 2 {
      UnpaddedLength(b[3..]);
      assert |EncodeUnpadded(b)| == |EncodeUnpadded(b[3..])| + 4;
      AddFour(|EncodeUnpadded(b[3..])|);
    }
  }

  lemma {:induction false} UnpaddedAlphabet(b: seq<Byte>)
    ensures forall k :: 0 <= k < |EncodeUnpadded(b)| ==> IsBase64Char(EncodeUnpadded(b)[k])
  {
    if |b| > 2 {
      UnpaddedAlphabet(b[3..]);
      var g := Group(b[0], b[1], b[2]);
      assert forall k :: 0 <= k < 4 ==> IsBase64Char(g[k]);
    }
  }

  /** What `atob` checks of its input holds of `btoa`'s output: a length that is a
      multiple of four, and only alphabet characters before the padding. */
  lemma EncodedShape(b: seq<Byte>)
    ensures |Encode(b)| % 4 == 0
    ensures |EncodeUnpadded(b)| % 4 != 1
    ensures forall k :: 0 <= k < |EncodeUnpadded(b)| ==> IsBase64Char(EncodeUnpadded(b)[k])
  {
    EncodedLength(b);
    UnpaddedLength(b);
    UnpaddedAlphabet(b);
  }

  function Padding(n: nat): string {
    if n % 3 == 1 then "==" else if n % 3 == 2 then "=" else ""
  }

  lemma PaddingPeriodic(n: nat)
    ensures Padding(n + 3) == Padding(n)
  {
    assert (n + 3) % 3 == n % 3;
  }

  lemma {:induction false} EncodeIsUnpaddedPlusPadding(b: seq<Byte>)
    ensures Encode(b) == EncodeUnpadded(b) + Padding(|b|)
  {
    if |b| > 2 {
      var g := Group(b[0], b[1], b[2]);
      EncodeIsUnpaddedPlusPadding(b[3..]);
      assert |b| == |b[3..]| + 3;
      PaddingPeriodic(|b[3..]|);
      Seqs.Associative(g, EncodeUnpadded(b[3..]), Padding(|b|));
    }
  }

  /** Decoding of padding-free alphabet text: four characters give three bytes,
      a final two or three give one or two bytes (the leftover bits are dropped). */
  function DecodeChars(cs: string): (r: seq<Byte>)
  {
    if |cs| < 2 then []
    else if |cs| == 2 then [Index(cs[0]) * 4 + Index(cs[1]) / 16]
    else if |cs| == 3 then
      [Index(cs[0]) * 4 + Index(cs[1]) / 16, (Index(cs[1]) % 16) * 16 + Index(cs[2]) / 4]
    else
      [Index(cs[0]) * 4 + Index(cs[1]) / 16, (Index(cs[1]) % 16) * 16 + Index(cs[2]) / 4,
       (Index(cs[2]) % 4) * 64 + Index(cs[3])] + DecodeChars(cs[4..])
  }

  predicate IsAsciiWhitespace(c: char) {
    c == '\t' || c == '\n' || c as int == 0x0C || c == '\r' || c == ' '
  }

  function RemoveWhitespace(s: string): (r: string)
    ensures forall k :: 0 <= k < |r| ==> !IsAsciiWhitespace(r[k])
    ensures (forall k :: 0 <= k < |s| ==> !IsAsciiWhitespace(s[k])) ==> r == s
  {
    if s == [] then []
    else if IsAsciiWhitespace(s[0]) then RemoveWhitespace(s[1..])
    else [s[0]] + RemoveWhitespace(s[1..])
  }

  /** When the length is a multiple of four, one or two trailing "=" are dropped. */
  function StripPadding(data: string): string {
    if |data| % 4 == 0 && |data| >= 2 && data[|data| - 2..] == "==" then data[..|data| - 2]
    else if |data| % 4 == 0 && |data| >= 1 && data[|data| - 1] == '=' then data[..|data| - 1]
    else data
  }

  /** Forgiving-base64 decode: `None` is the failure that makes `atob` throw. */
  function Decode(s: string): (r: Option<seq<Byte>>)
    ensures r.Some? ==> (forall k :: 0 <= k < |StripPadding(RemoveWhitespace(s))| ==>
                          IsBase64Char(StripPadding(RemoveWhitespace(s))[k]))
  {
    var data := StripPadding(RemoveWhitespace(s));
    if |data| % 4 == 1 then None
    else if exists k :: 0 <= k < |data| && !IsBase64Char(data[k]) then None
    else Some(DecodeChars(data))
  }

  lemma GroupRoundTrip(b0: Byte, b1: Byte, b2: Byte)
    ensures var c0, c1, c2, c3 := b0 / 4, (b0 % 4) * 16 + b1 / 16, (b1 % 16) * 4 + b2 / 64, b2 % 64;
      c0 * 4 + c1 / 16 == b0 && (c1 % 16) * 16 + c2 / 4 == b1 && (c2 % 4) * 64 + c3 == b2
  {
  }

  lemma DecodeOneByte(b0: Byte)
    ensures DecodeChars(EncodeUnpadded([b0])) == [b0]
  {
    var c0, c1 := b0 / 4, (b0 % 4) * 16;
    IndexOfAlphabet(c0);
    IndexOfAlphabet(c1);
    GroupRoundTrip(b0, 0, 0);
  }

  lemma DecodeTwoBytes(b0: Byte, b1: Byte)
    ensures DecodeChars(EncodeUnpadded([b0, b1])) == [b0, b1]
  {
    var c0, c1, c2 := b0 / 4, (b0 % 4) * 16 + b1 / 16, (b1 % 16) * 4;
    IndexOfAlphabet(c0);
    IndexOfAlphabet(c1);
    IndexOfAlphabet(c2);
    GroupRoundTrip(b0, b1, 0);
  }

  /** The three bytes that four alphabet characters stand for. */
  function Quad(c0: char, c1: char, c2: char, c3: char): seq<Byte>
  {
    [Index(c0) * 4 + Index(c1) / 16, (Index(c1) % 16) * 16 + Index(c2) / 4, (Index(c2) % 4) * 64 + Index(c3)]
  }

  lemma DecodeCharsStep(cs: string)
    requires |cs| >= 4
    ensures DecodeChars(cs) == Quad(cs[0], cs[1], cs[2], cs[3]) + DecodeChars(cs[4..])
  {
  }

  lemma QuadOfGroup(b0: Byte, b1: Byte, b2: Byte)
    ensures var g := Group(b0, b1, b2); Quad(g[0], g[1], g[2], g[3]) == [b0, b1, b2]
  {
    var c0, c1, c2, c3 := b0 / 4, (b0 % 4) * 16 + b1 / 16, (b1 % 16) * 4 + b2 / 64, b2 % 64;
    IndexOfAlphabet(c0);
    IndexOfAlphabet(c1);
    IndexOfAlphabet(c2);
    IndexOfAlphabet(c3);
    GroupRoundTrip(b0, b1, b2);
  }

  lemma DecodeAfterGroup(b0: Byte, b1: Byte, b2: Byte, r: string)
    ensures DecodeChars(Group(b0, b1, b2) + r) == [b0, b1, b2] + DecodeChars(r)
  {
    var g := Group(b0, b1, b2);
    var cs := g + r;
    assert cs[4..] == r;
    assert cs[..4] == g;
    DecodeCharsStep(cs);
    QuadOfGroup(b0, b1, b2);
  }

  lemma DecodeFullGroup(b: seq<Byte>)
    requires |b| > 2
    ensures DecodeChars(EncodeUnpadded(b)) == [b[0], b[1], b[2]] + DecodeChars(EncodeUnpadded(b[3..]))
  {
    var r := EncodeUnpadded(b[3..]);
    assert EncodeUnpadded(b) == Group(b[0], b[1], b[2]) + r;
    DecodeAfterGroup(b[0], b[1], b[2], r);
  }

  lemma DecodeFullStep(b0: Byte, b1: Byte, b2: Byte, rest: seq<Byte>)
    requires DecodeChars(EncodeUnpadded(rest)) == rest
    ensures DecodeChars(EncodeUnpadded([b0, b1, b2] + rest)) == [b0, b1, b2] + rest
  {
    var b := [b0, b1, b2] + rest;
    assert b[3..] == rest;
    DecodeFullGroup(b);
  }

  lemma {:induction false} DecodeEncodeUnpadded(b: seq<Byte>)
    ensures DecodeChars(EncodeUnpadded(b)) == b
  {
    if |b| == 1 {
      DecodeOneByte(b[0]);
      assert b == [b[0]];
    } else if |b| == 2 {
      DecodeTwoBytes(b[0], b[1]);
      assert b == [b[0], b[1]];
    } else if |b| > 2 {
      DecodeEncodeUnpadded(b[3..]);
      DecodeFullStep(b[0], b[1], b[2], b[3..]);
      Seqs.FirstThree(b);
    }
  }

  lemma StripPaddingOfEncode(b: seq<Byte>)
    ensures StripPadding(Encode(b)) == EncodeUnpadded(b)
  {
    EncodedShape(b);
    EncodeIsUnpaddedPlusPadding(b);
    var u := EncodeUnpadded(b);
    var e := Encode(b);
    if |b| % 3 == 1 {
      assert e == u + "==";
      assert e[|e| - 2..] == "==";
      assert e[..|e| - 2] == u;
    } else if |b| % 3 == 2 {
      assert e == u + "=";
      assert e[|e| - 2..] != "==" by { assert e[|e| - 2] == u[|u| - 1]; }
      assert e[..|e| - 1] == u;
    } else {
      assert e == u;
      if |e| >= 1 {
        assert e[|e| - 1] != '=';
        assert e[|e| - 2..] != "==" by { assert e[|e| - 1] == u[|u| - 1]; }
      }
    }
  }

  /** Decoding undoes encoding for every byte string. */
  lemma DecodeEncode(b: seq<Byte>)
    ensures Decode(Encode(b)) == Some(b)
  {
    var e, u := Encode(b), EncodeUnpadded(b);
    EncodedShape(b);
    EncodeIsUnpaddedPlusPadding(b);
    assert RemoveWhitespace(e) == e by {
      forall k | 0 <= k < |e| ensures !IsAsciiWhitespace(e[k]) {
        if k < |u| {
          assert e[k] == u[k];
        } else {
          assert e[k] == '=';
        }
      }
    }
    StripPaddingOfEncode(b);
    DecodeEncodeUnpadded(b);
  }

  /** A binary string: every character fits in one byte. */
  predicate IsBinary(s: string) {
    forall k :: 0 <= k < |s| ==> s[k] as int < 256
  }

  function ToBytes(s: string): (r: seq<Byte>)
    requires IsBinary(s)
    ensures |r| == |s| && forall k :: 0 <= k < |s| ==> r[k] == s[k] as int
  {
    seq(|s|, k requires 0 <= k < |s| => s[k] as int as Byte)
  }

  function FromBytes(b: seq<Byte>): (r: string)
    ensures IsBinary(r)
    ensures |r| == |b| && forall k :: 0 <= k < |b| ==> r[k] as int == b[k]
  {
    seq(|b|, k requires 0 <= k < |b| => b[k] as char)
  }

  /** `btoa(s)`: `None` when a character does not fit in one byte (InvalidCharacterError). */
  function Btoa(s: string): (r: Option<string>)
    ensures r.Some? <==> IsBinary(s)
    ensures r.Some? ==> r.value == Encode(ToBytes(s))
  {
    if IsBinary(s) then Some(Encode(ToBytes(s))) else None
  }

  /** `atob(s)`: `None` when `s` is not forgiving-base64 (InvalidCharacterError). */
  function Atob(s: string): (r: Option<string>)
    ensures r.Some? ==> IsBinary(r.value)
  {
    match Decode(s)
    case None => None
    case Some(b) => Some(FromBytes(b))
  }

  /** `atob(btoa(s)) == s` for every binary string. */
  lemma AtobBtoa(s: string)
    requires IsBinary(s)
    ensures Btoa(s).Some? && Atob(Btoa(s).value) == Some(s)
  {
    DecodeEncode(ToBytes(s));
    assert FromBytes(ToBytes(s)) == s;
  }
}
