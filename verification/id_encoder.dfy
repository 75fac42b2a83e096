/**
 * The id obfuscator of the dashboard's URLs: an entity id is written as the
 * base64 text (section 4 of RFC 4648) of its decimal form, and read back with
 * `atob` followed by `parseInt(_, 10)`. Thrown errors are `Err` results.
 */
module IdEncoder {
  import opened Wrappers
  import Text
  import Base64

  /** The two shapes `encode` accepts: a number or a string. */
  datatype Id = NumId(n: int) | StrId(s: string)

  const EncodeError := "Invalid ID provided for encoding"
  const DecodeError := "Invalid encoded ID provided"

  /** A string id goes through `parseInt(id, 10)`; `None` is `NaN`. */
  function NumericId(id: Id): (r: Option<int>)
    ensures id.NumId? ==> r == Some(id.n)
  {
    match id
    case NumId(n) => Some(n)
    case StrId(s) => Text.ParseInt(s)
  }

  /** The decimal form of an integer is a binary string, so `btoa` accepts it. */
  lemma DecimalIsBinary(n: int)
    ensures Base64.IsBinary(Text.IntToDecimal(n))
  {
    var d := Text.IntToDecimal(n);
    var m: nat := if n < 0 then -n else n;
    forall k | 0 <= k < |d| ensures d[k] as int < 256 {
      if n < 0 && k == 0 {
        assert d[k] == '-';
      } else if n < 0 {
        assert d[k] == Text.NatToDecimal(m)[k - 1];
      } else {
        assert d[k] == Text.NatToDecimal(m)[k];
      }
    }
  }

  /** `encode(id)`: the base64 text of the parsed id's decimal form; an id that
      parses to `NaN` is rejected with one fixed message. */
  function Encode(id: Id): (r: Result<string, string>)
    ensures r.Err? <==> NumericId(id).None?
    ensures r.Err? ==> r.error == EncodeError
    ensures r.Ok? ==> Base64.Btoa(Text.IntToDecimal(NumericId(id).value)) == Some(r.value)
    ensures r.Ok? ==> Base64.Atob(r.value) == Some(Text.IntToDecimal(NumericId(id).value))
  {
    match NumericId(id)
    case None => Err(EncodeError)
    case Some(n) =>
      var d := Text.IntToDecimal(n);
      DecimalIsBinary(n);
      Base64.AtobBtoa(d);
      Ok(Base64.Btoa(d).value)
  }

  /** The token is the padded RFC 4648 text: id 1 is "MQ==". */
  lemma EncodeOne()
    ensures Encode(NumId(1)) == Ok("MQ==")
  {
    var d := Text.IntToDecimal(1);
    assert d == ['1'];
    var b := Base64.ToBytes(d);
    assert b == [49];
    assert Base64.Alphabet(12) == 'M' && Base64.Alphabet(16) == 'Q';
    assert Base64.Encode(b) == ['M', 'Q', '=', '='];
  }

  /** Id 42 is "NDI=", with one padding character. */
  lemma EncodeFortyTwo()
    ensures Encode(NumId(42)) == Ok("NDI=")
  {
    var d := Text.IntToDecimal(42);
    assert Text.NatToDecimal(4) == ['4'];
    assert d == ['4', '2'];
    var b := Base64.ToBytes(d);
    assert b == [52, 50];
    assert Base64.Alphabet(13) == 'N' && Base64.Alphabet(3) == 'D' && Base64.Alphabet(8) == 'I';
    assert Base64.Encode(b) == ['N', 'D', 'I', '='];
  }

  /** `decode(token)`: `atob`, then `parseInt`; a token that is not base64 and
      one whose text is not a number both give the same fixed error. */
  function Decode(token: string): (r: Result<int, string>)
    ensures r.Err? ==> r.error == DecodeError
    ensures r.Err? <==> Base64.Atob(token).None? || Text.ParseInt(Base64.Atob(token).value).None?
  {
    match Base64.Atob(token)
    case None => Err(DecodeError)
    case Some(text) =>
      match Text.ParseInt(text)
      case None => Err(DecodeError)
      case Some(n) => Ok(n)
  }

  /** Every id that `encode` accepts comes back from `decode` as its parsed value;
      in particular `decode(encode(n)) == n` for every number `n`. */
  lemma DecodeEncode(id: Id)
    requires NumericId(id).Some?
    ensures Encode(id).Ok? && Decode(Encode(id).value) == Ok(NumericId(id).value)
  {
    var n := NumericId(id).value;
    Text.ParseIntDecimal(n, []);
    assert Text.IntToDecimal(n) + [] == Text.IntToDecimal(n);
  }

  /** A string id encodes like the number it starts with: "42abc" encodes as 42. */
  lemma {:induction false} EncodeStringPrefix(n: int, rest: string)
    requires rest == [] || !Text.IsDigit(rest[0])
    ensures Encode(StrId(Text.IntToDecimal(n) + rest)) == Encode(NumId(n))
  {
    Text.ParseIntDecimal(n, rest);
  }

  /** A token that is not base64 fails with the fixed message: here, alphabet
      text whose length is one more than a multiple of four. */
  lemma DecodeRejectsBadLength(token: string)
    requires |token| % 4 == 1 && forall k :: 0 <= k < |token| ==> Base64.IsBase64Char(token[k])
    ensures Decode(token) == Err(DecodeError)
  {
    assert Base64.RemoveWhitespace(token) == token;
  }

  /** A well-formed token whose text does not start with a number fails with the
      same fixed message, not with the inner one. */
  lemma DecodeRejectsNonNumber(text: string)
    requires Base64.IsBinary(text) && Text.ParseInt(text).None?
    ensures Decode(Base64.Btoa(text).value) == Err(DecodeError)
  {
    Base64.AtobBtoa(text);
  }
}
