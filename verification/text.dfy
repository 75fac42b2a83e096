/**
 * String operations the dashboard uses from the JavaScript runtime:
 * lower-casing (ASCII letters only), `startsWith`, `includes`, the decimal
 * form of an integer, `parseInt(s, 10)` and `split('/')`.
 */
module Text {
  import opened Wrappers

  function LowerChar(c: char): char {
    if 'A' <= c <= 'Z' then (c as int + 32) as char else c
  }

  /** `toLowerCase()`, restricted to the ASCII letters. */
  function Lower(s: string): (r: string)
    ensures |r| == |s|
    ensures forall i :: 0 <= i < |s| ==> r[i] == LowerChar(s[i])
  {
    seq(|s|, i requires 0 <= i < |s| => LowerChar(s[i]))
  }

  /** `s.startsWith(p)`. */
  predicate IsPrefix(p: string, s: string) {
    |p| <= |s| && s[..|p|] == p
  }

  /** `s.includes(sub)`: tries each starting position from the left. */
  predicate Contains(s: string, sub: string)
    decreases |s|
  {
    IsPrefix(sub, s) || (s != [] && Contains(s[1..], sub))
  }

  /** `sub` occurs in `s` at position `i`. */
  predicate OccursAt(s: string, sub: string, i: int) {
    0 <= i && i + |sub| <= |s| && s[i..i + |sub|] == sub
  }

  /** `includes` finds `sub` exactly when it occurs somewhere in `s`. */
  lemma {:induction false} ContainsIff(s: string, sub: string)
    ensures Contains(s, sub) <==> exists i :: OccursAt(s, sub, i)
    decreases |s|
  {
    if IsPrefix(sub, s) {
      assert OccursAt(s, sub, 0);
    } else if s == [] {
      assert |sub| > 0;
    } else {
      ContainsIff(s[1..], sub);
      if Contains(s[1..], sub) {
        var i :| OccursAt(s[1..], sub, i);
        assert s[1..][i..i + |sub|] == s[i + 1..i + 1 + |sub|];
        assert OccursAt(s, sub, i + 1);
      } else {
        forall i | 0 < i ensures !OccursAt(s, sub, i) {
          if i + |sub| <= |s| {
            assert s[1..][i - 1..i - 1 + |sub|] == s[i..i + |sub|];
            assert !OccursAt(s[1..], sub, i - 1);
          }
        }
        assert !OccursAt(s, sub, 0);
      }
    }
  }

  predicate IsDigit(c: char) {
    '0' <= c <= '9'
  }

  function DigitChar(d: int): (c: char)
    requires 0 <= d < 10
    ensures IsDigit(c) && c as int - '0' as int == d
  {
    (d + '0' as int) as char
  }

  function DigitValue(c: char): (d: int)
    requires IsDigit(c)
    ensures 0 <= d < 10
  {
    c as int - '0' as int
  }

  /** Decimal digits of a natural number, most significant first, no leading zeros. */
  function NatToDecimal(n: nat): (r: string)
    ensures |r| >= 1
    ensures forall i :: 0 <= i < |r| ==> IsDigit(r[i])
    ensures |r| > 1 ==> r[0] != '0'
  {
    if n < 10 then [DigitChar(n)] else NatToDecimal(n / 10) + [DigitChar(n % 10)]
  }

  /** `n.toString()` for an integer `n`. */
  function IntToDecimal(n: int): (r: string)
    ensures |r| >= 1
    ensures n >= 0 ==> r == NatToDecimal(n)
    ensures n < 0 ==> r == "-" + NatToDecimal(-n)
  {
    if n < 0 then "-" + NatToDecimal(-n) else NatToDecimal(n)
  }

  /** The value of a string of decimal digits (most significant first). */
  function DigitsValue(ds: string): (v: nat)
    requires forall i :: 0 <= i < |ds| ==> IsDigit(ds[i])
  {
    if ds == [] then 0 else DigitsValue(ds[..|ds| - 1]) * 10 + DigitValue(ds[|ds| - 1])
  }

  lemma {:induction false} DigitsValueOfDecimal(n: nat)
    ensures DigitsValue(NatToDecimal(n)) == n
  {
    var r := NatToDecimal(n);
    if n >= 10 {
      DigitsValueOfDecimal(n / 10);
      assert r[..|r| - 1] == NatToDecimal(n / 10);
    }
  }

  /** The longest prefix of `s` made of decimal digits. */
  function LeadingDigits(s: string): (r: string)
    ensures IsPrefix(r, s)
    ensures forall i :: 0 <= i < |r| ==> IsDigit(s[i])
    ensures |r| < |s| ==> !IsDigit(s[|r|])
  {
    if s != [] && IsDigit(s[0]) then [s[0]] + LeadingDigits(s[1..]) else []
  }

  /** The white space `parseInt` skips: ECMAScript's WhiteSpace and LineTerminator characters. */
  predicate IsJsSpace(c: char) {
    var k := c as int;
    k == 0x09 || k == 0x0A || k == 0x0B || k == 0x0C || k == 0x0D || k == 0x20
    || k == 0xA0 || k == 0x1680 || (0x2000 <= k <= 0x200A) || k == 0x2028 || k == 0x2029
    || k == 0x202F || k == 0x205F || k == 0x3000 || k == 0xFEFF
  }

  function TrimStart(s: string): (r: string)
    ensures r == [] || !IsJsSpace(r[0])
    ensures |r| <= |s| && r == s[|s| - |r|..]
  {
    if s != [] && IsJsSpace(s[0]) then TrimStart(s[1..]) else s
  }

  /** `parseInt(s, 10)`: skip leading white space, read an optional sign, then the
      longest run of decimal digits. `None` stands for `NaN` (no digit at all). */
  function ParseInt(s: string): (r: Option<int>)
    ensures r.None? <==> LeadingDigits(SignStripped(TrimStart(s))) == []
  {
    var t := TrimStart(s);
    var body := SignStripped(t);
    var digits := LeadingDigits(body);
    if digits == [] then None
    else if t != [] && t[0] == '-' then Some(-(DigitsValue(digits) as int))
    else Some(DigitsValue(digits))
  }

  function SignStripped(t: string): string {
    if t != [] && (t[0] == '-' || t[0] == '+') then t[1..] else t
  }

  lemma LeadingDigitsOfDecimal(ds: string, rest: string)
    requires forall i :: 0 <= i < |ds| ==> IsDigit(ds[i])
    requires rest == [] || !IsDigit(rest[0])
    ensures LeadingDigits(ds + rest) == ds
    decreases |ds|
  {
    if ds != [] {
      assert (ds + rest)[1..] == ds[1..] + rest;
      LeadingDigitsOfDecimal(ds[1..], rest);
    }
  }

  /** The decimal form of an integer starts with a digit or a minus sign, so
      nothing is trimmed, and without its sign it is the digits of the magnitude. */
  lemma DecimalShape(n: int, rest: string)
    ensures |IntToDecimal(n) + rest| > 0
    ensures TrimStart(IntToDecimal(n) + rest) == IntToDecimal(n) + rest
    ensures SignStripped(IntToDecimal(n) + rest) == NatToDecimal(if n < 0 then -n else n) + rest
    ensures (IntToDecimal(n) + rest)[0] == '-' <==> n < 0
  {
    var m: nat := if n < 0 then -n else n;
    var ds := NatToDecimal(m);
    var s := IntToDecimal(n) + rest;
    assert !IsJsSpace(s[0]) by {
      assert s[0] == '-' || s[0] == ds[0];
    }
    if n < 0 {
      assert s == ['-'] + (ds + rest);
      assert s[1..] == ds + rest;
    } else {
      assert s == ds + rest;
      assert s[0] == ds[0];
    }
  }

  /** `parseInt` reads back the decimal form of any integer, and ignores whatever
      follows it once a non-digit appears (so "42abc" reads as 42). */
  lemma {:induction false} ParseIntDecimal(n: int, rest: string)
    requires rest == [] || !IsDigit(rest[0])
    ensures ParseInt(IntToDecimal(n) + rest) == Some(n)
  {
    var m: nat := if n < 0 then -n else n;
    DecimalShape(n, rest);
    LeadingDigitsOfDecimal(NatToDecimal(m), rest);
    DigitsValueOfDecimal(m);
  }

  /** `a < b` on two strings: code-point order, character by character, and a
      proper prefix comes first. */
  predicate StrLess(a: string, b: string)
    decreases |a|
  {
    if a == [] then b != []
    else if b == [] then false
    else if a[0] != b[0] then a[0] < b[0]
    else StrLess(a[1..], b[1..])
  }

  /** String `<` is a strict total order: irreflexive, transitive, and any two
      different strings are ordered one way. */
  lemma {:induction false} StrLessIrreflexive(a: string)
    ensures !StrLess(a, a)
    decreases |a|
  {
    if a != [] {
      StrLessIrreflexive(a[1..]);
    }
  }

  lemma {:induction false} StrLessTransitive(a: string, b: string, c: string)
    requires StrLess(a, b) && StrLess(b, c)
    ensures StrLess(a, c)
    decreases |a|
  {
    if a != [] && a[0] == b[0] && b[0] == c[0] {
      StrLessTransitive(a[1..], b[1..], c[1..]);
    }
  }

  lemma {:induction false} StrLessTotal(a: string, b: string)
    requires a != b
    ensures StrLess(a, b) || StrLess(b, a)
    decreases |a|
  {
    if a != [] && b != [] && a[0] == b[0] {
      assert a == [a[0]] + a[1..] && b == [b[0]] + b[1..];
      StrLessTotal(a[1..], b[1..]);
    }
  }

  lemma StrLessAsymmetric(a: string, b: string)
    requires StrLess(a, b)
    ensures !StrLess(b, a)
  {
    if StrLess(b, a) {
      StrLessTransitive(a, b, a);
      StrLessIrreflexive(a);
    }
  }

  /** `s.split(sep)` for a one-character separator: the pieces between separators,
      including empty ones; the empty string splits into one empty piece. */
  function Split(s: string, sep: char): (parts: seq<string>)
    ensures |parts| >= 1
    ensures forall k :: 0 <= k < |parts| ==> sep !in parts[k]
  {
    if s == [] then [""]
    else
      var rest := Split(s[1..], sep);
      if s[0] == sep then [""] + rest else [[s[0]] + rest[0]] + rest[1..]
  }

  /** A string without the separator is one piece. */
  lemma {:induction false} SplitWithoutSeparator(t: string, sep: char)
    requires sep !in t
    ensures Split(t, sep) == [t]
  {
    if t != [] {
      SplitWithoutSeparator(t[1..], sep);
      assert t == [t[0]] + t[1..];
    }
  }

  /** Splitting at the first separator: the piece before it, then the pieces of the rest. */
  lemma {:induction false} SplitAtSeparator(x: string, y: string, sep: char)
    requires sep !in x
    ensures Split(x + [sep] + y, sep) == [x] + Split(y, sep)
  {
    var s := x + [sep] + y;
    if x == [] {
      assert s == [sep] + y;
      assert s[1..] == y;
    } else {
      assert s[1..] == x[1..] + [sep] + y;
      SplitAtSeparator(x[1..], y, sep);
      assert x == [x[0]] + x[1..];
    }
  }

  /** `parts.join(sep)`. */
  function Join(parts: seq<string>, sep: char): string
    requires |parts| >= 1
  {
    if |parts| == 1 then parts[0] else parts[0] + [sep] + Join(parts[1..], sep)
  }

  /** Splitting loses nothing: joining the pieces back gives the original string. */
  lemma {:induction false} JoinSplit(s: string, sep: char)
    ensures Join(Split(s, sep), sep) == s
  {
    if s != [] {
      var rest := Split(s[1..], sep);
      JoinSplit(s[1..], sep);
      if s[0] == sep {
        assert Split(s, sep) == [""] + rest;
        assert ([""] + rest)[1..] == rest;
      } else {
        var parts := [[s[0]] + rest[0]] + rest[1..];
        assert Split(s, sep) == parts;
        if |rest| == 1 {
          assert Join(parts, sep) == [s[0]] + rest[0];
        } else {
          assert parts[1..] == rest[1..];
          assert Join(rest, sep) == rest[0] + [sep] + Join(rest[1..], sep);
        }
      }
    }
  }
}
