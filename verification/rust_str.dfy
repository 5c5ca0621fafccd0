/** The two Rust string primitives the argument validation relies on:
    `str::len`, which counts UTF-8 bytes, and `str::parse::<u16>`, which
    follows `u16::from_str_radix` with radix 10. */
module RustStr {
  import opened Results

  const U16Max: nat := 65535

  /** Number of bytes the UTF-8 encoding of `c` occupies. */
  function Utf8Width(c: char): (w: nat)
    ensures 1 <= w <= 4
    ensures w == 1 <==> (c as int) < 0x80
  {
    if (c as int) < 0x80 then 1
    else if (c as int) < 0x800 then 2
    else if (c as int) < 0x1_0000 then 3
    else 4
  }

  /** `str::len`: the length of `s` in bytes, not in characters. */
  function Utf8Len(s: string): (n: nat)
    ensures |s| <= n <= 4 * |s|
  {
    if |s| == 0 then 0 else Utf8Width(s[0]) + Utf8Len(s[1..])
  }

  predicate IsAscii(s: string)
  {
    forall i :: 0 <= i < |s| ==> (s[i] as int) < 0x80
  }

  /** On ASCII text bytes and characters coincide. */
  lemma {:induction false} AsciiLen(s: string)
    requires IsAscii(s)
    ensures Utf8Len(s) == |s|
    decreases |s|
  {
    if |s| > 0 {
      assert IsAscii(s[1..]) by {
        forall i | 0 <= i < |s[1..]| ensures (s[1..][i] as int) < 0x80 {
          assert s[1..][i] == s[i + 1];
        }
      }
      AsciiLen(s[1..]);
    }
  }

  predicate IsAsciiDigit(c: char) { '0' <= c <= '9' }

  function DigitValue(c: char): (d: nat)
    requires IsAsciiDigit(c)
    ensures d <= 9
  {
    (c as int) - ('0' as int)
  }

  predicate AllDigits(s: string)
  {
    forall i :: 0 <= i < |s| ==> IsAsciiDigit(s[i])
  }

  function Pow10(n: nat): (p: nat)
    ensures p >= 1
  {
    if n == 0 then 1 else 10 * Pow10(n - 1)
  }

  /** Positional value of a run of decimal digits, most significant first. */
  function DecimalValue(s: string): nat
    requires AllDigits(s)
  {
    if |s| == 0 then 0 else DigitValue(s[0]) * Pow10(|s| - 1) + DecimalValue(s[1..])
  }

  /** `s` without one leading plus sign. */
  function Magnitude(s: string): string
  {
    if |s| > 0 && s[0] == '+' then s[1..] else s
  }

  /** Reference definition of the text `str::parse::<u16>` accepts: an
      optional `+`, then one or more ASCII digits (leading zeros allowed)
      whose value fits in 16 bits. */
  predicate IsU16Literal(s: string)
  {
    var m := Magnitude(s);
    |m| > 0 && AllDigits(m) && DecimalValue(m) <= U16Max
  }

  function U16LiteralValue(s: string): nat
    requires IsU16Literal(s)
  {
    DecimalValue(Magnitude(s))
  }

  /** The digit loop of `from_str_radix`: every step multiplies the
      accumulator by ten and adds the next digit; a character that is not an
      ASCII digit, or a step that leaves the `u16` range, is an error. */
  function ParseDigits(digits: string, acc: nat): (r: Option<nat>)
    requires acc <= U16Max
    ensures r.Some? ==> acc <= r.value <= U16Max
    decreases |digits|
  {
    if |digits| == 0 then Some(acc)
    else if !IsAsciiDigit(digits[0]) then None
    else if acc * 10 + DigitValue(digits[0]) > U16Max then None
    else ParseDigits(digits[1..], acc * 10 + DigitValue(digits[0]))
  }

  /** `str::parse::<u16>`: `None` stands for `Err`. An empty string and a
      lone sign are rejected up front, a leading `+` is skipped, and a
      leading `-` is an invalid digit because the type is unsigned. */
  function ParseU16(s: string): (r: Option<nat>)
    ensures r.Some? ==> r.value <= U16Max
  {
    if |s| == 0 then None
    else if s == "+" || s == "-" then None
    else if s[0] == '+' then ParseDigits(s[1..], 0)
    else ParseDigits(s, 0)
  }

  lemma {:induction false} ParseDigitsValue(digits: string, acc: nat)
    requires acc <= U16Max
    ensures ParseDigits(digits, acc).Some?
        <==> AllDigits(digits) && acc * Pow10(|digits|) + DecimalValue(digits) <= U16Max
    ensures ParseDigits(digits, acc).Some?
        ==> ParseDigits(digits, acc).value == acc * Pow10(|digits|) + DecimalValue(digits)
    decreases |digits|
  {
    if |digits| == 0 {
      assert AllDigits(digits);
    } else if !IsAsciiDigit(digits[0]) {
      assert !AllDigits(digits);
    } else {
      var d := DigitValue(digits[0]);
      var rest := digits[1..];
      var p := Pow10(|rest|);
      assert AllDigits(digits) <==> AllDigits(rest) by {
        if AllDigits(rest) {
          forall i | 0 <= i < |digits| ensures IsAsciiDigit(digits[i]) {
            if i > 0 { assert digits[i] == rest[i - 1]; }
          }
        }
        if AllDigits(digits) {
          forall i | 0 <= i < |rest| ensures IsAsciiDigit(rest[i]) {
            assert rest[i] == digits[i + 1];
          }
        }
      }
      assert Pow10(|digits|) == 10 * p;
      assert acc * (10 * p) == (acc * 10) * p;
      assert (acc * 10 + d) * p == (acc * 10) * p + d * p;
      if AllDigits(digits) {
        assert DecimalValue(digits) == d * p + DecimalValue(rest);
        assert acc * Pow10(|digits|) + DecimalValue(digits) == (acc * 10 + d) * p + DecimalValue(rest);
      }
      if acc * 10 + d > U16Max {
        assert (acc * 10 + d) * p >= acc * 10 + d;
      } else {
        ParseDigitsValue(rest, acc * 10 + d);
      }
    }
  }

  /** `str::parse::<u16>` succeeds exactly on the reference literals, with
      their positional value. */
  lemma ParseU16Spec(s: string)
    ensures ParseU16(s).Some? <==> IsU16Literal(s)
    ensures ParseU16(s).Some? ==> ParseU16(s).value == U16LiteralValue(s)
  {
    if |s| == 0 || s == "+" {
    } else if s == "-" {
      assert !IsAsciiDigit(Magnitude(s)[0]);
    } else if s[0] == '+' {
      ParseDigitsValue(s[1..], 0);
    } else {
      ParseDigitsValue(s, 0);
    }
  }

  /** `str::parse::<u16>` on sample text: leading zeros and one `+` are
      accepted, 65535 is the largest value, a `-` is never a digit. */
  lemma ParseU16Samples()
    ensures ParseU16("0080") == Some(80)
    ensures ParseU16("+123") == Some(123)
    ensures ParseU16("65535") == Some(65535)
    ensures ParseU16("8080") == Some(8080)
    ensures ParseU16("80") == Some(80)
    ensures ParseU16("65536").None?
    ensures ParseU16("-123").None?
    ensures ParseU16("+").None? && ParseU16("").None?
  {
    assert "0"[1..] == "";
    assert ParseDigits("0", 8) == Some(80);
    assert "80"[1..] == "0";
    assert ParseDigits("80", 0) == Some(80);
    assert ParseDigits("0", 808) == Some(8080);
    assert ParseDigits("80", 80) == Some(8080);
    assert "080"[1..] == "80";
    assert ParseDigits("080", 0) == Some(80);
    assert ParseDigits("080", 8) == Some(8080);
    assert "0080"[1..] == "080";
    assert ParseDigits("0080", 0) == Some(80);
    assert "8080"[1..] == "080";
    assert ParseDigits("8080", 0) == Some(8080);

    assert "3"[1..] == "";
    assert ParseDigits("3", 12) == Some(123);
    assert "23"[1..] == "3";
    assert ParseDigits("23", 1) == Some(123);
    assert "123"[1..] == "23";
    assert ParseDigits("123", 0) == Some(123);
    assert "+123"[1..] == "123";

    assert "5"[1..] == "";
    assert ParseDigits("5", 6553) == Some(65535);
    assert "35"[1..] == "5";
    assert ParseDigits("35", 655) == Some(65535);
    assert "535"[1..] == "35";
    assert ParseDigits("535", 65) == Some(65535);
    assert "5535"[1..] == "535";
    assert ParseDigits("5535", 6) == Some(65535);
    assert "65535"[1..] == "5535";
    assert ParseDigits("65535", 0) == Some(65535);

    assert ParseDigits("6", 6553).None?;
    assert "36"[1..] == "6";
    assert ParseDigits("36", 655).None?;
    assert "536"[1..] == "36";
    assert ParseDigits("536", 65).None?;
    assert "5536"[1..] == "536";
    assert ParseDigits("5536", 6).None?;
    assert "65536"[1..] == "5536";
    assert ParseDigits("65536", 0).None?;
  }

  /** Text `str::parse::<u16>` accepts is ASCII, so its byte length is its
      character count. */
  lemma U16LiteralLen(s: string)
    requires IsU16Literal(s)
    ensures Utf8Len(s) == |s|
  {
    var m := Magnitude(s);
    forall i | 0 <= i < |s| ensures (s[i] as int) < 0x80 {
      if m != s {
        if i > 0 { assert s[i] == m[i - 1]; }
      } else {
        assert IsAsciiDigit(m[i]);
      }
    }
    AsciiLen(s);
  }
}
