/**
  GetProcessorType: the walker reads SYSTEM_INFO.dwProcessorType, renders it
  in decimal with ToString() and parses that text back with
  Convert.ToUInt32(text, 16). The result is the number whose hexadecimal
  digits are the decimal digits of the input.
 */
module ProcessorType {
  import opened Bits
  import opened Wrappers
  import opened Natives

  predicate IsDecimalDigit(c: char) {
    '0' <= c <= '9'
  }

  predicate IsHexDigit(c: char) {
    '0' <= c <= '9' || 'a' <= c <= 'f' || 'A' <= c <= 'F'
  }

  function DecimalDigitChar(d: nat): (c: char)
    requires d < 10
    ensures IsDecimalDigit(c)
  {
    "0123456789"[d]
  }

  function HexDigitValue(c: char): (v: nat)
    requires IsHexDigit(c)
    ensures v < 16
    ensures IsDecimalDigit(c) ==> v < 10
  {
    if '0' <= c <= '9' then c as int - '0' as int
    else if 'a' <= c <= 'f' then c as int - 'a' as int + 10
    else c as int - 'A' as int + 10
  }

  lemma DigitCharValue(d: nat)
    requires d < 10
    ensures HexDigitValue(DecimalDigitChar(d)) == d
  {
  }

  /** uint.ToString(): the decimal rendering, most significant digit first, no leading zeros. */
  function DecimalString(n: nat): (s: string)
    ensures |s| >= 1
    ensures forall i :: 0 <= i < |s| ==> IsDecimalDigit(s[i])
    ensures |s| > 1 ==> s[0] != '0'
  {
    if n < 10 then [DecimalDigitChar(n)] else DecimalString(n / 10) + [DecimalDigitChar(n % 10)]
  }

  /** The value of a string of digits read in base b (b is 10 or 16). */
  function DigitsValue(s: string, b: nat): (v: nat)
    requires forall i :: 0 <= i < |s| ==> IsHexDigit(s[i])
  {
    if |s| == 0 then 0 else DigitsValue(s[..|s| - 1], b) * b + HexDigitValue(s[|s| - 1])
  }

  /** Reading the decimal rendering back in base 10 gives the number. */
  lemma {:induction false} DecimalStringRoundTrip(n: nat)
    ensures DigitsValue(DecimalString(n), 10) == n
  {
    var s := DecimalString(n);
    if n < 10 {
      DigitCharValue(n);
    } else {
      assert s[..|s| - 1] == DecimalString(n / 10);
      DecimalStringRoundTrip(n / 10);
      DigitCharValue(n % 10);
    }
  }

  /**
    Convert.ToUInt32(text, 16): fails (None) on an empty text, on a character
    that is not a hexadecimal digit, and on a value that does not fit 32 bits
    (the OverflowException).
   */
  function ParseHex(s: string): (r: Option<uint32>)
    ensures r.Some? ==> |s| > 0 && forall i :: 0 <= i < |s| ==> IsHexDigit(s[i])
    ensures r.Some? ==> r.value == DigitsValue(s, 16)
    ensures (|s| > 0 && (forall i :: 0 <= i < |s| ==> IsHexDigit(s[i])) && DigitsValue(s, 16) < TWO_32) ==> r.Some?
  {
    if |s| == 0 || exists i :: 0 <= i < |s| && !IsHexDigit(s[i]) then None
    else
      var v := DigitsValue(s, 16);
      if v < TWO_32 then Some(v) else None
  }

  /**
    The arithmetic reference: the number whose base-16 digits are the base-10
    digits of n.
   */
  function DecimalAsHex(n: nat): nat
  {
    if n == 0 then 0 else DecimalAsHex(n / 10) * 16 + n % 10
  }

  /** The string route and the arithmetic reference agree. */
  lemma {:induction false} ReparseIsDecimalAsHex(n: nat)
    ensures DigitsValue(DecimalString(n), 16) == DecimalAsHex(n)
  {
    var s := DecimalString(n);
    if n < 10 {
      DigitCharValue(n);
      assert s[..0] == [];
      if n > 0 {
        assert n / 10 == 0;
      }
    } else {
      assert s[..|s| - 1] == DecimalString(n / 10);
      ReparseIsDecimalAsHex(n / 10);
      DigitCharValue(n % 10);
    }
  }

  /** The lowest hexadecimal digit of the reparse is the lowest decimal digit. */
  lemma DecimalAsHexDigits(n: nat)
    ensures DecimalAsHex(n) % 16 == n % 10
    ensures DecimalAsHex(n) / 16 == DecimalAsHex(n / 10)
  {
    if n == 0 {
    } else {
      DivModUnique(DecimalAsHex(n), 16, DecimalAsHex(n / 10), n % 10);
    }
  }

  /** The reparse is injective: distinct processor types give distinct machine types. */
  lemma {:induction false} DecimalAsHexInjective(a: nat, b: nat)
    requires DecimalAsHex(a) == DecimalAsHex(b)
    ensures a == b
  {
    DecimalAsHexDigits(a);
    DecimalAsHexDigits(b);
    if a != 0 && b != 0 {
      DecimalAsHexInjective(a / 10, b / 10);
    } else if a == 0 && b != 0 {
      DecimalAsHexPositive(b);
    } else if a != 0 && b == 0 {
      DecimalAsHexPositive(a);
    }
  }

  lemma DecimalAsHexPositive(n: nat)
    requires n > 0
    ensures DecimalAsHex(n) > 0
  {
  }

  function Pow(b: nat, k: nat): (p: nat)
    ensures b >= 1 ==> p >= 1
  {
    if k == 0 then 1 else b * Pow(b, k - 1)
  }

  /** n has at most k decimal digits exactly when its reparse has at most k hex digits. */
  lemma {:induction false} DecimalAsHexBound(n: nat, k: nat)
    ensures n < Pow(10, k) <==> DecimalAsHex(n) < Pow(16, k)
  {
    if k == 0 {
      if n > 0 {
        DecimalAsHexPositive(n);
      }
    } else if n == 0 {
    } else {
      DecimalAsHexBound(n / 10, k - 1);
      var h := DecimalAsHex(n / 10);
      var P, Q := Pow(10, k - 1), Pow(16, k - 1);
      assert Pow(10, k) == 10 * P && Pow(16, k) == 16 * Q;
      assert n < 10 * P <==> n / 10 < P by {
        if n / 10 < P {
          assert n / 10 <= P - 1;
          assert n == 10 * (n / 10) + n % 10;
        } else {
          assert n >= 10 * (n / 10);
          assert 10 * (n / 10) >= 10 * P;
        }
      }
      assert h * 16 + n % 10 < 16 * Q <==> h < Q by {
        if h < Q {
          assert h <= Q - 1;
          assert h * 16 <= 16 * Q - 16;
        } else {
          assert h * 16 >= 16 * Q;
        }
      }
    }
  }

  /**
    GetProcessorType as written: parse the decimal rendering as hexadecimal.
    None stands for the OverflowException a value of nine or more decimal
    digits raises.
   */
  function GetProcessorType(processorType: uint32): (r: Option<uint32>)
    ensures r.Some? <==> processorType < 100_000_000
    ensures r.Some? ==> r.value == DecimalAsHex(processorType)
    ensures r.Some? ==> r.value % 16 == processorType % 10
    ensures r != Some(I386)
  {
    var s := DecimalString(processorType);
    ReparseIsDecimalAsHex(processorType);
    DecimalAsHexDigits(processorType);
    DecimalAsHexBound(processorType, 8);
    assert Pow(10, 8) == 100_000_000 && Pow(16, 8) == TWO_32;
    assert forall i :: 0 <= i < |s| ==> IsHexDigit(s[i]);
    assert I386 % 16 == 12;
    ParseHex(s)
  }

  /** 8664 is read as 0x8664 (AMD64) and 200 as 0x200 (IA64). */
  lemma KnownProcessorTypes()
    ensures GetProcessorType(8664) == Some(AMD64)
    ensures GetProcessorType(200) == Some(IA64)
  {
    assert DecimalAsHex(8664) == 0x8664 by {
      assert DecimalAsHex(8) == 8;
      assert DecimalAsHex(86) == 0x86;
      assert DecimalAsHex(866) == 0x866;
    }
    assert DecimalAsHex(200) == 0x200 by {
      assert DecimalAsHex(2) == 2;
      assert DecimalAsHex(20) == 0x20;
    }
  }

  /** The AMD64 machine type comes out of exactly one processor type, 8664. */
  lemma Amd64OnlyFrom8664(processorType: uint32)
    ensures GetProcessorType(processorType) == Some(AMD64) <==> processorType == 8664
  {
    KnownProcessorTypes();
    if GetProcessorType(processorType) == Some(AMD64) {
      DecimalAsHexInjective(processorType, 8664);
    }
  }

  /** The IA64 machine type comes out of exactly one processor type, 200. */
  lemma Ia64OnlyFrom200(processorType: uint32)
    ensures GetProcessorType(processorType) == Some(IA64) <==> processorType == 200
  {
    KnownProcessorTypes();
    if GetProcessorType(processorType) == Some(IA64) {
      DecimalAsHexInjective(processorType, 200);
    }
  }
}
