// Decimal printing and Rust's `str::parse::<u64>`.

module Decimal {
  import opened Prelude

  // ASCII bytes of a literal.
  function Ascii(s: string): (b: bytes)
    ensures |b| == |s|
  {
    seq(|s|, i requires 0 <= i < |s| => (s[i] as int % 256) as u8)
  }

  predicate IsDigit(b: u8) {
    '0' as u8 <= b <= '9' as u8
  }

  function Print(n: nat): (s: bytes)
    ensures s != []
    ensures forall i :: 0 <= i < |s| ==> IsDigit(s[i])
  {
    if n < 10 then ['0' as u8 + n as u8] else Print(n / 10) + ['0' as u8 + (n % 10) as u8]
  }

  // What a decimal numeral stands for: its first digit counts most.
  function Value(s: bytes): nat {
    if s == [] then 0
    else (if IsDigit(s[0]) then (s[0] - '0' as u8) as nat else 0) * Pow10(|s| - 1) + Value(s[1..])
  }

  lemma {:induction false} ValueSnoc(s: bytes, d: u8)
    requires IsDigit(d)
    ensures Value(s + [d]) == 10 * Value(s) + (d - '0' as u8) as nat
  {
    var all := s + [d];
    if s == [] {
      assert all[1..] == [];
    } else {
      var n := if IsDigit(s[0]) then (s[0] - '0' as u8) as nat else 0;
      ValueSnoc(s[1..], d);
      assert all[1..] == s[1..] + [d];
      assert n * (10 * Pow10(|s| - 1)) == 10 * (n * Pow10(|s| - 1));
    }
  }

  // Printing gives the decimal numeral of the number, without leading zeros.
  lemma {:induction false} PrintIsDecimal(n: nat)
    ensures Value(Print(n)) == n && (n > 0 ==> Print(n)[0] != '0' as u8)
  {
    if n < 10 {
      ValueSnoc([], '0' as u8 + n as u8);
      assert [] + ['0' as u8 + n as u8] == Print(n);
    } else {
      PrintIsDecimal(n / 10);
      ValueSnoc(Print(n / 10), '0' as u8 + (n % 10) as u8);
    }
  }

  // Digits to number; None on anything else.
  function Digits(s: bytes): Option<nat> {
    if s == [] then Some(0)
    else
      match Digits(s[..|s| - 1])
      case None => None
      case Some(n) => if IsDigit(s[|s| - 1]) then Some(10 * n + (s[|s| - 1] - '0' as u8) as nat) else None
  }

  // An optional plus sign, at least one digit, and no overflow.
  function ParseU64(s: bytes): Option<u64> {
    var d := if s != [] && s[0] == '+' as u8 then s[1..] else s;
    if d == [] then None
    else
      match Digits(d)
      case None => None
      case Some(n) => if n < 0x1_0000_0000_0000_0000 then Some(n) else None
  }

  lemma {:induction false} DigitsOfPrint(n: nat)
    ensures Digits(Print(n)) == Some(n)
  {
    var s := Print(n);
    if n >= 10 {
      DigitsOfPrint(n / 10);
      assert s[..|s| - 1] == Print(n / 10);
    } else {
      assert s[..0] == [];
    }
  }

  // Every 64-bit number survives printing and parsing.
  lemma ParseOfPrint(n: u64)
    ensures ParseU64(Print(n)) == Some(n)
  {
    DigitsOfPrint(n);
  }

  function Pow10(k: nat): nat {
    if k == 0 then 1 else 10 * Pow10(k - 1)
  }

  lemma {:induction false} PrintLength(n: nat, k: nat)
    requires 0 < k && n < Pow10(k)
    ensures |Print(n)| <= k
  {
    if n >= 10 {
      PrintLength(n / 10, k - 1);
    }
  }

  lemma PrintU64Length(n: u64)
    ensures |Print(n)| <= 20
  {
    assert Pow10(5) == 100_000;
    assert Pow10(10) == 10_000_000_000;
    assert Pow10(15) == 1_000_000_000_000_000;
    assert Pow10(20) == 100_000_000_000_000_000_000;
    PrintLength(n, 20);
  }
}
