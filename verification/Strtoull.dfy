/** Reading numbers back: simple_strtoull and simple_strtoll. A C string is its characters
    without the terminator; reading at its end yields the terminator. */
module Strtoull {
  import opened PutDec
  import opened Layout

  const NUL: char := 0 as char

  function At(s: string, i: nat): char { if i < |s| then s[i] else NUL }

  predicate IsDigit(c: char) { '0' <= c <= '9' }

  predicate IsXDigit(c: char) { IsDigit(c) || 'a' <= c <= 'f' || 'A' <= c <= 'F' }

  /** The value of a digit; it is only asked for digits. */
  function DigitVal(c: char): (v: nat)
    ensures v < 16
  {
    if IsDigit(c) then c as int - '0' as int
    else if IsXDigit(c) then LowerCode(c) - 'a' as int + 10
    else 0
  }

  /** Whether the loop reads on at c. */
  predicate Accepts(c: char, base: nat) { IsXDigit(c) && DigitVal(c) < base }

  /** Where the run of digits that starts at i ends. */
  function ScanEnd(s: string, i: nat, base: nat): (e: nat)
    requires i <= |s|
    ensures i <= e <= |s|
    ensures forall k :: i <= k < e ==> Accepts(s[k], base)
    ensures !Accepts(At(s, e), base)
    decreases |s| - i
  {
    if Accepts(At(s, i), base) then ScanEnd(s, i + 1, base) else i
  }

  /** What a run of digits is worth in the given base. */
  function TextValue(t: string, base: nat): nat {
    if t == "" then 0 else TextValue(t[..|t| - 1], base) * base + DigitVal(t[|t| - 1])
  }

  function GuessBase(s: string, i: nat): nat {
    if At(s, i) == '0' then
      if LowerCode(At(s, i + 1)) == 'x' as int && IsXDigit(At(s, i + 2)) then 16 else 8
    else 10
  }

  function BaseUsed(s: string, i: nat, base: nat): nat { if base == 0 then GuessBase(s, i) else base }

  predicate HasHexPrefix(s: string, i: nat, base: nat) {
    base == 16 && At(s, i) == '0' && LowerCode(At(s, i + 1)) == 'x' as int
  }

  function ScanStart(s: string, i: nat, base: nat): (k: nat)
    requires i <= |s|
    ensures i <= k <= |s|
  {
    if HasHexPrefix(s, i, BaseUsed(s, i, base)) then i + 2 else i
  }

  /** Result and end position of simple_strtoull at position i. */
  function Parsed(s: string, i: nat, base: nat): (nat, nat)
    requires i <= |s|
  {
    var b, k := BaseUsed(s, i, base), ScanStart(s, i, base);
    var e := ScanEnd(s, k, b);
    (TextValue(s[k..e], b) % U64, e)
  }

  method SimpleStrtoull(s: string, i: nat, base: nat) returns (result: nat, end: nat)
    requires i <= |s|
    ensures (result, end) == Parsed(s, i, base)
  {
    var b := base;
    if b == 0 {
      b := GuessBase(s, i);
    }
    var cp := i;
    if b == 16 && At(s, cp) == '0' && LowerCode(At(s, cp + 1)) == 'x' as int {
      cp := cp + 2;
    }
    result, end := ReadDigits(s, cp, b);
  }

  /** The loop of simple_strtoull. */
  method ReadDigits(s: string, start: nat, b: nat) returns (result: nat, cp: nat)
    requires start <= |s|
    ensures cp == ScanEnd(s, start, b)
    ensures result == TextValue(s[start..cp], b) % U64
  {
    result, cp := 0, start;
    assert s[start..start] == "";
    while IsXDigit(At(s, cp))
      invariant start <= cp <= |s|
      invariant ScanEnd(s, start, b) == ScanEnd(s, cp, b)
      invariant result == TextValue(s[start..cp], b) % U64
      decreases |s| - cp
    {
      var value := DigitVal(At(s, cp));
      if value >= b {
        return;
      }
      ScanSnoc(s, start, cp, b);
      result := (result * b + value) % U64;
      cp := cp + 1;
    }
  }

  /** One more digit, modulo 2^64. */
  lemma {:induction false} ScanSnoc(s: string, start: nat, cp: nat, b: nat)
    requires start <= cp < |s|
    ensures TextValue(s[start..cp + 1], b) % U64 == (TextValue(s[start..cp], b) % U64 * b + DigitVal(s[cp])) % U64
  {
    var t := s[start..cp + 1];
    assert t[..|t| - 1] == s[start..cp];
    ModHorner(TextValue(s[start..cp], b), b, DigitVal(s[cp]));
  }

  lemma ModHorner(v: nat, b: nat, d: nat)
    ensures (v * b + d) % U64 == (v % U64 * b + d) % U64
  {
    var q, r := v / U64, v % U64;
    assert v * b + d == U64 * (q * b) + (r * b + d) by {
      assert v == U64 * q + r;
      assert (U64 * q + r) * b == U64 * q * b + r * b;
      assert U64 * q * b == U64 * (q * b);
    }
    ModShift(q * b, r * b + d);
  }

  lemma ModShift(k: nat, n: nat)
    ensures (U64 * k + n) % U64 == n % U64
  {
    var q, r := n / U64, n % U64;
    assert U64 * k + n == U64 * (k + q) + r;
    ModUnique(U64 * k + n, k + q, r);
  }

  lemma ModUnique(n: nat, q: nat, r: nat)
    requires n == U64 * q + r && r < U64
    ensures n % U64 == r
  {
  }

  lemma ModSmall(n: nat)
    requires n < U64
    ensures n % U64 == n
  {
  }

  /** The signed reading: a minus sign negates, wrapped into 64 bits. */
  function SignedParsed(s: string, base: nat): (int, nat) {
    if At(s, 0) == '-' then
      var (v, e) := Parsed(s, 1, base);
      (ToSigned((U64 - v) % U64), e)
    else
      var (v, e) := Parsed(s, 0, base);
      (ToSigned(v), e)
  }

  function ToSigned(v: nat): int
    requires v < U64
  {
    if v < U64 / 2 then v else v - U64
  }

  method SimpleStrtoll(s: string, base: nat) returns (result: int, end: nat)
    ensures (result, end) == SignedParsed(s, base)
  {
    var v;
    if At(s, 0) == '-' {
      v, end := SimpleStrtoull(s, 1, base);
      return ToSigned((U64 - v) % U64), end;
    }
    v, end := SimpleStrtoull(s, 0, base);
    return ToSigned(v), end;
  }
}
