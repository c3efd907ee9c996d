/** The fast decimal conversion of the bounded printer: digits into a buffer, least significant first. */
module PutDec {
  import opened Digits

  /** The entry for d of the digit table "0123456789ABCDEF". */
  function HexDigit(d: nat): char
    requires d < 16
  {
    if d < 10 then ('0' as int + d) as char else ('A' as int + (d - 10)) as char
  }

  /** The characters of a digit sequence, in the same order. */
  function Chars(ds: seq<nat>): (cs: string)
    requires forall i :: 0 <= i < |ds| ==> ds[i] < 16
    ensures |cs| == |ds| && forall i :: 0 <= i < |ds| ==> cs[i] == HexDigit(ds[i])
  {
    seq(|ds|, i requires 0 <= i < |ds| => HexDigit(ds[i]))
  }

  /** The decimal digit d. */
  function Digit(d: nat): (c: char)
    requires d < 10
    ensures c == HexDigit(d)
  {
    ('0' as int + d) as char
  }

  /** Buffer b after the characters cs have been stored from position pos on. */
  function Stored(b: seq<char>, pos: nat, cs: string): seq<char>
    requires pos + |cs| <= |b|
  {
    b[..pos] + cs + b[pos + |cs|..]
  }

  lemma StoredSnoc(b: seq<char>, pos: nat, cs: string, c: char)
    requires pos + |cs| < |b|
    ensures Stored(b, pos, cs)[pos + |cs| := c] == Stored(b, pos, cs + [c])
  {
  }

  lemma StoredTwice(b: seq<char>, pos: nat, cs: string, ds: string)
    requires pos + |cs| + |ds| <= |b|
    ensures Stored(Stored(b, pos, cs), pos + |cs|, ds) == Stored(b, pos, cs + ds)
  {
  }

  lemma CharsConcat(a: seq<nat>, b: seq<nat>)
    requires forall i :: 0 <= i < |a| ==> a[i] < 16
    requires forall i :: 0 <= i < |b| ==> b[i] < 16
    ensures (forall i :: 0 <= i < |a + b| ==> (a + b)[i] < 16) && Chars(a + b) == Chars(a) + Chars(b)
  {
  }

  lemma DecimalBelow(n: nat)
    ensures forall i :: 0 <= i < |DigitsOf(n, 10)| ==> DigitsOf(n, 10)[i] < 16
  {
    forall i | 0 <= i < |DigitsOf(n, 10)| ensures DigitsOf(n, 10)[i] < 16 {
      assert DigitsOf(n, 10)[i] < 10;
    }
  }

  /** The decimal digits of n as characters, least significant first. */
  function Decimal(n: nat): (cs: string)
    ensures |cs| == |DigitsOf(n, 10)| && forall i :: 0 <= i < |cs| ==> cs[i] == HexDigit(DigitsOf(n, 10)[i])
  {
    DecimalBelow(n);
    Chars(DigitsOf(n, 10))
  }

  /** Stores c and moves on by one. */
  method Append(buf: array<char>, pos: nat, c: char) returns (next: nat)
    requires pos < buf.Length
    modifies buf
    ensures next == pos + 1 && buf[..] == old(buf[..])[pos := c]
  {
    buf[pos] := c;
    next := pos + 1;
  }

  /** One to five characters stored in a row. */
  lemma StoredRow(b: seq<char>, pos: nat, c0: char, c1: char, c2: char, c3: char, c4: char)
    requires pos + 5 <= |b|
    ensures b[pos := c0] == Stored(b, pos, [c0])
    ensures b[pos := c0][pos + 1 := c1] == Stored(b, pos, [c0, c1])
    ensures b[pos := c0][pos + 1 := c1][pos + 2 := c2] == Stored(b, pos, [c0, c1, c2])
    ensures b[pos := c0][pos + 1 := c1][pos + 2 := c2][pos + 3 := c3] == Stored(b, pos, [c0, c1, c2, c3])
    ensures b[pos := c0][pos + 1 := c1][pos + 2 := c2][pos + 3 := c3][pos + 4 := c4] == Stored(b, pos, [c0, c1, c2, c3, c4])
  {
  }

  /** Quotient and remainder by ten, with a multiplication by 205 and a shift. */
  method Divide205(d: nat) returns (q: nat, rem: nat)
    requires d < 1029
    ensures q == d / 10 && rem == d % 10
  {
    Div205(d);
    q := d * 0xcd / 2048;
    rem := d - 10 * q;
  }

  /** Quotient and remainder by ten, with a multiplication by 13 and a shift. */
  method Divide13(d: nat) returns (q: nat, rem: nat)
    requires d < 69
    ensures q == d / 10 && rem == d % 10
  {
    Div13(d);
    q := d * 0xd / 128;
    rem := d - 10 * q;
  }

  /** Stores the last digit of d, and gives back what is in front of it. */
  method PutDigit205(buf: array<char>, pos: nat, d: nat) returns (next: nat, q: nat)
    requires d < 1029 && pos < buf.Length
    modifies buf
    ensures next == pos + 1 && q == d / 10 && buf[..] == old(buf[..])[pos := Digit(d % 10)]
  {
    var c;
    q, c := Divide205(d);
    next := Append(buf, pos, Digit(c));
  }

  /** The same for a smaller d. */
  method PutDigit13(buf: array<char>, pos: nat, d: nat) returns (next: nat, q: nat)
    requires d < 69 && pos < buf.Length
    modifies buf
    ensures next == pos + 1 && q == d / 10 && buf[..] == old(buf[..])[pos := Digit(d % 10)]
  {
    var c;
    q, c := Divide13(d);
    next := Append(buf, pos, Digit(c));
  }

  /** The nibbles of q and the sums they lead to. */
  ghost predicate NibbleFacts(q: nat, d0: nat, d1: nat, d2: nat, d3: nat, s: Sums) {
    && d0 == s.s0 && s.s1 == s.s0 / 10 + 9 * d3 + 5 * d2 + d1
    && s.s2 == s.s1 / 10 + 2 * d2 && s.s3 == s.s2 / 10 + 4 * d3
    && s.s0 < 1029 && s.s1 < 1029 && s.s2 < 69 && s.s3 < 100
  }

  /** What the sums promise about the five low digits of q. */
  ghost predicate FiveFacts(q: nat, s: Sums)
    requires s.s3 < 100
  {
    FiveText(q) == [Digit(s.s0 % 10), Digit(s.s1 % 10), Digit(s.s2 % 10), Digit(s.s3 % 10), Digit(s.s3 / 10)]
  }

  /** What they promise about its digits without leading zeros. */
  ghost predicate DecimalFacts(q: nat, d3: nat, s: Sums)
    requires s.s3 < 100
  {
    var c0, c1, c2, c3, c4 := Digit(s.s0 % 10), Digit(s.s1 % 10), Digit(s.s2 % 10), Digit(s.s3 % 10), Digit(s.s3 / 10);
    Decimal(q) ==
      if s.s1 == 0 then [c0]
      else if s.s2 == 0 && d3 == 0 then [c0, c1]
      else if s.s3 == 0 then [c0, c1, c2]
      else if s.s3 / 10 == 0 then [c0, c1, c2, c3]
      else [c0, c1, c2, c3, c4]
  }

  /** The characters of all five low digits. */
  function FiveText(q: nat): (cs: string)
    ensures |cs| == 5
  {
    Chars(Five(q))
  }

  lemma NibbleText(q: nat)
    requires q < 100000
    ensures NibbleFacts(q, NibbleSums(q).s0, q / 16 % 16, q / 256 % 16, q / 4096, NibbleSums(q))
    ensures FiveFacts(q, NibbleSums(q)) && DecimalFacts(q, q / 4096, NibbleSums(q))
  {
    NibbleBounds(q);
    NibbleDigits(q);
    DecimalCases(q);
  }

  /** Decimal(q) by number of digits. */
  lemma DecimalCases(q: nat)
    requires q < 100000
    ensures var c0, c1, c2, c3, c4 := Digit(q % 10), Digit(q / 10 % 10), Digit(q / 100 % 10), Digit(q / 1000 % 10), Digit(q / 10000 % 10);
      && FiveText(q) == [c0, c1, c2, c3, c4]
      && Decimal(q) ==
           if q / 10 == 0 then [c0]
           else if q / 100 == 0 then [c0, c1]
           else if q / 1000 == 0 then [c0, c1, c2]
           else if q / 10000 == 0 then [c0, c1, c2, c3]
           else [c0, c1, c2, c3, c4]
  {
    UpToFive(q);
    var f := Five(q);
    assert f[..1] == [f[0]] && f[..2] == [f[0], f[1]] && f[..3] == [f[0], f[1], f[2]];
    assert f[..4] == [f[0], f[1], f[2], f[3]];
  }

  /** The four nibbles of q, the lowest one already holding the first sum. */
  method Nibbles(q: nat) returns (d0: nat, d1: nat, d2: nat, d3: nat, ghost s: Sums)
    requires q < 100000
    ensures NibbleFacts(q, d0, d1, d2, d3, s) && FiveFacts(q, s) && DecimalFacts(q, d3, s)
  {
    NibbleText(q);
    s := NibbleSums(q);
    d1 := q / 16 % 16;
    d2 := q / 256 % 16;
    d3 := q / 4096;
    d0 := 6 * (d3 + d2 + d1) + q % 16;
  }

  /** Formats any q below 100000 with as many digits as it has. */
  method PutDecTrunc(buf: array<char>, pos: nat, q: nat) returns (next: nat)
    requires q < 100000 && pos + 5 <= buf.Length
    modifies buf
    ensures |Decimal(q)| <= 5
    ensures next == pos + |Decimal(q)|
    ensures buf[..] == Stored(old(buf[..]), pos, Decimal(q))
  {
    var d0, d1, d2, d3;
    ghost var s;
    d0, d1, d2, d3, s := Nibbles(q);
    StoredRow(buf[..], pos, Digit(s.s0 % 10), Digit(s.s1 % 10), Digit(s.s2 % 10), Digit(s.s3 % 10), Digit(s.s3 / 10));
    var r;
    next, r := PutDigit205(buf, pos, d0);
    d1 := r + 9 * d3 + 5 * d2 + d1;
    if d1 != 0 {
      next, r := PutDigit205(buf, next, d1);
      next := TruncHigh(buf, next, r + 2 * d2, d3);
    }
  }

  /** Its upper three digits. */
  method TruncHigh(buf: array<char>, pos: nat, sum: nat, nibble: nat) returns (next: nat)
    requires sum < 69 && sum / 10 + 4 * nibble < 100 && pos + 3 <= buf.Length
    modifies buf
    ensures var b, c2, h := old(buf[..]), Digit(sum % 10), sum / 10 + 4 * nibble;
      if sum == 0 && nibble == 0 then next == pos && buf[..] == b
      else if h == 0 then next == pos + 1 && buf[..] == b[pos := c2]
      else if h / 10 == 0 then next == pos + 2 && buf[..] == b[pos := c2][pos + 1 := Digit(h % 10)]
      else next == pos + 3 && buf[..] == b[pos := c2][pos + 1 := Digit(h % 10)][pos + 2 := Digit(h / 10)]
  {
    var d2, d3, r := sum, nibble, 0;
    next := pos;
    if d2 != 0 || d3 != 0 {
      next, r := PutDigit13(buf, next, d2);
      d3 := r + 4 * d3;
      if d3 != 0 {
        next, r := PutDigit205(buf, next, d3);
        if r != 0 {
          next := Append(buf, next, Digit(r));
        }
      }
    }
  }

  /** The same without the tests: always five digits. */
  method PutDecFull(buf: array<char>, pos: nat, q: nat) returns (next: nat)
    requires q < 100000 && pos + 5 <= buf.Length
    modifies buf
    ensures next == pos + 5
    ensures buf[..] == Stored(old(buf[..]), pos, FiveText(q))
  {
    var d0, d1, d2, d3;
    ghost var s;
    d0, d1, d2, d3, s := Nibbles(q);
    StoredRow(buf[..], pos, Digit(s.s0 % 10), Digit(s.s1 % 10), Digit(s.s2 % 10), Digit(s.s3 % 10), Digit(s.s3 / 10));
    var r;
    next, r := PutDigit205(buf, pos, d0);
    d1 := r + 9 * d3 + 5 * d2 + d1;
    next, r := PutDigit205(buf, next, d1);
    next := FullHigh(buf, next, r + 2 * d2, d3);
  }

  /** Its upper three digits. */
  method FullHigh(buf: array<char>, pos: nat, sum: nat, nibble: nat) returns (next: nat)
    requires sum < 69 && sum / 10 + 4 * nibble < 100 && pos + 3 <= buf.Length
    modifies buf
    ensures var h := sum / 10 + 4 * nibble;
      next == pos + 3 && buf[..] == old(buf[..])[pos := Digit(sum % 10)][pos + 1 := Digit(h % 10)][pos + 2 := Digit(h / 10)]
  {
    var r;
    next, r := PutDigit13(buf, pos, sum);
    next, r := PutDigit205(buf, next, r + 4 * nibble);
    next := Append(buf, next, Digit(r));
  }

  const U64 := 0x1_0000_0000_0000_0000

  lemma TwentyDigits(n: nat)
    requires n < U64
    ensures |Decimal(n)| <= 20
  {
    assert Pow(10, 20) == 100000000000000000000 by {
      assert Pow(10, 5) == 100000;
      assert Pow(10, 10) == 100000 * Pow(10, 5);
      assert Pow(10, 15) == 100000 * Pow(10, 10);
      assert Pow(10, 20) == 100000 * Pow(10, 15);
    }
    DigitsBound(n, 10, 20);
  }

  /** Stores exactly the decimal digits of num, least significant first. */
  method PutDecimal(buf: array<char>, pos: nat, num: nat) returns (next: nat)
    requires num < U64 && pos + 20 <= buf.Length
    modifies buf
    ensures |Decimal(num)| <= 20
    ensures next == pos + |Decimal(num)|
    ensures buf[..] == Stored(old(buf[..]), pos, Decimal(num))
  {
    TwentyDigits(num);
    var n: nat := num;
    next := pos;
    ghost var done: string := [];
    assert Stored(buf[..], pos, []) == buf[..];
    while n >= 100000
      invariant n < U64 && done + Decimal(n) == Decimal(num)
      invariant next == pos + |done| && |done| + |Decimal(n)| <= 20 && |done| % 5 == 0
      invariant buf[..] == Stored(old(buf[..]), pos, done)
      decreases n
    {
      var rem := n % 100000;
      SplitDecimal(n);
      Reassociate(done, FiveText(rem), Decimal(n / 100000));
      next := PutGroup(buf, next, rem, pos, old(buf[..]), done);
      done := done + FiveText(rem);
      n := n / 100000;
    }
    StoredTwice(old(buf[..]), pos, done, Decimal(n));
    next := PutLast(buf, next, n);
  }

  lemma Reassociate(a: string, b: string, c: string)
    ensures a + b + c == a + (b + c)
  {
  }

  /** One full group, behind the groups in done. */
  method PutGroup(buf: array<char>, pos: nat, rem: nat, start: nat, ghost b: seq<char>, ghost done: string) returns (next: nat)
    requires rem < 100000 && pos + 5 <= buf.Length
    requires |b| == buf.Length && pos == start + |done| && buf[..] == Stored(b, start, done)
    modifies buf
    ensures next == pos + 5 && buf[..] == Stored(b, start, done + FiveText(rem))
  {
    StoredTwice(b, start, done, FiveText(rem));
    next := PutDecFull(buf, pos, rem);
  }

  /** The last, shortened group, with five cells to work in. */
  method PutLast(buf: array<char>, pos: nat, q: nat) returns (next: nat)
    requires q < 100000 && pos + 5 <= buf.Length
    modifies buf
    ensures next == pos + |Decimal(q)| && next <= buf.Length
    ensures buf[..] == Stored(old(buf[..]), pos, Decimal(q))
  {
    next := PutDecTrunc(buf, pos, q);
  }

  lemma SplitDecimal(n: nat)
    requires 100000 <= n
    ensures Decimal(n) == FiveText(n % 100000) + Decimal(n / 100000)
    ensures |Decimal(n)| == 5 + |Decimal(n / 100000)|
  {
    SplitFive(n);
    DecimalBelow(n / 100000);
    CharsConcat(Five(n % 100000), DigitsOf(n / 100000, 10));
  }
}
