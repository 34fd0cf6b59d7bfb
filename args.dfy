/** The command-line pieces both host programs parse: numbers written in
    decimal or, after a lower-case "0x", in hexadecimal (`int.Parse` with
    and without `NumberStyles.HexNumber`), `ADDR[:SIZE]` regions, `PORT@BAUD`
    endpoints and the one-letter flags. A parse that would throw is `None`. */
module Args {
  import opened Wrappers

  const INT_MIN: int := -0x8000_0000
  const INT_MAX: int := 0x7FFF_FFFF

  /** The region size when none is given. */
  const DEFAULT_SIZE: int := 0x8000

  /** The baud rate when none is given. */
  const DEFAULT_BAUD: int := 500000

  // ------------------------------------------------------------- numbers

  /** The value of a digit in bases up to 16 (either case), -1 for any
      other character. */
  function DigitValue(c: char): (d: int)
    ensures -1 <= d < 16
    ensures '0' <= c <= '9' ==> d == c as int - '0' as int
  {
    if '0' <= c <= '9' then c as int - '0' as int
    else if 'a' <= c <= 'f' then c as int - 'a' as int + 10
    else if 'A' <= c <= 'F' then c as int - 'A' as int + 10
    else -1
  }

  /** Every character of `s` is a digit of base `base`. */
  predicate IsDigits(s: string, base: nat)
  {
    forall i :: 0 <= i < |s| ==> 0 <= DigitValue(s[i]) < base
  }

  /** The number the digits `s` denote in base `base`, most significant
      first. */
  function Value(s: string, base: nat): (v: nat)
    requires IsDigits(s, base)
  {
    if s == [] then 0 else Value(s[..|s| - 1], base) * base + DigitValue(s[|s| - 1])
  }

  /** `int.Parse(s)`: an optional sign and at least one decimal digit,
      whose value must lie in the 32-bit range. */
  function ParseDecimal(s: string): (r: Option<int>)
    ensures r.Some? ==> INT_MIN <= r.value <= INT_MAX
  {
    var signed := |s| > 0 && (s[0] == '-' || s[0] == '+');
    var body := if signed then s[1..] else s;
    if body == [] || !IsDigits(body, 10) then None
    else
      var v: int := if signed && s[0] == '-' then -(Value(body, 10) as int) else Value(body, 10);
      if INT_MIN <= v <= INT_MAX then Some(v) else None
  }

  /** A 32-bit pattern read as a two's complement `int`. */
  function ToInt32(v: nat): (r: int)
    requires v < 0x1_0000_0000
    ensures INT_MIN <= r <= INT_MAX && (r - v) % 0x1_0000_0000 == 0
  {
    if v <= INT_MAX then v else v - 0x1_0000_0000
  }

  /** `int.Parse(s, NumberStyles.HexNumber)`: at least one hexadecimal
      digit of either case, no sign, at most 32 significant bits, read as a
      two's complement `int` (so "FFFFFFFF" is -1). */
  function ParseHex(s: string): (r: Option<int>)
    ensures r.Some? ==> INT_MIN <= r.value <= INT_MAX
  {
    if s == [] || !IsDigits(s, 16) then None
    else
      var v := Value(s, 16);
      if v < 0x1_0000_0000 then Some(ToInt32(v)) else None
  }

  /** `s.StartsWith("0x") ? int.Parse(s[2..], HexNumber) : int.Parse(s)`,
      the number syntax of ADDR, SIZE (Burner/Program.cs lines 58-65) and
      ADDR (RomLoader/Program.cs line 40). */
  function ParseNumber(s: string): (r: Option<int>)
    ensures r.Some? ==> INT_MIN <= r.value <= INT_MAX
  {
    if |s| >= 2 && s[..2] == "0x" then ParseHex(s[2..]) else ParseDecimal(s)
  }

  /** The digit character of `d`, upper case past 9 (`ToString("X")`). */
  function DigitChar(d: nat): (c: char)
    requires d < 16
    ensures DigitValue(c) == d
  {
    if d < 10 then ('0' as int + d) as char else ('A' as int + d - 10) as char
  }

  /** The two bases the programs read. */
  predicate Radix(base: nat)
  {
    base == 10 || base == 16
  }

  /** Division by the base: quotient and last digit. */
  lemma DivStep(n: nat, base: nat)
    requires Radix(base) && n >= base
    ensures 0 < n / base < n && n % base < base && (n / base) * base + n % base == n
  {
  }

  /** `n` written in base `base` without leading zeros. */
  function Numeral(n: nat, base: nat): (s: string)
    requires Radix(base)
    ensures |s| > 0 && IsDigits(s, base)
    decreases n
  {
    if n < base then [DigitChar(n)]
    else
      DivStep(n, base);
      Numeral(n / base, base) + [DigitChar(n % base)]
  }

  /** `x.ToString()`. */
  function Decimal(x: int): (s: string)
  {
    if x < 0 then "-" + Numeral(-x, 10) else Numeral(x, 10)
  }

  /** Reading a numeral back gives the number. */
  lemma {:induction false} NumeralValue(n: nat, base: nat)
    requires Radix(base)
    ensures Value(Numeral(n, base), base) == n
    decreases n
  {
    if n >= base {
      DivStep(n, base);
      var s := Numeral(n, base);
      assert s[..|s| - 1] == Numeral(n / base, base);
      NumeralValue(n / base, base);
    }
  }

  /** A decimal numeral never starts with "0x". */
  lemma NumeralNotHex(n: nat)
    ensures var s := Numeral(n, 10); !(|s| >= 2 && s[..2] == "0x")
  {
    var s := Numeral(n, 10);
    if |s| >= 2 {
      assert DigitValue(s[1]) >= 0;
    }
  }

  /** Every 32-bit `int` written in decimal parses back to itself, with or
      without the hexadecimal prefix check in front. */
  lemma DecimalRoundTrip(x: int)
    requires INT_MIN <= x <= INT_MAX
    ensures ParseDecimal(Decimal(x)) == Some(x) && ParseNumber(Decimal(x)) == Some(x)
  {
    if x < 0 {
      NegativeRoundTrip(x);
    } else {
      NaturalRoundTrip(x);
    }
  }

  /** A negative number: the sign, then its magnitude's digits. */
  lemma NegativeRoundTrip(x: int)
    requires INT_MIN <= x < 0
    ensures ParseDecimal(Decimal(x)) == Some(x) && ParseNumber(Decimal(x)) == Some(x)
  {
    var digits := Numeral(-x, 10);
    NumeralValue(-x, 10);
    SignedDigits(digits);
    assert Decimal(x) == "-" + digits;
  }

  /** A minus sign and decimal digits read as the digits' value negated,
      whenever that is in range. */
  lemma SignedDigits(digits: string)
    requires digits != [] && IsDigits(digits, 10) && Value(digits, 10) <= -INT_MIN
    ensures ParseDecimal("-" + digits) == Some(-(Value(digits, 10) as int))
    ensures ParseNumber("-" + digits) == Some(-(Value(digits, 10) as int))
  {
    var s := "-" + digits;
    assert s[0] == '-' && s[1..] == digits;
    assert s[..2] != "0x";
  }

  /** A number from 0 on: its digits alone. */
  lemma NaturalRoundTrip(x: int)
    requires 0 <= x <= INT_MAX
    ensures ParseDecimal(Decimal(x)) == Some(x) && ParseNumber(Decimal(x)) == Some(x)
  {
    var s := Decimal(x);
    var digits := Numeral(x, 10);
    NumeralValue(x, 10);
    NumeralNotHex(x);
    assert DigitValue(s[0]) >= 0;
    var v: int := Value(digits, 10);
    assert v == x;
    assert ParseDecimal(s) == Some(v);
  }

  /** Every 32-bit pattern written in hexadecimal after "0x" parses back to
      the `int` with those bits. */
  lemma HexRoundTrip(v: nat)
    requires v < 0x1_0000_0000
    ensures ParseNumber("0x" + Numeral(v, 16)) == Some(ToInt32(v))
  {
    var s := "0x" + Numeral(v, 16);
    assert s[..2] == "0x" && s[2..] == Numeral(v, 16);
    NumeralValue(v, 16);
  }

  /** The prefix is case-sensitive: after "0X" nothing parses. */
  lemma UpperPrefixRejected(s: string)
    ensures ParseNumber("0X" + s) == None
  {
    var t := "0X" + s;
    assert t[..2] != "0x";
    assert DigitValue(t[1]) < 0;
  }

  /** Hexadecimal with more than 32 significant bits overflows. */
  lemma HexOverflow(v: nat)
    requires v >= 0x1_0000_0000
    ensures ParseNumber("0x" + Numeral(v, 16)) == None
  {
    var s := "0x" + Numeral(v, 16);
    assert s[..2] == "0x" && s[2..] == Numeral(v, 16);
    NumeralValue(v, 16);
  }

  // ------------------------------------------------------------ splitting

  /** `s.Split(sep)`: the pieces between the occurrences of `sep`; there
      are two or more exactly when `sep` occurs. */
  function Split(s: string, sep: char): (r: seq<string>)
    ensures |r| >= 1 && (sep in s <==> |r| >= 2)
    decreases |s|
  {
    if s == [] then [""]
    else
      var rest := Split(s[1..], sep);
      if s[0] == sep then [""] + rest else [[s[0]] + rest[0]] + rest[1..]
  }

  /** Without the separator, `Split` gives the whole string. */
  lemma {:induction false} SplitNone(s: string, sep: char)
    requires sep !in s
    ensures Split(s, sep) == [s]
    decreases |s|
  {
    if s != [] {
      SplitNone(s[1..], sep);
      assert [s[0]] + s[1..] == s;
    }
  }

  /** A piece without the separator, the separator, then the rest: the
      piece comes first and the rest is split on. */
  lemma {:induction false} SplitFirst(a: string, sep: char, b: string)
    requires sep !in a
    ensures Split(a + [sep] + b, sep) == [a] + Split(b, sep)
    decreases |a|
  {
    var s := a + [sep] + b;
    if a == [] {
      assert s[1..] == b;
    } else {
      assert s[1..] == a[1..] + [sep] + b;
      SplitFirst(a[1..], sep, b);
      assert [a[0]] + a[1..] == a;
    }
  }

  // -------------------------------------------------------------- regions

  /** The region a dump reads: start address and size in bytes. */
  datatype Region = Region(addr: int, size: int)

  /** `ADDR[:SIZE]` (Burner/Program.cs lines 53-66): with a colon the first
      two pieces are the address and the size (further pieces are ignored);
      without one the size is 0x8000. */
  function ParseRegion(arg: string): (r: Option<Region>)
  {
    if ':' in arg then
      var str := Split(arg, ':');
      var a := ParseNumber(str[0]);
      var size := ParseNumber(str[1]);
      if a.Some? && size.Some? then Some(Region(a.value, size.value)) else None
    else
      var a := ParseNumber(arg);
      if a.Some? then Some(Region(a.value, DEFAULT_SIZE)) else None
  }

  /** `ADDR:SIZE` and `ADDR` written in decimal parse back to the region
      they describe. */
  lemma RegionRoundTrip(addr: int, size: int)
    requires INT_MIN <= addr <= INT_MAX && INT_MIN <= size <= INT_MAX
    ensures ParseRegion(Decimal(addr) + ":" + Decimal(size)) == Some(Region(addr, size))
    ensures ParseRegion(Decimal(addr)) == Some(Region(addr, DEFAULT_SIZE))
  {
    DecimalColonFree(addr);
    DecimalColonFree(size);
    SplitFirst(Decimal(addr), ':', Decimal(size));
    SplitNone(Decimal(size), ':');
    assert ':' in Decimal(addr) + ":" + Decimal(size) by {
      assert (Decimal(addr) + ":" + Decimal(size))[|Decimal(addr)|] == ':';
    }
    DecimalRoundTrip(addr);
    DecimalRoundTrip(size);
  }

  /** A decimal numeral holds neither separator. */
  lemma DecimalColonFree(x: int)
    ensures ':' !in Decimal(x) && '@' !in Decimal(x)
  {
    var s := Decimal(x);
    var digits := Numeral(if x < 0 then -x else x, 10);
    forall i | 0 <= i < |digits| ensures digits[i] != ':' && digits[i] != '@' {
      assert DigitValue(digits[i]) >= 0;
    }
  }

  // ------------------------------------------------------------ endpoints

  /** A serial port name and its baud rate. */
  datatype Endpoint = Endpoint(name: string, baud: int)

  /** `PORT[@BAUD]` (Burner/Program.cs lines 68-71): with an '@' the first
      piece is the name and the second the decimal baud rate; without one
      the rate is 500000. */
  function ParsePort(port: string): (r: Option<Endpoint>)
  {
    if '@' in port then
      var parts := Split(port, '@');
      var baud := ParseDecimal(parts[1]);
      if baud.Some? then Some(Endpoint(parts[0], baud.value)) else None
    else Some(Endpoint(port, DEFAULT_BAUD))
  }

  /** `NAME@BAUD` parses back to its endpoint, and a bare name gets the
      default rate. */
  lemma PortRoundTrip(name: string, baud: int)
    requires '@' !in name && INT_MIN <= baud <= INT_MAX
    ensures ParsePort(name + "@" + Decimal(baud)) == Some(Endpoint(name, baud))
    ensures ParsePort(name) == Some(Endpoint(name, DEFAULT_BAUD))
  {
    DecimalColonFree(baud);
    SplitFirst(name, '@', Decimal(baud));
    SplitNone(Decimal(baud), '@');
    assert '@' in name + "@" + Decimal(baud) by {
      assert (name + "@" + Decimal(baud))[|name|] == '@';
    }
    DecimalRoundTrip(baud);
  }

  // ---------------------------------------------------------------- flags

  /** `arg.ToLower() == "-x"` for the flag letter `x`. */
  predicate IsFlag(arg: string, lower: char, upper: char)
  {
    arg == ['-', lower] || arg == ['-', upper]
  }
}
