/** The OpenCL version parser getVersion of CL/cl.hpp and CL/cl2.hpp, and what the packed number is compared for. */
module Version {
  import opened Digits

  /** Bitwise or of naturals. */
  function Or(a: nat, b: nat): nat
    decreases a + b
  {
    if a == 0 then b else if b == 0 then a
    else 2 * Or(a / 2, b / 2) + (if a % 2 == 1 || b % 2 == 1 then 1 else 0)
  }

  /** Bit k of a number. */
  predicate Bit(n: nat, k: nat) {
    if k == 0 then n % 2 == 1 else Bit(n / 2, k - 1)
  }

  lemma {:induction false} OrBits(a: nat, b: nat, k: nat)
    ensures Bit(Or(a, b), k) <==> Bit(a, k) || Bit(b, k)
    decreases k
  {
    if a == 0 {
      NoBits(k);
    } else if b == 0 {
      NoBits(k);
    } else if k > 0 {
      OrBits(a / 2, b / 2, k - 1);
    }
  }

  lemma {:induction false} NoBits(k: nat)
    ensures !Bit(0, k)
  {
    if k > 0 { NoBits(k - 1); }
  }

  const WORD: nat := 0x1_0000_0000

  /** The 32-bit int with the bits of v: two's complement. */
  function Signed(v: int): int {
    if v % WORD < 0x8000_0000 then v % WORD else v % WORD - WORD
  }

  /** (high << 16) | low as an unsigned 32-bit word. */
  function Pack(high: int, low: int): nat {
    Or((high * 0x1_0000) % WORD, low % WORD)
  }

  /** Joining a number shifted left by k bits with one of at most k bits adds them. */
  lemma {:induction false} OrAdds(x: nat, k: nat, y: nat)
    requires y < Pow(2, k)
    ensures Or(x * Pow(2, k), y) == x * Pow(2, k) + y
    decreases k
  {
    if x == 0 || y == 0 {
      assert 0 * Pow(2, k) == 0;
    } else {
      var p := Pow(2, k - 1);
      PowPos(x, Pow(2, k));
      assert x * Pow(2, k) == 2 * (x * p);
      OrAdds(x, k - 1, y / 2);
    }
  }

  lemma SixteenBits()
    ensures Pow(2, 16) == 0x1_0000
  {
    assert Pow(2, 8) == 0x100;
    PowAdd(2, 8, 8);
  }

  lemma OrSixteen(x: nat, k: nat, y: nat)
    requires Pow(2, k) == 0x1_0000 && y < 0x1_0000
    ensures Or(x * 0x1_0000, y) == x * 0x1_0000 + y
  {
    OrAdds(x, k, y);
  }

  lemma PackAdds(high: nat, low: nat)
    requires high < 0x1_0000 && low < 0x1_0000
    ensures Pack(high, low) == high * 0x1_0000 + low
  {
    SixteenBits();
    OrSixteen(high, 16, low);
    ModSmall(high * 0x1_0000, WORD);
    ModSmall(low, WORD);
  }

  // ------------------------------------------------- the two loops

  /** First position from i on of the dot, or the length. */
  function Dot(text: seq<char>, i: nat): (d: nat)
    requires i <= |text|
    ensures i <= d <= |text| && (d < |text| ==> text[d] == '.')
    ensures forall k :: i <= k < d ==> text[k] != '.'
    decreases |text| - i
  {
    if i == |text| || text[i] == '.' then i else Dot(text, i + 1)
  }

  /** First position from i on of a space or NUL, or the length. */
  function End(text: seq<char>, i: nat): (d: nat)
    requires i <= |text|
    ensures i <= d <= |text| && (d < |text| ==> text[d] == ' ' || text[d] == '\0')
    ensures forall k :: i <= k < d ==> text[k] != ' ' && text[k] != '\0'
    decreases |text| - i
  {
    if i == |text| || text[i] == ' ' || text[i] == '\0' then i else End(text, i + 1)
  }

  /** The decimal accumulation, over any characters. */
  function Number(text: seq<char>): int {
    if text == [] then 0 else Number(text[..|text| - 1]) * 10 + (text[|text| - 1] as int - '0' as int)
  }

  /** Every character counts with its distance from '0' in its decimal place, digit or not. */
  lemma {:induction false} NumberPlaces(a: seq<char>, c: char, b: seq<char>)
    ensures Number([c]) == c as int - '0' as int
    ensures Number(a + [c] + b) == (Number(a) * 10 + (c as int - '0' as int)) * Pow(10, |b|) + Number(b)
    decreases |b|
  {
    assert [c][..0] == [];
    var text := a + [c] + b;
    if b == [] {
      assert text[..|text| - 1] == a;
    } else {
      var n := |b| - 1;
      assert text[..|text| - 1] == a + [c] + b[..n];
      NumberPlaces(a, c, b[..n]);
      var x, p := Number(a) * 10 + (c as int - '0' as int), Pow(10, n);
      assert Pow(10, |b|) == 10 * p && (x * p) * 10 == x * (10 * p);
    }
  }

  lemma NumberNext(text: seq<char>, lo: nat, i: nat)
    requires lo <= i < |text|
    ensures Number(text[lo..i + 1]) == Number(text[lo..i]) * 10 + (text[i] as int - '0' as int)
  {
    assert text[lo..i + 1][..i - lo] == text[lo..i];
  }

  /** Scanning stays inside the buffer exactly when a dot, and then a space or NUL, are there to stop it. */
  predicate Stops(text: seq<char>) {
    |text| >= 7 && Dot(text, 7) < |text| && End(text, Dot(text, 7) + 1) < |text|
  }

  /** The numbers before and after the dot. */
  function Parsed(text: seq<char>): (int, int)
    requires Stops(text)
  {
    var d := Dot(text, 7);
    (Number(text[7..d]), Number(text[d + 1..End(text, d + 1)]))
  }

  /** Equal words stay equal under any multiplication and addition. */
  lemma SameWord(x: int, y: int, m: int, a: int)
    requires x % WORD == y % WORD
    ensures (x * m + a) % WORD == (y * m + a) % WORD
  {
    var k := x / WORD - y / WORD;
    assert x == y + k * WORD;
    assert x * m + a == y * m + a + (k * m) * WORD by { assert (y + k * WORD) * m == y * m + (k * m) * WORD; }
    WholeWords(y * m + a, k * m);
  }

  lemma WholeWords(x: int, k: int)
    ensures (x + k * WORD) % WORD == x % WORD
  {}

  lemma SignedWord(v: int)
    ensures Signed(v) % WORD == v % WORD && Signed(Signed(v)) == Signed(v)
  {}

  /** One turn of a loop: multiply by ten, add the digit. */
  function Next(acc: int, c: char): int {
    Signed(Signed(acc * 10) + (c as int - '0' as int))
  }

  lemma SignedNext(v: int, c: char)
    ensures Next(Signed(v), c) == Signed(v * 10 + (c as int - '0' as int))
  {
    var digit := c as int - '0' as int;
    SignedWord(v);
    SameWord(Signed(v), v, 10, 0);
    SignedWord(Signed(v) * 10);
    SameWord(Signed(Signed(v) * 10), v * 10, 1, digit);
  }

  lemma NumberStep(text: seq<char>, lo: nat, i: nat)
    requires lo <= i < |text|
    ensures Next(Signed(Number(text[lo..i])), text[i]) == Signed(Number(text[lo..i + 1]))
  {
    NumberNext(text, lo, i);
    SignedNext(Number(text[lo..i]), text[i]);
  }

  lemma PackSigned(high: int, low: int)
    ensures Pack(Signed(high), Signed(low)) == Pack(high, low)
  {
    SignedWord(high);
    SignedWord(low);
    SameWord(Signed(high), high, 0x1_0000, 0);
  }

  /** The first loop. */
  method ReadMajor(text: seq<char>) returns (high: int, index: nat)
    requires |text| >= 7 && Dot(text, 7) < |text|
    ensures index == Dot(text, 7) && high == Signed(Number(text[7..index]))
  {
    high, index := 0, 7;
    while text[index] != '.'
      invariant 7 <= index < |text| && Dot(text, index) == Dot(text, 7)
      invariant high == Signed(Number(text[7..index]))
      decreases |text| - index
    {
      NumberStep(text, 7, index);
      high := Next(high, text[index]);
      index := index + 1;
    }
  }

  /** The second loop. */
  method ReadMinor(text: seq<char>, start: nat) returns (low: int, index: nat)
    requires start <= |text| && End(text, start) < |text|
    ensures index == End(text, start) && low == Signed(Number(text[start..index]))
  {
    low, index := 0, start;
    while text[index] != ' ' && text[index] != '\0'
      invariant start <= index < |text| && End(text, index) == End(text, start)
      invariant low == Signed(Number(text[start..index]))
      decreases |text| - index
    {
      NumberStep(text, start, index);
      low := Next(low, text[index]);
      index := index + 1;
    }
  }

  /** Each step wraps as a 32-bit int; the word returned is still that of the unbounded numbers. */
  method GetVersion(text: seq<char>) returns (version: nat)
    requires Stops(text)
    ensures version == Pack(Parsed(text).0, Parsed(text).1)
  {
    var high, d := ReadMajor(text);
    var low, index := ReadMinor(text, d + 1);
    PackSigned(Number(text[7..d]), Number(text[d + 1..index]));
    version := Pack(high, low);
  }

  // ------------------------------------------------- it inverts printing

  function Decimal(n: nat): (text: seq<char>)
    ensures text != [] && forall i :: 0 <= i < |text| ==> '0' <= text[i] <= '9'
  {
    (if n < 10 then [] else Decimal(n / 10)) + [(n % 10 + '0' as int) as char]
  }

  lemma {:induction false} NumberOfDecimal(n: nat)
    ensures Number(Decimal(n)) == n
    decreases n
  {
    var text := Decimal(n);
    if n >= 10 {
      NumberOfDecimal(n / 10);
      assert text[..|text| - 1] == Decimal(n / 10);
    } else {
      assert text[..0] == [];
    }
  }

  lemma {:induction false} DotAfter(text: seq<char>, i: nat, d: nat)
    requires i <= d < |text| && text[d] == '.' && forall k :: i <= k < d ==> text[k] != '.'
    ensures Dot(text, i) == d
    decreases d - i
  {
    if i < d { DotAfter(text, i + 1, d); }
  }

  lemma {:induction false} EndAfter(text: seq<char>, i: nat, d: nat)
    requires i <= d < |text| && (text[d] == ' ' || text[d] == '\0')
    requires forall k :: i <= k < d ==> text[k] != ' ' && text[k] != '\0'
    ensures End(text, i) == d
    decreases d - i
  {
    if i < d { EndAfter(text, i + 1, d); }
  }

  /** The version text of section 4.1 of the OpenCL 1.2 specification: OpenCL, a space, major.minor, and a rest. */
  function Printed(major: nat, minor: nat, rest: seq<char>): seq<char> {
    "OpenCL " + (Decimal(major) + ("." + (Decimal(minor) + rest)))
  }

  lemma PrintedParts(major: nat, minor: nat, rest: seq<char>)
    requires rest != [] && (rest[0] == ' ' || rest[0] == '\0')
    ensures var text := Printed(major, minor, rest);
            && Stops(text)
            && text[7..Dot(text, 7)] == Decimal(major)
            && text[Dot(text, 7) + 1..End(text, Dot(text, 7) + 1)] == Decimal(minor)
  {
    var a, b := Decimal(major), Decimal(minor);
    var text := Printed(major, minor, rest);
    Placed("OpenCL ", a, '.', b, rest);
    DotAfter(text, 7, 7 + |a|);
    EndAfter(text, 8 + |a|, 8 + |a| + |b|);
  }

  /** Where the parts of a joined text lie. */
  lemma Placed(p: seq<char>, a: seq<char>, c: char, b: seq<char>, rest: seq<char>)
    requires rest != []
    ensures var text := p + (a + ([c] + (b + rest))); var d := |p| + |a|; var e := d + 1 + |b|;
            && e < |text| && text[|p|..d] == a && text[d] == c && text[d + 1..e] == b && text[e] == rest[0]
            && (forall k :: |p| <= k < d ==> text[k] == a[k - |p|])
            && (forall k :: d + 1 <= k < e ==> text[k] == b[k - d - 1])
  {}

  lemma ParsedParts(text: seq<char>, a: seq<char>, m: int, b: seq<char>, n: int)
    requires Stops(text) && text[7..Dot(text, 7)] == a && text[Dot(text, 7) + 1..End(text, Dot(text, 7) + 1)] == b
    requires Number(a) == m && Number(b) == n
    ensures Parsed(text) == (m, n)
  {}

  /** Parsing inverts printing, whatever follows the version. */
  lemma ParsedPrinted(major: nat, minor: nat, rest: seq<char>)
    requires rest != [] && (rest[0] == ' ' || rest[0] == '\0')
    ensures Stops(Printed(major, minor, rest)) && Parsed(Printed(major, minor, rest)) == (major, minor)
  {
    var text, a, b := Printed(major, minor, rest), Decimal(major), Decimal(minor);
    PrintedParts(major, minor, rest);
    assert Number(a) == major by { NumberOfDecimal(major); }
    assert Number(b) == minor by { NumberOfDecimal(minor); }
    ParsedParts(text, a, major, b, minor);
  }

  /** For every version that fits its halves, the result is major * 2^16 + minor. */
  method ParsePrinted(major: nat, minor: nat, rest: seq<char>) returns (version: nat)
    requires major < 0x1_0000 && minor < 0x1_0000
    requires rest != [] && (rest[0] == ' ' || rest[0] == '\0')
    ensures version == major * 0x1_0000 + minor
  {
    ParsedPrinted(major, minor, rest);
    PackAdds(major, minor);
    version := GetVersion(Printed(major, minor, rest));
  }

  predicate Later(major: nat, minor: nat, major': nat, minor': nat) {
    major > major' || (major == major' && minor > minor')
  }

  lemma SignedPack(major: nat, minor: nat)
    requires major < 0x1_0000 && minor < 0x1_0000
    ensures Signed(Pack(major, minor)) == major * 0x1_0000 + minor - (if major < 0x8000 then 0 else WORD)
  {
    PackAdds(major, minor);
    ModSmall(major * 0x1_0000 + minor, WORD);
  }

  /**
   Comparing packed versions as ints, as the headers do, is comparing (major, minor) lexicographically exactly
   when both major numbers lie on the same side of 2^15.
   */
  lemma PackedOrder(major: nat, minor: nat, major': nat, minor': nat)
    requires major < 0x1_0000 && minor < 0x1_0000 && major' < 0x1_0000 && minor' < 0x1_0000
    ensures (Signed(Pack(major, minor)) > Signed(Pack(major', minor')) <==> Later(major, minor, major', minor'))
            <==> (major < 0x8000 <==> major' < 0x8000)
  {
    SignedPack(major, minor);
    SignedPack(major', minor');
  }
}
