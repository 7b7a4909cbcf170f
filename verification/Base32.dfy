/**
 How ci/record_rep_weights.py turns an account's text back into its number: strip
 "xrb_", translate to the standard base-32 alphabet, pad, decode with b32decode
 (section 6 of RFC 4648), read the bytes as one number, shift and mask.
 */
module Base32 {
  import opened Basics
  import opened Digits
  import opened Accounts

  // ------------------------------------------------- str.replace("xrb_", "")

  function Stripped(s: seq<char>): seq<char>
    decreases |s|
  {
    if |s| >= 4 && s[..4] == "xrb_" then Stripped(s[4..])
    else if s == [] then []
    else [s[0]] + Stripped(s[1..])
  }

  predicate OccursAt(s: seq<char>, i: int) {
    0 <= i && i + 4 <= |s| && s[i..i + 4] == "xrb_"
  }

  /** A text without the prefix stays as it is. */
  lemma {:induction false} StripNothing(s: seq<char>)
    requires forall i :: !OccursAt(s, i)
    ensures Stripped(s) == s
    decreases |s|
  {
    assert !OccursAt(s, 0);
    if s != [] {
      forall i ensures !OccursAt(s[1..], i) {
        if 0 <= i && i + 4 <= |s| - 1 {
          assert !OccursAt(s, i + 1);
          assert s[1..][i..i + 4] == s[i + 1..i + 5];
        }
      }
      StripNothing(s[1..]);
    }
  }

  /** Every occurrence goes, wherever it stands, and what lies before and after is treated by itself. */
  lemma {:induction false} StripEverywhere(a: seq<char>, b: seq<char>)
    ensures Stripped(a + "xrb_" + b) == Stripped(a) + Stripped(b)
    decreases |a|
  {
    var s := a + "xrb_" + b;
    if a == [] {
      assert s[..4] == "xrb_" && s[4..] == b;
    } else if |a| >= 4 && a[..4] == "xrb_" {
      assert s[..4] == a[..4] && s[4..] == a[4..] + "xrb_" + b;
      StripEverywhere(a[4..], b);
    } else {
      assert s[1..] == a[1..] + "xrb_" + b && s[0] == a[0];
      StripEverywhere(a[1..], b);
      NoOverlap(a, b);
    }
  }

  /** No two occurrences overlap. */
  lemma NoOverlap(a: seq<char>, b: seq<char>)
    requires a != [] && !(|a| >= 4 && a[..4] == "xrb_")
    ensures (a + "xrb_" + b)[..4] != "xrb_"
  {
    var s := a + "xrb_" + b;
    if |a| >= 4 {
      assert s[..4] == a[..4];
    } else {
      assert s[..4][|a|] == 'x' && "xrb_"[|a|] != 'x';
    }
  }

  // ------------------------------------------------- translate and the base-32 alphabet

  /** A..Z 2..7. */
  function StandardSymbol(v: nat): char
    requires v < 32
  {
    if v < 26 then (v + 'A' as int) as char else (v - 26 + '2' as int) as char
  }

  function StandardValue(c: char): Option<nat> {
    if 'A' <= c <= 'Z' then Some(c as int - 'A' as int)
    else if '2' <= c <= '7' then Some(c as int - '2' as int + 26)
    else None
  }

  /** Characters outside the account alphabet pass through unchanged. */
  function Translated(c: char): char {
    var v := SymbolValue(c);
    if v.Some? && v.value < 32 then StandardSymbol(v.value) else c
  }

  const STANDARD := "ABCDEFGHIJKLMNOPQRSTUVWXYZ234567"

  lemma StandardLetters(v: nat)
    requires v < 32
    ensures |STANDARD| == 32 && StandardSymbol(v) == STANDARD[v] && StandardValue(STANDARD[v]) == Some(v)
  {
    match v {
      case 0 => case 1 => case 2 => case 3 => case 4 => case 5 => case 6 => case 7 =>
      case 8 => case 9 => case 10 => case 11 => case 12 => case 13 => case 14 => case 15 =>
      case 16 => case 17 => case 18 => case 19 => case 20 => case 21 => case 22 => case 23 =>
      case 24 => case 25 => case 26 => case 27 => case 28 => case 29 => case 30 => case _ =>
    }
  }

  lemma StandardInverts(c: char)
    ensures StandardValue(c).Some? ==> StandardValue(c).value < 32 && StandardSymbol(StandardValue(c).value) == c
  {}

  /** The script's table sends the account alphabet, symbol by symbol, to the base-32 one, and nothing else. */
  lemma TranslatesAlphabet(c: char, v: nat)
    ensures |ALPHABET| == |STANDARD| == 32
    ensures v < 32 ==> Translated("13456789abcdefghijkmnopqrstuwxyz"[v]) == "ABCDEFGHIJKLMNOPQRSTUVWXYZ234567"[v]
    ensures c !in "13456789abcdefghijkmnopqrstuwxyz" ==> Translated(c) == c
  {
    TablesAreAlphabet(c, 0);
    StandardLetters(0);
    if v < 32 {
      TablesAreAlphabet(ALPHABET[v], v);
      StandardLetters(v);
    }
  }

  /** The alphabet of section 6 of RFC 4648, in its order. */
  lemma StandardIsAlphabet(c: char, v: nat)
    ensures |STANDARD| == 32
    ensures StandardValue(c) == Some(v) <==> v < 32 && "ABCDEFGHIJKLMNOPQRSTUVWXYZ234567"[v] == c
  {
    StandardLetters(0);
    StandardInverts(c);
    if v < 32 { StandardLetters(v); }
  }

  function Translate(s: seq<char>): (t: seq<char>)
    ensures |t| == |s| && forall i :: 0 <= i < |s| ==> t[i] == Translated(s[i])
  {
    seq(|s|, i requires 0 <= i < |s| => Translated(s[i]))
  }

  // ------------------------------------------------- b32decode

  /** The number of pads at the end. */
  function Pads(s: seq<char>): (n: nat)
    ensures n <= |s|
  {
    if s != [] && s[|s| - 1] == '=' then 1 + Pads(s[..|s| - 1]) else 0
  }

  predicate Decodable(s: seq<char>) {
    forall i :: 0 <= i < |s| ==> StandardValue(s[i]).Some?
  }

  function Values(s: seq<char>): (ds: seq<nat>)
    requires Decodable(s)
    ensures |ds| == |s| && Digital(32, ds)
    ensures forall i :: 0 <= i < |s| ==> ds[i] == StandardValue(s[i]).value
  {
    seq(|s|, i requires 0 <= i < |s| => StandardValue(s[i]).value)
  }

  /** Eight symbols at a time become five bytes; a shorter rest is left over. */
  function Quanta(ds: seq<nat>): seq<nat>
    decreases |ds|
  {
    if |ds| < 8 then [] else ToDigits(256, 5, Value(32, ds[..8])) + Quanta(ds[8..])
  }

  /** Bytes kept of the last, partial quantum, by number of pad characters. */
  function Kept(pads: nat): (k: Option<nat>)
    ensures k.Some? ==> k.value <= 4
  {
    if pads == 0 then Some(0) else if pads == 1 then Some(4) else if pads == 3 then Some(3)
    else if pads == 4 then Some(2) else if pads == 6 then Some(1) else None
  }

  /** The bytes kept of a last quantum b. */
  function LastBytes(b: seq<nat>, k: nat): (last: seq<nat>)
    requires |b| <= 8 && k <= 5
    ensures |last| == k
  {
    ToDigits(256, 5, Value(32, b) * Pow(32, 8 - |b|))[..k]
  }

  /** The five bytes of each whole quantum, and k bytes of the rest. */
  function Bytes(v: seq<char>, k: nat): seq<nat>
    requires Decodable(v) && k <= 5
  {
    Quanta(Values(v)) + LastBytes(Values(v)[|v| - |v| % 8..], k)
  }

  lemma {:induction false} PadsExactly(s: seq<char>)
    ensures Pads(s) < |s| ==> s[|s| - Pads(s) - 1] != '='
    ensures forall i :: |s| - Pads(s) <= i < |s| ==> s[i] == '='
    decreases |s|
  {
    if s != [] && s[|s| - 1] == '=' { PadsExactly(s[..|s| - 1]); }
  }

  /** Text without the pads at its end. */
  function Core(t: seq<char>): seq<char> { t[..|t| - Pads(t)] }

  /** None stands for the TypeError that b32decode raises. */
  function Decode(text: seq<char>): Option<seq<nat>> {
    var p := Pads(text);
    if |text| % 8 != 0 || !Decodable(Core(text)) || Kept(p).None? then None
    else Some(Bytes(Core(text), Kept(p).value))
  }

  /** The account number the script writes for an address. */
  function AddressNumber(address: seq<char>): Option<nat> {
    var bytes := Decode(Translate(Stripped(address)) + "====");
    if bytes.None? then None else Some((Value(256, bytes.value) / 0x10_0000_0000) % ACCOUNT_SPAN)
  }

  // ------------------------------------------------- what it computes

  /** The value a character decodes to after translation: account symbols, and also A..Z and 2. */
  function Accepted(c: char): (v: Option<nat>)
    ensures v.Some? ==> v.value < 32
  {
    StandardValue(Translated(c))
  }

  lemma AcceptedSymbol(c: char)
    ensures SymbolValue(c).Some? ==> Accepted(c) == SymbolValue(c)
    ensures Accepted(c).Some? <==> SymbolValue(c).Some? || 'A' <= c <= 'Z' || c == '2'
  {
    if SymbolValue(c).Some? { TablesInvert(c, SymbolValue(c).value); }
  }

  predicate AllAccepted(s: seq<char>) {
    forall i :: 0 <= i < |s| ==> Accepted(s[i]).Some?
  }

  function AcceptedValues(s: seq<char>): (ds: seq<nat>)
    requires AllAccepted(s)
    ensures |ds| == |s| && Digital(32, ds)
    ensures forall i :: 0 <= i < |s| ==> ds[i] == Accepted(s[i]).value
  {
    seq(|s|, i requires 0 <= i < |s| => Accepted(s[i]).value)
  }

  lemma OneQuantum(a: seq<nat>)
    requires Digital(32, a) && |a| == 8
    ensures Value(256, ToDigits(256, 5, Value(32, a))) == Value(32, a)
  {
    ValueBound(32, a);
    DigitsValue(256, 5, Value(32, a));
    assert Pow(32, 8) == 0x100_0000_0000 && Pow(256, 5) == 0x100_0000_0000;
  }

  lemma {:induction false} QuantaValue(ds: seq<nat>)
    requires Digital(32, ds) && |ds| % 8 == 0
    ensures |Quanta(ds)| == |ds| / 8 * 5 && Value(256, Quanta(ds)) == Value(32, ds)
    decreases |ds|
  {
    if |ds| >= 8 {
      var a, b := ds[..8], ds[8..];
      QuantaValue(b);
      OneQuantum(a);
      assert ds == a + b;
      ValueConcat(32, a, b);
      ValueConcat(256, ToDigits(256, 5, Value(32, a)), Quanta(b));
      SamePower(|b| / 8);
      assert Pow(256, |Quanta(b)|) == Pow(32, |b|);
    }
  }

  lemma SamePower(k: nat)
    ensures Pow(256, 5 * k) == Pow(32, 8 * k)
  {
    assert Pow(2, 8) == 256 && Pow(2, 5) == 32;
    PowPow(2, 8, 5 * k);
    PowPow(2, 5, 8 * k);
    assert 8 * (5 * k) == 5 * (8 * k);
  }

  /** m symbols left over after whole quanta, of which k bytes are kept; the low `span` of them are lost. */
  predicate Partial(m: nat, k: nat, span: nat) {
    (m == 4 && k == 2 && span == 16) || (m == 2 && k == 1 && span == 4)
  }

  lemma SmallPowers(m: nat, k: nat, span: nat)
    requires Partial(m, k, span)
    ensures Pow(32, m) == Pow(256, k) * span && Pow(32, 8 - m) * span == Pow(256, 5 - k)
    ensures Pow(256, k) > 0 && Pow(32, 8 - m) > 0
  {
    assert Pow(32, 4) == 0x10_0000 && Pow(32, 2) == 0x400 && Pow(32, 6) == 0x4000_0000;
    assert Pow(256, 3) == 0x100_0000 && Pow(256, 2) == 0x1_0000 && Pow(256, 1) == 0x100;
    assert Pow(256, 4) == 0x1_0000_0000;
  }

  /** Shifting left by p and right by p * span loses the low part. */
  lemma Shifted(v: nat, p: nat, span: nat)
    requires p > 0 && span > 0
    ensures (v * p) / (p * span) == v / span
  {
    DivUnique(v * p, p, v, 0);
    DivDiv(v * p, p, span, p * span);
  }

  /** The bytes kept of a last quantum hold its symbols without their low bits. */
  lemma LastQuantum(b: seq<nat>, k: nat, span: nat)
    requires Digital(32, b) && Partial(|b|, k, span)
    ensures Value(256, LastBytes(b, k)) == Value(32, b) / span
  {
    var m, v := |b|, Value(32, b);
    SmallPowers(m, k, span);
    ValueBound(32, b);
    Shifted(v, Pow(32, 8 - m), span);
    LeadingDigits(256, 5, v * Pow(32, 8 - m), k);
    DigitsValue(256, k, v / span);
    DivBound(v, span, Pow(256, k));
    ModSmall(v / span, Pow(256, k));
  }

  lemma JoinedValue(a: seq<nat>, b: seq<nat>, k: nat, span: nat)
    requires Digital(32, a) && Digital(32, b) && |a| % 8 == 0 && Partial(|b|, k, span)
    ensures Value(256, Quanta(a) + LastBytes(b, k)) == Value(32, a + b) / span
  {
    var x, v := Value(32, a), Value(32, b);
    ValueConcat(32, a, b);
    LastQuantum(b, k, span);
    QuantaValue(a);
    ValueConcat(256, Quanta(a), LastBytes(b, k));
    SmallPowers(|b|, k, span);
    DropLow(x, Pow(256, k), span, v);
  }

  lemma DropLow(x: nat, q: nat, span: nat, v: nat)
    requires span > 0
    ensures (x * (q * span) + v) / span == x * q + v / span
  {
    assert x * (q * span) == (x * q) * span;
    DivUnique(x * (q * span) + v, span, x * q + v / span, v % span);
  }

  lemma BytesValue(ds: seq<nat>, n: nat, k: nat, span: nat)
    requires Digital(32, ds) && n <= |ds| && n % 8 == 0 && Partial(|ds| - n, k, span)
    ensures Value(256, Quanta(ds) + LastBytes(ds[n..], k)) == Value(32, ds) / span
  {
    var a, b := ds[..n], ds[n..];
    assert ds == a + b;
    QuantaPrefix(a, b);
    JoinedValue(a, b, k, span);
  }

  lemma {:induction false} QuantaPrefix(a: seq<nat>, b: seq<nat>)
    requires |a| % 8 == 0 && |b| < 8
    ensures Quanta(a + b) == Quanta(a)
    decreases |a|
  {
    if |a| >= 8 {
      assert (a + b)[..8] == a[..8] && (a + b)[8..] == a[8..] + b;
      QuantaPrefix(a[8..], b);
    }
  }

  function Padding(k: nat): seq<char> { seq(k, _ => '=') }

  lemma {:induction false} PadsAppend(t: seq<char>, k: nat)
    ensures Pads(t + Padding(k)) == Pads(t) + k && Core(t + Padding(k)) == Core(t)
  {
    if k == 0 {
      assert t + Padding(0) == t;
    } else {
      var s := t + Padding(k);
      assert s[..|s| - 1] == t + Padding(k - 1);
      PadsAppend(t, k - 1);
    }
  }

  /** Two ways to come out right with four more pads: no pads and four symbols over, or two pads and two symbols. */
  predicate Completes(size: nat, pads: nat) {
    (size % 8 == 4 && pads == 0) || (size % 8 == 2 && pads == 2)
  }

  lemma PadsToEight(size: nat, pads: nat)
    ensures (size + pads + 4) % 8 == 0 && Kept(pads + 4).Some? <==> Completes(size, pads)
  {}

  lemma DecodePadded(u: seq<char>)
    ensures var v := Core(u); var p := Pads(u); var r := Decode(u + Padding(4));
            && (r.Some? <==> Completes(|v|, p) && Decodable(v))
            && (r.Some? ==> r == Some(Bytes(v, if p == 0 then 2 else 1)))
  {
    PadsAppend(u, 4);
    PadsToEight(|Core(u)|, Pads(u));
  }

  /** b32decode of a text and four pads. */
  lemma DecodeFourPads(u: seq<char>)
    ensures var v := Core(u); var p := Pads(u); var r := Decode(u + "====");
            && (r.Some? <==> Completes(|v|, p) && Decodable(v))
            && (r.Some? ==> r == Some(Bytes(v, if p == 0 then 2 else 1)))
  {
    assert "====" == Padding(4);
    DecodePadded(u);
  }

  /** What lies of a text's value below the bits that the script keeps. */
  function LowSpan(pads: nat): nat { if pads == 0 then 0x100_0000_0000 else 0x40_0000_0000 }

  /** For every text: success exactly on the right length and alphabet, and which bits of its value are kept. */
  lemma TextNumber(address: seq<char>)
    ensures var t := Stripped(address); var v := Core(t); var p := Pads(t);
            && (AddressNumber(address).Some? <==>
                  ((|v| % 8 == 4 && p == 0) || (|v| % 8 == 2 && p == 2)) && AllAccepted(v))
            && (AddressNumber(address).Some? ==>
                  var low := if p == 0 then 0x100_0000_0000 else 0x40_0000_0000;
                  AddressNumber(address).value == (Value(32, AcceptedValues(v)) / low) % ACCOUNT_SPAN)
  {
    var t := Stripped(address);
    TranslatedText(Core(t));
    TranslatedPads(t);
    DecodeFourPads(Translate(t));
    if Completes(|Core(t)|, Pads(t)) && AllAccepted(Core(t)) { DecodedNumber(Translate(t)); }
  }

  lemma TranslatedText(t: seq<char>)
    ensures Decodable(Translate(t)) <==> AllAccepted(t)
    ensures AllAccepted(t) ==> Values(Translate(t)) == AcceptedValues(t)
  {
    assert forall i :: 0 <= i < |t| ==> StandardValue(Translate(t)[i]) == Accepted(t[i]);
  }

  /** Translation neither makes nor removes pads. */
  lemma {:induction false} TranslatedPads(t: seq<char>)
    ensures Pads(Translate(t)) == Pads(t) && Core(Translate(t)) == Translate(Core(t))
  {
    if t != [] {
      var u, n := Translate(t), |t| - 1;
      assert u[..n] == Translate(t[..n]);
      TranslatedPads(t[..n]);
      assert u[n] == '=' <==> t[n] == '=';
    }
  }

  /** A decodable core of the right length, four symbols over or two. */
  lemma CoreBytes(v: seq<char>, n: nat, k: nat, span: nat, low: nat)
    requires Decodable(v) && n <= |v| && n % 8 == 0 && Partial(|v| - n, k, span) && low == span * 0x10_0000_0000
    ensures Value(256, Quanta(Values(v)) + LastBytes(Values(v)[n..], k)) / 0x10_0000_0000 == Value(32, Values(v)) / low
  {
    BytesValue(Values(v), n, k, span);
    DivDiv(Value(32, Values(v)), span, 0x10_0000_0000, low);
  }

  lemma DecodedNumber(u: seq<char>)
    requires Completes(|Core(u)|, Pads(u)) && Decodable(Core(u))
    ensures Decode(u + "====").Some?
    ensures Value(256, Decode(u + "====").value) / 0x10_0000_0000 == Value(32, Values(Core(u))) / LowSpan(Pads(u))
  {
    DecodeFourPads(u);
    var v := Core(u);
    WholeQuanta(|v|);
    if Pads(u) == 0 {
      CoreBytes(v, |v| - |v| % 8, 2, 16, LowSpan(0));
    } else {
      CoreBytes(v, |v| - |v| % 8, 1, 4, LowSpan(2));
    }
  }

  lemma WholeQuanta(n: nat)
    ensures n % 8 <= n && (n - n % 8) % 8 == 0
  {}

  // ------------------------------------------------- which addresses it recovers

  lemma {:induction false} StripPrefix(p: seq<char>, body: seq<char>)
    requires AllSymbols(body)
    ensures Stripped(p + body) == Stripped(p) + body
    decreases |p|
  {
    var s := p + body;
    if p == [] {
      assert s == body;
      StripBody(body);
    } else {
      assert s[1..] == p[1..] + body && s[0] == p[0];
      StripPrefix(p[1..], body);
      if |p| >= 4 {
        assert s[..4] == p[..4] && s[4..] == p[4..] + body;
        StripPrefix(p[4..], body);
      } else if |s| >= 4 {
        NoMatch(p, body);
      }
    }
  }

  /** No occurrence of xrb_ can end inside the symbols. */
  lemma NoMatch(p: seq<char>, body: seq<char>)
    requires AllSymbols(body) && |p| < 4 <= |p| + |body|
    ensures (p + body)[..4] != "xrb_"
  {
    assert (p + body)[..4][3] == body[3 - |p|];
    assert SymbolValue('_').None?;
  }

  lemma {:induction false} StripBody(body: seq<char>)
    requires AllSymbols(body)
    ensures Stripped(body) == body
    decreases |body|
  {
    if body != [] {
      if |body| >= 4 { NoMatch([], body); assert [] + body == body; }
      StripBody(body[1..]);
    }
  }

  /** A prefix of whole quanta only adds bits above the mask. */
  lemma HighBitsMasked(x: nat, packed: nat)
    requires packed < Pow(32, 60)
    ensures ((x * Pow(32, 60) + packed) / CHECK_SPAN) % ACCOUNT_SPAN == (packed / CHECK_SPAN) % ACCOUNT_SPAN
  {
    Spans();
    var m := CHECK_SPAN;
    assert x * Pow(32, 60) == m * (x * 16 * ACCOUNT_SPAN);
    DivUnique(x * Pow(32, 60) + packed, m, x * 16 * ACCOUNT_SPAN + packed / m, packed % m);
    var q := packed / m;
    DivUnique(x * 16 * ACCOUNT_SPAN + q, ACCOUNT_SPAN, x * 16 + q / ACCOUNT_SPAN, q % ACCOUNT_SPAN);
  }

  /** Behind any prefix, an account is recovered exactly when stripping leaves whole quanta of accepted characters. */
  lemma RecoversExactly(h: Hash, account: nat, p: seq<char>)
    requires account < ACCOUNT_SPAN
    ensures AddressNumber(p + Body(h, account)) == Some(account)
            <==> |Stripped(p)| % 8 == 0 && AllAccepted(Stripped(p))
  {
    var address, r := p + Body(h, account), Stripped(p);
    PrefixedText(h, account, p);
    TextNumber(address);
    NoPads(Stripped(address));
    if |r| % 8 == 0 && AllAccepted(r) {
      JoinedNumber(h, account, AcceptedValues(r));
    }
  }

  lemma JoinedNumber(h: Hash, account: nat, ds: seq<nat>)
    requires account < ACCOUNT_SPAN && AllSymbols(Body(h, account))
    ensures (Value(32, ds + SymbolValues(Body(h, account))) / CHECK_SPAN) % ACCOUNT_SPAN == account
  {
    ValueConcat(32, ds, SymbolValues(Body(h, account)));
    BodyValue(h, account);
    MaskedAccount(h, account, Value(32, ds));
  }

  lemma MaskedAccount(h: Hash, account: nat, x: nat)
    requires account < ACCOUNT_SPAN
    ensures ((x * Pow(32, 60) + Packed(h, account)) / CHECK_SPAN) % ACCOUNT_SPAN == account
  {
    PackedBound(h, account);
    HighBitsMasked(x, Packed(h, account));
    PackedParts(h, account);
    ModSmall(account, ACCOUNT_SPAN);
  }

  lemma Sixty(n: nat)
    ensures (n + 60) % 8 == 4 <==> n % 8 == 0
  {}

  /** What is left of a prefixed account text, and how it decodes symbol by symbol. */
  lemma PrefixedText(h: Hash, account: nat, p: seq<char>)
    requires account < ACCOUNT_SPAN
    ensures var r := Stripped(p); var t := Stripped(p + Body(h, account));
            && |t| == |r| + 60 && (|t| % 8 == 4 <==> |r| % 8 == 0)
            && t[|t| - 1] != '=' && AllSymbols(Body(h, account))
            && (AllAccepted(t) <==> AllAccepted(r))
            && (AllAccepted(r) ==> AcceptedValues(t) == AcceptedValues(r) + SymbolValues(Body(h, account)))
  {
    var body, r := Body(h, account), Stripped(p);
    BodyValue(h, account);
    StripPrefix(p, body);
    var t := r + body;
    Sixty(|r|);
    assert SymbolValue(body[59]).Some? && t[|t| - 1] == body[59];
    forall i | 0 <= i < |body| ensures Accepted(t[|r| + i]) == SymbolValue(body[i]) { AcceptedSymbol(body[i]); }
    assert AllAccepted(t) <==> AllAccepted(r) by {
      assert forall i :: 0 <= i < |r| ==> t[i] == r[i];
      if AllAccepted(r) {
        forall i | 0 <= i < |t| ensures Accepted(t[i]).Some? { if i >= |r| { assert t[i] == t[|r| + (i - |r|)]; } }
      }
    }
  }

  lemma StripWhole(p: seq<char>)
    requires p == "xrb_"
    ensures Stripped(p) == []
  {
    assert p[..4] == p && p[4..] == [];
  }

  /** The script recovers every account behind the prefix it strips. */
  lemma RecoversOldPrefix(h: Hash, account: nat)
    requires account < ACCOUNT_SPAN
    ensures AddressNumber("xrb_" + Body(h, account)) == Some(account)
  {
    StripWhole("xrb_");
    RecoversExactly(h, account, "xrb_");
  }

  /** Behind any other four characters no account is decoded: the text is whole quanta, and the pads are wrong. */
  lemma FailsBehindFour(h: Hash, account: nat, p: seq<char>)
    requires account < ACCOUNT_SPAN && |p| == 4 && p != "xrb_"
    ensures AddressNumber(p + Body(h, account)).None?
  {
    StripShort(p);
    PrefixedText(h, account, p);
    WrongLength(p + Body(h, account), Stripped(p + Body(h, account)));
  }

  lemma WrongLength(address: seq<char>, t: seq<char>)
    requires t == Stripped(address) && t != [] && t[|t| - 1] != '=' && |t| % 8 != 4
    ensures AddressNumber(address).None?
  {
    TextNumber(address);
    NoPads(t);
  }

  lemma NoPads(t: seq<char>)
    requires t != [] && t[|t| - 1] != '='
    ensures Pads(t) == 0 && Core(t) == t
  {}

  /** It fails on every address the node itself prints, whose prefix is flr_. */
  lemma FailsOnNodePrefix(h: Hash, account: nat)
    requires account < ACCOUNT_SPAN
    ensures AddressNumber("flr_" + Body(h, account)).None?
  {
    FailsBehindFour(h, account, "flr_");
  }

  lemma StripShort(p: seq<char>)
    requires |p| == 4 && p != "xrb_"
    ensures Stripped(p) == p
  {
    assert p[..4] == p;
    assert Stripped(p[1..][1..][1..][1..]) == [];
    assert Stripped(p[1..][1..][1..]) == p[1..][1..][1..];
    assert Stripped(p[1..][1..]) == p[1..][1..];
    assert Stripped(p[1..]) == p[1..];
  }
}
