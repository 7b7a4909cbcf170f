/**
 The node's account text: encode_account and decode_account of nano/lib/numbers.cpp.
 An account is a 256-bit number; its text is a prefix and sixty base-32 symbols
 holding the number and a 40-bit checksum. The checksum function is a parameter.
 */
module Accounts {
  import opened Basics
  import opened Digits

  type Hash = nat -> nat

  const CHECK_SPAN: nat := 0x100_0000_0000                // 2 to the 40
  const ACCOUNT_SPAN: nat :=                              // 2 to the 256
    0x1_0000_0000_0000_0000_0000_0000_0000_0000_0000_0000_0000_0000_0000_0000_0000_0000

  /** account_lookup: 1 3..9 a..k m..u w..z. */
  function Symbol(v: nat): char
    requires v < 32
  {
    if v == 0 then '1'
    else if v < 8 then (v - 1 + '3' as int) as char
    else if v < 19 then (v - 8 + 'a' as int) as char
    else if v < 28 then (v - 19 + 'm' as int) as char
    else (v - 28 + 'w' as int) as char
  }

  /** account_reverse, for the characters decode_account lets through; None for its '~' entries. */
  function SymbolValue(c: char): Option<nat> {
    if c == '1' then Some(0)
    else if '3' <= c <= '9' then Some(c as int - '3' as int + 1)
    else if 'a' <= c <= 'k' then Some(c as int - 'a' as int + 8)
    else if 'm' <= c <= 'u' then Some(c as int - 'm' as int + 19)
    else if 'w' <= c <= 'z' then Some(c as int - 'w' as int + 28)
    else None
  }

  /** The two tables are inverse to each other. */
  lemma TablesInvert(c: char, v: nat)
    ensures SymbolValue(c) == Some(v) <==> v < 32 && Symbol(v) == c
  {}

  const ALPHABET := "13456789abcdefghijkmnopqrstuwxyz"

  lemma Letters(v: nat)
    requires v < 32
    ensures |ALPHABET| == 32 && Symbol(v) == ALPHABET[v]
  {
    match v {
      case 0 => case 1 => case 2 => case 3 => case 4 => case 5 => case 6 => case 7 =>
      case 8 => case 9 => case 10 => case 11 => case 12 => case 13 => case 14 => case 15 =>
      case 16 => case 17 => case 18 => case 19 => case 20 => case 21 => case 22 => case 23 =>
      case 24 => case 25 => case 26 => case 27 => case 28 => case 29 => case 30 => case _ =>
    }
  }

  /** The tables are those of the account alphabet; a character outside it has no value. */
  lemma TablesAreAlphabet(c: char, v: nat)
    ensures |ALPHABET| == 32
    ensures v < 32 ==> Symbol(v) == "13456789abcdefghijkmnopqrstuwxyz"[v]
    ensures SymbolValue(c) == Some(v) <==> v < 32 && "13456789abcdefghijkmnopqrstuwxyz"[v] == c
    ensures SymbolValue(c).Some? <==> c in "13456789abcdefghijkmnopqrstuwxyz"
  {
    if v < 32 { Letters(v); }
    TablesInvert(c, v);
    if SymbolValue(c).Some? {
      Letters(SymbolValue(c).value);
      TablesInvert(c, SymbolValue(c).value);
    } else if c in ALPHABET {
      var k :| 0 <= k < |ALPHABET| && ALPHABET[k] == c;
      Letters(k);
      TablesInvert(c, k);
    }
  }

  function Symbols(ds: seq<nat>): (text: seq<char>)
    requires Digital(32, ds)
    ensures |text| == |ds| && forall i :: 0 <= i < |ds| ==> text[i] == Symbol(ds[i])
  {
    seq(|ds|, i requires 0 <= i < |ds| => Symbol(ds[i]))
  }

  predicate AllSymbols(text: seq<char>) {
    forall i :: 0 <= i < |text| ==> SymbolValue(text[i]).Some?
  }

  function SymbolValues(text: seq<char>): (ds: seq<nat>)
    requires AllSymbols(text)
    ensures |ds| == |text| && Digital(32, ds)
    ensures forall i :: 0 <= i < |text| ==> ds[i] == SymbolValue(text[i]).value
  {
    seq(|text|, i requires 0 <= i < |text| => SymbolValue(text[i]).value)
  }

  lemma SymbolsInvert(ds: seq<nat>)
    requires Digital(32, ds)
    ensures AllSymbols(Symbols(ds)) && SymbolValues(Symbols(ds)) == ds
  {
    forall i | 0 <= i < |ds| ensures SymbolValue(Symbols(ds)[i]) == Some(ds[i]) { TablesInvert(Symbol(ds[i]), ds[i]); }
  }

  lemma ValuesInvert(text: seq<char>)
    requires AllSymbols(text)
    ensures Symbols(SymbolValues(text)) == text
  {
    forall i | 0 <= i < |text|
      ensures Symbol(SymbolValues(text)[i]) == text[i]
    {
      TablesInvert(text[i], SymbolValues(text)[i]);
    }
  }

  // ------------------------------------------------- encode_account

  function Check(h: Hash, account: nat): nat {
    h(account) % CHECK_SPAN
  }

  /** The account above its checksum, in one number. */
  function Packed(h: Hash, account: nat): nat {
    account * CHECK_SPAN + Check(h, account)
  }

  function Body(h: Hash, account: nat): (text: seq<char>)
    ensures |text| == 60
  {
    Symbols(ToDigits(32, 60, Packed(h, account)))
  }

  function Reverse(s: seq<char>): (r: seq<char>)
    ensures |r| == |s| && forall i :: 0 <= i < |s| ==> r[i] == s[|s| - 1 - i]
  {
    seq(|s|, i requires 0 <= i < |s| => s[|s| - 1 - i])
  }

  method EncodeAccount(account: nat, h: Hash) returns (destination: seq<char>)
    ensures destination == "flr_" + Body(h, account)
  {
    ghost var packed := Packed(h, account);
    var number := account * CHECK_SPAN + h(account) % CHECK_SPAN;
    destination := [];
    for i := 0 to 60
      invariant number == packed / Pow(32, i)
      invariant |destination| == i && Reverse(destination) == Symbols(ToDigits(32, i, packed))
    {
      PushSymbol(packed, i, destination);
      destination := destination + [Symbol(number % 32)];
      number := number / 32;
    }
    Tagged(destination, "_rlf", "flr_");
    destination := destination + "_rlf";
    destination := Reverse(destination);
  }

  /** Pushing the next digit at the back is prepending it to the reversed text. */
  lemma PushSymbol(packed: nat, i: nat, destination: seq<char>)
    requires Reverse(destination) == Symbols(ToDigits(32, i, packed))
    ensures var d := (packed / Pow(32, i)) % 32;
            Reverse(destination + [Symbol(d)]) == Symbols(ToDigits(32, i + 1, packed))
    ensures (packed / Pow(32, i)) / 32 == packed / Pow(32, i + 1)
  {
    var d := (packed / Pow(32, i)) % 32;
    PrependDigit(32, i, packed);
    DivDiv(packed, Pow(32, i), 32, Pow(32, i + 1));
    assert Reverse(destination + [Symbol(d)]) == [Symbol(d)] + Reverse(destination);
  }

  lemma Tagged(s: seq<char>, tag: seq<char>, gat: seq<char>)
    requires Reverse(tag) == gat
    ensures Reverse(s + tag) == gat + Reverse(s)
  {}

  // ------------------------------------------------- decode_account

  predicate Prefixed(text: seq<char>) {
    |text| >= 4 && text[0] == 'f' && text[1] == 'l' && text[2] == 'r' && (text[3] == '_' || text[3] == '-')
  }

  /** A text of sixty symbols behind the prefix, of which the first is one an account can start with. */
  predicate Legible(text: seq<char>) {
    |text| == 64 && Prefixed(text) && (text[4] == '1' || text[4] == '3') && AllSymbols(text[4..])
  }

  function Number(text: seq<char>): nat
    requires Legible(text)
  {
    Value(32, SymbolValues(text[4..]))
  }

  /** What decode_account accepts, and the account it then holds. */
  function Decoded(text: seq<char>, h: Hash): Option<nat> {
    if !Legible(text) then None else
    var account := Number(text) / CHECK_SPAN;
    if Number(text) % CHECK_SPAN == Check(h, account) then Some(account) else None
  }

  /** `current` is the value of *this before the call, which a legible text replaces even if its checksum is wrong. */
  method DecodeAccount(current: nat, source: seq<char>, h: Hash) returns (error: bool, account: nat)
    ensures error <==> Decoded(source, h).None?
    ensures account == if Legible(source) then Number(source) / CHECK_SPAN else current
  {
    account := current;
    error := |source| < 5;
    if !error {
      var prefix := source[0] == 'f' && source[1] == 'l' && source[2] == 'r' && (source[3] == '_' || source[3] == '-');
      error := prefix && |source| != 64;
      if !error {
        if prefix {
          if source[4] == '1' || source[4] == '3' {
            var number := 0;
            var i := 4;
            while !error && i != |source|
              invariant 4 <= i <= |source|
              invariant !error ==> AllSymbols(source[4..i]) && number == Value(32, SymbolValues(source[4..i]))
              invariant error ==> !AllSymbols(source[4..])
              decreases |source| - i
            {
              var c := source[i];
              error := c as int < 0x30 || c as int >= 0x80;
              assert error ==> SymbolValue(source[4..][i - 4]).None?;
              if !error {
                var v := SymbolValue(c);
                error := v.None?;
                assert error ==> SymbolValue(source[4..][i - 4]).None?;
                if !error {
                  number := number * 32 + v.value;
                  assert source[4..i + 1] == source[4..i] + [c];
                  assert SymbolValues(source[4..i + 1])[..i - 4] == SymbolValues(source[4..i]);
                }
              }
              i := i + 1;
            }
            if !error {
              assert source[4..i] == source[4..];
              LeadingBound(SymbolValues(source[4..]), number / CHECK_SPAN);
              account := (number / CHECK_SPAN) % ACCOUNT_SPAN;
              error := number % CHECK_SPAN != h(account) % CHECK_SPAN;
            }
          } else {
            error := true;
          }
        } else {
          error := true;
        }
      }
    }
  }

  // ------------------------------------------------- the two are inverse

  lemma {:induction false} Spans()
    ensures CHECK_SPAN * ACCOUNT_SPAN * 16 == Pow(32, 60)
    ensures CHECK_SPAN * ACCOUNT_SPAN == Pow(32, 59) * 2
  {
    assert Pow(32, 10) == 0x4_0000_0000_0000;
    assert Pow(32, 9) == 0x2000_0000_0000;
    PowAdd(32, 10, 10);
    PowAdd(32, 20, 20);
    PowAdd(32, 40, 10);
    PowAdd(32, 50, 9);
    assert Pow(32, 60) == 32 * Pow(32, 59);
  }

  lemma PackedParts(h: Hash, account: nat)
    ensures Packed(h, account) / CHECK_SPAN == account && Packed(h, account) % CHECK_SPAN == Check(h, account)
  {
    DivUnique(Packed(h, account), CHECK_SPAN, account, Check(h, account));
  }

  lemma PackedBound(h: Hash, account: nat)
    requires account < ACCOUNT_SPAN
    ensures Packed(h, account) < Pow(32, 59) * 2 < Pow(32, 60)
  {
    Spans();
  }

  /** The first symbol of an account's text is 1 or 3: 256 + 40 bits leave four of sixty symbols' bits unused. */
  lemma FirstSymbol(h: Hash, account: nat)
    requires account < ACCOUNT_SPAN
    ensures Body(h, account)[0] == '1' || Body(h, account)[0] == '3'
  {
    PackedBound(h, account);
    FirstDigit(32, 59, Pow(32, 59), Packed(h, account), 2);
  }

  lemma BodyValue(h: Hash, account: nat)
    requires account < ACCOUNT_SPAN
    ensures AllSymbols(Body(h, account))
    ensures Value(32, SymbolValues(Body(h, account))) == account * CHECK_SPAN + h(account) % CHECK_SPAN
  {
    var v := Packed(h, account);
    SymbolsInvert(ToDigits(32, 60, v));
    DigitsValue(32, 60, v);
    PackedBound(h, account);
    ModSmall(v, Pow(32, 60));
  }

  /** Every account is recovered from its own text, with either separator. */
  lemma DecodeEncode(h: Hash, account: nat)
    requires account < ACCOUNT_SPAN
    ensures Decoded("flr_" + Body(h, account), h) == Some(account)
    ensures Decoded("flr-" + Body(h, account), h) == Some(account)
  {
    var text, text' := "flr_" + Body(h, account), "flr-" + Body(h, account);
    assert text[4..] == Body(h, account) && text[4] == Body(h, account)[0];
    assert text'[4..] == Body(h, account) && text'[4] == Body(h, account)[0];
    FirstSymbol(h, account);
    BodyValue(h, account);
    PackedParts(h, account);
  }

  /** The only accepted texts are an account's own text, up to the prefix separator. */
  lemma EncodeDecode(h: Hash, text: seq<char>)
    requires Decoded(text, h).Some?
    ensures var account := Decoded(text, h).value;
            && account < ACCOUNT_SPAN
            && (text == "flr_" + Body(h, account) || text == "flr-" + Body(h, account))
  {
    var ds := SymbolValues(text[4..]);
    var number, account := Value(32, ds), Decoded(text, h).value;
    assert number == account * CHECK_SPAN + Check(h, account);
    ValueDigits(32, ds);
    ValuesInvert(text[4..]);
    assert text[4..] == Body(h, account);
    assert text == text[..4] + text[4..];
    LeadingBound(ds, account);
  }

  lemma LeadingBound(ds: seq<nat>, account: nat)
    requires |ds| == 60 && Digital(32, ds) && ds[0] < 2 && account == Value(32, ds) / CHECK_SPAN
    ensures account < ACCOUNT_SPAN
  {
    assert ds == [ds[0]] + ds[1..];
    ValueConcat(32, [ds[0]], ds[1..]);
    assert Value(32, [ds[0]]) == ds[0] by { assert [ds[0]][..0] == []; }
    ValueBound(32, ds[1..]);
    Spans();
    MulMono(ds[0], 1, Pow(32, 59));
  }
}
