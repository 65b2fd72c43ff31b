/** The pairing code: 60 random bits as twelve Crockford base-32 digits, its display form, and what a
    person may type for it. */
module PairingCode {
  import opened Wrappers
  import opened BitWords
  import opened Text

  const CROCKFORD := "0123456789ABCDEFGHJKMNPQRSTVWXYZ"
  const CODE_LEN := 12
  const CODE_BYTES := 8

  /** An element of a Uint8Array, as the encoder's 32-bit operations see it. */
  type Byte = b: bv32 | b < 256

  lemma {:induction false} Pow2Sum(a: nat, b: nat)
    ensures Pow2(a + b) == Pow2(a) * Pow2(b)
  {
    if a != 0 {
      Pow2Sum(a - 1, b);
      TwiceProduct(Pow2(a - 1), Pow2(b));
      assert Pow2(a) == 2 * Pow2(a - 1) && Pow2(a + b) == 2 * Pow2(a - 1 + b);
    } else {
      assert Pow2(0) == 1;
    }
  }

  lemma TwiceProduct(x: nat, y: nat)
    ensures 2 * (x * y) == (2 * x) * y
  {
  }

  /** A byte sequence as a big-endian number. */
  function Value(bytes: seq<Byte>): nat {
    if bytes == [] then 0 else Value(bytes[..|bytes| - 1]) * 256 + Num(bytes[|bytes| - 1])
  }

  // ---------------------------------------------------------------- digits

  /** The alphabet: digits and capital letters but for I, L, O and U. */
  predicate InAlphabet(c: char) {
    IsDigit(c) || ('A' <= c <= 'Z' && c != 'I' && c != 'L' && c != 'O' && c != 'U')
  }

  /** The place of a character in the alphabet. */
  function DigitOf(c: char): (d: nat)
    requires InAlphabet(c)
    ensures d < 32
  {
    if IsDigit(c) then c as int - '0' as int
    else c as int - 'A' as int + 10
         - (if c > 'I' then 1 else 0) - (if c > 'L' then 1 else 0)
         - (if c > 'O' then 1 else 0) - (if c > 'U' then 1 else 0)
  }

  lemma AlphabetIsCrockford(d: nat)
    requires d < 32
    ensures InAlphabet(CROCKFORD[d]) && DigitOf(CROCKFORD[d]) == d
  {
  }

  predicate WellFormed(code: string) { forall i :: 0 <= i < |code| ==> InAlphabet(code[i]) }

  /** The number a digit string stands for. */
  function CodeValue(code: string): nat
    requires WellFormed(code)
  {
    if code == "" then 0 else CodeValue(code[..|code| - 1]) * 32 + DigitOf(code[|code| - 1])
  }

  lemma DigitOfInjective(a: char, b: char)
    requires InAlphabet(a) && InAlphabet(b) && DigitOf(a) == DigitOf(b)
    ensures a == b
  {
  }

  /** A digit string is determined by its length and its value. */
  lemma {:induction false} CodeValueInjective(a: string, b: string)
    requires WellFormed(a) && WellFormed(b) && |a| == |b| && CodeValue(a) == CodeValue(b)
    ensures a == b
  {
    if a != "" {
      var n := |a| - 1;
      CodeValueInjective(a[..n], b[..n]);
      DigitOfInjective(a[n], b[n]);
      assert a == a[..n] + [a[n]] && b == b[..n] + [b[n]];
    }
  }

  // ---------------------------------------------------------------- generateCode

  lemma OneMoreByte(bytes: seq<Byte>, i: nat)
    requires i < |bytes|
    ensures Value(bytes[..i + 1]) == Value(bytes[..i]) * 256 + Num(bytes[i])
  {
    assert bytes[..i + 1][..i] == bytes[..i];
  }

  lemma NothingRead(bytes: seq<Byte>)
    ensures WellFormed("") && CodeValue("") == 0 && Value(bytes[..0]) == 0 && Pow2(0) == 1
  {
  }

  /** generateCode: the bit accumulator, a 32-bit word. The twelve digits are worth the 64-bit input shifted
      right by four, and the accumulator never holds more than twelve bits. */
  method GenerateCode(bytes: seq<Byte>) returns (r: Result<string, ()>, ghost peak: nat)
    ensures r.Ok? <==> |bytes| >= CODE_BYTES
    ensures r.Ok? ==> |r.value| == CODE_LEN && WellFormed(r.value)
                      && CodeValue(r.value) == Value(bytes[..CODE_BYTES]) / 16 && r.value == CodeOf(bytes)
    ensures peak < Pow2(12)
  {
    peak := 0;
    if |bytes| < CODE_BYTES { return Err(()), peak; }
    NothingRead(bytes);
    hide CodeValue, WellFormed, Value, Pow2, Num;
    var acc: bv32 := 0;
    var bits, out, i := 0, "", 0;
    while i < CODE_BYTES && |out| < CODE_LEN
      invariant 0 <= i <= CODE_BYTES && |out| <= CODE_LEN && WellFormed(out)
      invariant bits < 5 && 8 * i == 5 * |out| + bits
      invariant Num(acc) < Pow2(bits)
      invariant CodeValue(out) * Pow2(bits) + Num(acc) == Value(bytes[..i])
      invariant peak < Pow2(12)
    {
      ByteEnters(CodeValue(out), acc, bits, bytes, i);
      acc := (acc << 8) | bytes[i];
      bits := bits + 8;
      peak := if Num(acc) > peak then Num(acc) else peak;
      acc, bits, out := EmitDigits(acc, bits, out);
      i := i + 1;
    }
    assert i == 8 && bits == 4;
    TopSixty(CodeValue(out), Num(acc), Value(bytes[..CODE_BYTES]));
    CodeOfValue(bytes);
    hide CodeOf;
    CodeValueInjective(out, CodeOf(bytes));
    r := Ok(out);
  }

  /** Four pending bits or fewer leave room for a byte in the word. */
  lemma PendingIsSmall(acc: bv32, bits: nat)
    requires bits < 5 && Num(acc) < Pow2(bits)
    ensures acc < 0x100_0000
  {
    Pow2Monotone(bits, 4);
    assert Pow2(4) == 16;
    hide Num, Pow2;
    SmallWord(acc);
    assert acc < 16 ==> acc < 0x100_0000;
  }

  /** One more byte enters the accumulator, which has room for it. */
  lemma ByteEnters(v: nat, acc: bv32, bits: nat, bytes: seq<Byte>, i: nat)
    requires bits < 5 && i < |bytes| && Num(acc) < Pow2(bits)
    requires v * Pow2(bits) + Num(acc) == Value(bytes[..i])
    ensures Num((acc << 8) | bytes[i]) < Pow2(bits + 8) <= Pow2(12)
    ensures v * Pow2(bits + 8) + Num((acc << 8) | bytes[i]) == Value(bytes[..i + 1])
  {
    hide *;
    OneMoreByte(bytes, i);
    PendingIsSmall(acc, bits);
    var b: bv32 := bytes[i];
    JoinAppends(acc, b);
    ByteArithmetic(v, Num(acc), bits, Num(b), Num((acc << 8) | b), Value(bytes[..i]), Value(bytes[..i + 1]));
  }

  lemma ByteArithmetic(v: nat, acc: nat, bits: nat, byte: nat, joined: nat, before: nat, after: nat)
    requires bits < 5 && acc < Pow2(bits) && byte < 256 && joined == acc * 256 + byte
    requires v * Pow2(bits) + acc == before && after == before * 256 + byte
    ensures joined < Pow2(bits + 8) <= Pow2(12) && v * Pow2(bits + 8) + joined == after
  {
    hide *;
    ShiftIn(v, acc, bits, byte);
    Pow2Monotone(bits + 8, 12);
  }

  /** The inner loop: while five bits are pending and a digit is wanted, the top five become a digit. */
  method EmitDigits(acc0: bv32, bits0: nat, out0: string) returns (acc: bv32, bits: nat, out: string)
    requires bits0 <= 12 && Num(acc0) < Pow2(bits0) && |out0| <= CODE_LEN && WellFormed(out0)
    ensures |out0| <= |out| <= CODE_LEN && WellFormed(out) && Num(acc) < Pow2(bits)
    ensures 5 * |out| + bits == 5 * |out0| + bits0
    ensures bits < 5 || |out| == CODE_LEN
    ensures CodeValue(out) * Pow2(bits) + Num(acc) == CodeValue(out0) * Pow2(bits0) + Num(acc0)
  {
    hide Pow2, CodeValue, WellFormed, Num;
    acc, bits, out := acc0, bits0, out0;
    while bits >= 5 && |out| < CODE_LEN
      invariant bits <= 12 && |out0| <= |out| <= CODE_LEN && WellFormed(out) && Num(acc) < Pow2(bits)
      invariant 5 * |out| + bits == 5 * |out0| + bits0
      invariant CodeValue(out) * Pow2(bits) + Num(acc) == CodeValue(out0) * Pow2(bits0) + Num(acc0)
      decreases bits
    {
      bits := bits - 5;
      ShiftOut(CodeValue(out), Num(acc), bits);
      TopFive(acc, bits);
      MaskTakesRemainder(acc, bits);
      var digit := Num((acc >> bits) & 31);
      PushDigit(out, digit);
      out := out + [CROCKFORD[digit]];
      acc := acc & ((1 << bits) - 1);
    }
  }

  /** The five bits above the pending ones. */
  lemma TopFive(acc: bv32, bits: nat)
    requires bits <= 7
    ensures Num((acc >> bits) & 31) == Num(acc) / Pow2(bits) % 32
  {
    hide Num;
    ShiftDivides(acc, bits);
    MaskTakesRemainder(acc >> bits, 5);
    assert (1 << 5) - 1 == 31 as bv32;
    assert Pow2(5) == 32;
  }

  lemma {:induction false} Pow2Monotone(a: nat, b: nat)
    requires a <= b
    ensures Pow2(a) <= Pow2(b)
  {
    if a < b { Pow2Monotone(a, b - 1); }
  }

  lemma ShiftIn(v: nat, acc: nat, bits: nat, byte: nat)
    requires acc < Pow2(bits) && byte < 256
    ensures acc * 256 + byte < Pow2(bits + 8)
    ensures v * Pow2(bits + 8) + (acc * 256 + byte) == (v * Pow2(bits) + acc) * 256 + byte
  {
    Pow2Sum(bits, 8);
    assert Pow2(8) == 256 by { assert Pow2(4) == 16; Pow2Sum(4, 4); }
    assert v * Pow2(bits + 8) == v * Pow2(bits) * 256;
  }

  lemma ShiftOut(v: nat, acc: nat, bits: nat)
    requires acc < Pow2(bits + 5)
    ensures acc / Pow2(bits) < 32 && (acc / Pow2(bits)) % 32 == acc / Pow2(bits)
    ensures acc % Pow2(bits) < Pow2(bits)
    ensures v * Pow2(bits + 5) + acc == (v * 32 + acc / Pow2(bits)) * Pow2(bits) + acc % Pow2(bits)
  {
    var p := Pow2(bits);
    Pow2Sum(bits, 5);
    assert Pow2(5) == 32;
    hide Pow2;
    QuotientBelow(acc, p, 32);
    Divide(acc, p);
    Distribute(v, p, acc / p);
  }

  lemma Divide(a: nat, p: nat)
    requires p >= 1
    ensures a == p * (a / p) + a % p
  {
  }

  lemma Distribute(v: nat, p: nat, q: nat)
    ensures (v * 32 + q) * p == v * (p * 32) + p * q
  {
    assert (v * 32 + q) * p == v * 32 * p + q * p;
  }

  lemma QuotientBelow(a: nat, p: nat, k: nat)
    requires p >= 1 && a < p * k
    ensures a / p < k
  {
    assert p * (a / p) <= a < p * k;
    assert p * (a / p - k) < 0;
  }

  lemma PushDigit(out: string, digit: nat)
    requires WellFormed(out) && digit < 32
    ensures WellFormed(out + [CROCKFORD[digit]])
    ensures CodeValue(out + [CROCKFORD[digit]]) == CodeValue(out) * 32 + digit
  {
    var more := out + [CROCKFORD[digit]];
    AlphabetIsCrockford(digit);
    assert more[..|more| - 1] == out && more[|more| - 1] == CROCKFORD[digit];
  }

  lemma TopSixty(v: nat, acc: nat, total: nat)
    requires acc < Pow2(4) && v * Pow2(4) + acc == total
    ensures v == total / 16
  {
    assert Pow2(4) == 16;
  }

  /** The last `n` base-32 digits of `v`, most significant first. */
  function DigitsOf(v: nat, n: nat): (s: string)
    ensures |s| == n
  {
    if n == 0 then "" else DigitsOf(v / 32, n - 1) + [CROCKFORD[v % 32]]
  }

  lemma {:induction false} DigitsOfValue(v: nat, n: nat)
    requires v < Pow2(5 * n)
    ensures WellFormed(DigitsOf(v, n)) && CodeValue(DigitsOf(v, n)) == v
  {
    if n > 0 {
      Pow2Sum(5 * (n - 1), 5);
      assert Pow2(5) == 32;
      hide Pow2, CodeValue, WellFormed;
      assert v < 32 * Pow2(5 * (n - 1));
      DigitsOfValue(v / 32, n - 1);
      PushDigit(DigitsOf(v / 32, n - 1), v % 32);
    }
  }

  lemma {:induction false} ValueBelow(bytes: seq<Byte>)
    ensures Value(bytes) < Pow2(8 * |bytes|)
  {
    if bytes != [] {
      var n := |bytes| - 1;
      ValueBelow(bytes[..n]);
      JoinAppends(0, bytes[n]);
      Pow2Sum(8 * n, 8);
      assert Pow2(8) == 256 by { assert Pow2(4) == 16; Pow2Sum(4, 4); }
      hide Pow2;
      assert Pow2(8 * |bytes|) == 256 * Pow2(8 * n);
    }
  }

  /** The code of an input: the twelve digits of its first 64 bits shifted right by four. */
  function CodeOf(bytes: seq<Byte>): string
    requires |bytes| >= CODE_BYTES
  {
    DigitsOf(Value(bytes[..CODE_BYTES]) / 16, CODE_LEN)
  }

  lemma CodeOfValue(bytes: seq<Byte>)
    requires |bytes| >= CODE_BYTES
    ensures WellFormed(CodeOf(bytes)) && CodeValue(CodeOf(bytes)) == Value(bytes[..CODE_BYTES]) / 16
  {
    ValueBelow(bytes[..CODE_BYTES]);
    Pow2Sum(60, 4);
    assert Pow2(4) == 16;
    hide Pow2, Value, CodeValue, WellFormed;
    DigitsOfValue(Value(bytes[..CODE_BYTES]) / 16, CODE_LEN);
  }

  /** Two inputs get the same code exactly when their top 60 bits agree. */
  lemma CodesSeparateTopBits(a: seq<Byte>, b: seq<Byte>)
    requires |a| >= CODE_BYTES && |b| >= CODE_BYTES
    ensures CodeOf(a) == CodeOf(b) <==> Value(a[..CODE_BYTES]) / 16 == Value(b[..CODE_BYTES]) / 16
  {
    CodeOfValue(a);
    CodeOfValue(b);
  }

  // ---------------------------------------------------------------- display and typing

  /** XXXX-XXXX-XXXX. */
  function FormatCode(code: string): string {
    if |code| == CODE_LEN then code[..4] + "-" + code[4..8] + "-" + code[8..] else code
  }

  /** A code is shown as three groups of four, dashes between them; anything else as it is. */
  lemma FormatShape(code: string)
    ensures |code| == 12 ==>
              var d := FormatCode(code);
              |d| == 14 && d[4] == '-' && d[9] == '-' && d[..4] + d[5..9] + d[10..] == code
    ensures |code| != 12 ==> FormatCode(code) == code
  {
  }

  function Stripped(s: string): string {
    if s == "" then ""
    else (if IsSpace(s[0]) || s[0] == '-' then "" else [s[0]]) + Stripped(s[1..])
  }

  /** What the code points outside ASCII that upper-case into it become: sharp s, dotless i, long s and the
      Latin ligatures. Empty for every other character. */
  function Expansion(c: char): string {
    match c as int
    case 0xDF => "SS"
    case 0x131 => "I"
    case 0x17F => "S"
    case 0xFB00 => "FF"
    case 0xFB01 => "FI"
    case 0xFB02 => "FL"
    case 0xFB03 => "FFI"
    case 0xFB04 => "FFL"
    case 0xFB05 => "ST"
    case 0xFB06 => "ST"
    case _ => ""
  }

  predicate IsAscii(c: char) { c as int < 128 }

  /** toUpperCase of one character; `other` is the rest of the Unicode table. */
  function Upper(other: char -> string, c: char): string {
    if 'a' <= c <= 'z' then [(c as int - 32) as char]
    else if IsAscii(c) then [c]
    else if Expansion(c) != "" then Expansion(c)
    else other(c)
  }

  /** Every code point without an expansion above keeps something outside ASCII in upper case. */
  ghost predicate StaysForeign(other: char -> string) {
    forall c :: !IsAscii(c) && Expansion(c) == "" ==> !AllAscii(other(c))
  }

  predicate AllAscii(s: string) { forall i :: 0 <= i < |s| ==> IsAscii(s[i]) }

  function UpperAll(other: char -> string, s: string): string {
    if s == "" then "" else Upper(other, s[0]) + UpperAll(other, s[1..])
  }

  function Folded(c: char): char {
    if c == 'O' then '0' else if c == 'I' || c == 'L' then '1' else c
  }

  function FoldAll(s: string): string {
    if s == "" then "" else [Folded(s[0])] + FoldAll(s[1..])
  }

  function NormalizeCode(other: char -> string, input: string): string {
    FoldAll(UpperAll(other, Stripped(input)))
  }

  /** The characters a person may write for a digit. */
  predicate WritesDigit(c: char, d: char) {
    c == d
    || ('A' <= d <= 'Z' && c as int == d as int + 32)
    || (d == '0' && (c == 'O' || c == 'o'))
    || (d == '1' && (c == 'I' || c == 'i' || c == 'L' || c == 'l' || c as int == 0x131))
    || (d == 'S' && c as int == 0x17F)
  }

  /** The digits a single typed character may stand for: one, or the two or three of a ligature. */
  predicate Writes(c: char, digits: string) {
    match c as int
    case 0xDF => digits == "SS"
    case 0xFB00 => digits == "FF"
    case 0xFB01 => digits == "F1"
    case 0xFB02 => digits == "F1"
    case 0xFB03 => digits == "FF1"
    case 0xFB04 => digits == "FF1"
    case 0xFB05 => digits == "ST"
    case 0xFB06 => digits == "ST"
    case _ => |digits| == 1 && WritesDigit(c, digits[0])
  }

  /** How many digits it stands for. */
  function Width(c: char): nat {
    match c as int
    case 0xDF => 2
    case 0xFB00 => 2
    case 0xFB01 => 2
    case 0xFB02 => 2
    case 0xFB03 => 3
    case 0xFB04 => 3
    case 0xFB05 => 2
    case 0xFB06 => 2
    case _ => 1
  }

  /** `typed` is a way of writing `code`: its digits in order, spaced and dashed at will. */
  predicate WritingOf(typed: string, code: string) {
    if typed == "" then code == ""
    else if IsSpace(typed[0]) || typed[0] == '-' then WritingOf(typed[1..], code)
    else
      var n := Width(typed[0]);
      n <= |code| && Writes(typed[0], code[..n]) && WritingOf(typed[1..], code[n..])
  }

  lemma {:induction false} FoldAllAt(s: string)
    ensures |FoldAll(s)| == |s|
    ensures forall i :: 0 <= i < |s| ==> FoldAll(s)[i] == Folded(s[i])
  {
    if s != "" { FoldAllAt(s[1..]); }
  }

  lemma FoldAllJoins(a: string, b: string)
    ensures FoldAll(a + b) == FoldAll(a) + FoldAll(b)
  {
    FoldAllAt(a);
    FoldAllAt(b);
    FoldAllAt(a + b);
  }

  /** A character that upper-cases into ASCII becomes as many digits as it stands for, and they are the ones
      it writes. */
  lemma WritesIffFolds(other: char -> string, c: char, digits: string)
    requires WellFormed(digits) && (IsAscii(c) || Expansion(c) != "")
    ensures |FoldAll(Upper(other, c))| == Width(c)
    ensures |digits| == Width(c) ==> (Writes(c, digits) <==> FoldAll(Upper(other, c)) == digits)
  {
    var u := Upper(other, c);
    FoldAllAt(u);
    hide FoldAll;
    assert |u| == Width(c);
    if |digits| == |u| {
      assert FoldAll(u) == digits <==> forall i :: 0 <= i < |u| ==> Folded(u[i]) == digits[i];
    }
  }

  /** Any other character writes nothing, and spoils the text. */
  lemma ForeignSpoils(other: char -> string, c: char, rest: string, code: string)
    requires StaysForeign(other) && WellFormed(code) && !IsAscii(c) && Expansion(c) == ""
    ensures FoldAll(Upper(other, c)) + rest != code
    ensures Width(c) == 1 && (code != "" ==> !Writes(c, code[..1]))
  {
    var u := Upper(other, c);
    FoldAllAt(u);
    var i :| 0 <= i < |u| && !IsAscii(u[i]);
    assert (FoldAll(u) + rest)[i] == Folded(u[i]) == u[i];
  }

  lemma HeadAndRest(h: string, rest: string, code: string, n: nat)
    requires |h| == n
    ensures h + rest == code <==> n <= |code| && h == code[..n] && rest == code[n..]
  {
    assert (h + rest)[..n] == h && (h + rest)[n..] == rest;
    if n <= |code| { assert code == code[..n] + code[n..]; }
  }

  lemma StrippedStep(other: char -> string, typed: string)
    requires typed != ""
    ensures IsSpace(typed[0]) || typed[0] == '-' ==> NormalizeCode(other, typed) == NormalizeCode(other, typed[1..])
    ensures !(IsSpace(typed[0]) || typed[0] == '-') ==>
              NormalizeCode(other, typed) == FoldAll(Upper(other, typed[0])) + NormalizeCode(other, typed[1..])
  {
    hide Upper, FoldAll, IsSpace;
    var s := Stripped(typed[1..]);
    if IsSpace(typed[0]) || typed[0] == '-' {
      assert Stripped(typed) == s;
    } else {
      assert Stripped(typed) == [typed[0]] + s && ([typed[0]] + s)[1..] == s;
      FoldAllJoins(Upper(other, typed[0]), UpperAll(other, s));
    }
  }

  /** A code is recovered from a typed text exactly when the text is a way of writing it. */
  lemma {:induction false} NormalizeRecovers(other: char -> string, typed: string, code: string)
    requires StaysForeign(other) && WellFormed(code)
    ensures NormalizeCode(other, typed) == code <==> WritingOf(typed, code)
  {
    if typed != "" {
      var c, rest := typed[0], typed[1..];
      StrippedStep(other, typed);
      if IsSpace(c) || c == '-' {
        NormalizeRecovers(other, rest, code);
      } else if IsAscii(c) || Expansion(c) != "" {
        TypedDigits(other, c, rest, code);
        if Width(c) <= |code| { NormalizeRecovers(other, rest, code[Width(c)..]); }
      } else {
        ForeignSpoils(other, c, NormalizeCode(other, rest), code);
      }
    }
  }

  /** The digits of the first character, and what the rest must normalize to. */
  lemma TypedDigits(other: char -> string, c: char, rest: string, code: string)
    requires WellFormed(code) && (IsAscii(c) || Expansion(c) != "")
    ensures FoldAll(Upper(other, c)) + NormalizeCode(other, rest) == code
            <==> Width(c) <= |code| && Writes(c, code[..Width(c)])
                 && NormalizeCode(other, rest) == code[Width(c)..]
  {
    var n := Width(c);
    WritesIffFolds(other, c, if n <= |code| then code[..n] else "");
    hide *;
    HeadAndRest(FoldAll(Upper(other, c)), NormalizeCode(other, rest), code, n);
  }

  lemma DigitIsPlain(c: char)
    requires InAlphabet(c)
    ensures !IsSpace(c) && c != '-' && Width(c) == 1 && Writes(c, [c])
  {
  }

  lemma {:induction false} CodeWritesItself(code: string, rest: string, restCode: string)
    requires WellFormed(code) && WritingOf(rest, restCode)
    ensures WritingOf(code + rest, code + restCode)
  {
    if code == "" {
      assert code + rest == rest && code + restCode == restCode;
    } else {
      DigitIsPlain(code[0]);
      hide IsSpace, Writes, Width, InAlphabet;
      CodeWritesItself(code[1..], rest, restCode);
      assert (code + rest)[1..] == code[1..] + rest;
      assert (code + restCode)[1..] == code[1..] + restCode;
      assert (code + restCode)[..1] == [code[0]];
    }
  }

  lemma DashIsSkipped(typed: string, code: string)
    requires WritingOf(typed, code)
    ensures WritingOf("-" + typed, code)
  {
    assert ("-" + typed)[1..] == typed;
  }

  /** Two groups and a dash between them write the two in order. */
  lemma GroupThenRest(group: string, rest: string, restCode: string)
    requires WellFormed(group) && WritingOf(rest, restCode)
    ensures WritingOf(group + ("-" + rest), group + restCode)
  {
    DashIsSkipped(rest, restCode);
    CodeWritesItself(group, "-" + rest, restCode);
  }

  lemma PlainWritesItself(code: string)
    requires WellFormed(code)
    ensures WritingOf(code, code)
  {
    CodeWritesItself(code, "", "");
    assert code + "" == code;
  }

  lemma ThreeGroups(code: string)
    requires |code| == CODE_LEN
    ensures FormatCode(code) == code[..4] + ("-" + (code[4..8] + ("-" + code[8..])))
    ensures code == code[..4] + (code[4..8] + code[8..])
  {
  }

  /** The display form of a code is a way of writing it. */
  lemma DisplayWritesCode(code: string)
    requires WellFormed(code)
    ensures WritingOf(FormatCode(code), code)
  {
    if |code| == CODE_LEN {
      var a, b, c := code[..4], code[4..8], code[8..];
      assert WellFormed(a) && WellFormed(b) && WellFormed(c);
      ThreeGroups(code);
      hide *;
      PlainWritesItself(c);
      GroupThenRest(b, c, c);
      GroupThenRest(a, b + ("-" + c), b + c);
    } else {
      PlainWritesItself(code);
    }
  }

  /** In particular from the display form. */
  lemma DisplayIsRecovered(other: char -> string, code: string)
    requires StaysForeign(other) && WellFormed(code)
    ensures NormalizeCode(other, FormatCode(code)) == code
  {
    DisplayWritesCode(code);
    NormalizeRecovers(other, FormatCode(code), code);
  }
}
