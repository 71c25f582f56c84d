/**
  The randomizers: the nibble cipher for hexadecimal IDs and the replacement of letters and digits
  in names. Texts are byte strings, the random bits a 64-bit word.
*/
module Randomize {
  import opened Bits

  type Bytes = seq<bv8>

  /** A byte buffer that is written to and emptied. */
  class Buffer {
    var data: Bytes

    constructor ()
      ensures data == []
    {
      data := [];
    }

    method WriteByte(b: bv8)
      modifies this
      ensures data == old(data) + [b]
    {
      data := data + [b];
    }

    method Clear()
      modifies this
      ensures data == []
    {
      data := [];
    }
  }

  // ---------------------------------------------------------------- hexadecimal digits

  predicate IsHexDigit(b: bv8) {
    0x30 <= b <= 0x39 || 0x61 <= b <= 0x66 || 0x41 <= b <= 0x46
  }

  predicate IsHex(s: Bytes) {
    forall i :: 0 <= i < |s| ==> IsHexDigit(s[i])
  }

  /** The value of a digit in either case. */
  function DigitValue(b: bv8): bv8 {
    if 0x30 <= b <= 0x39 then b - 0x30
    else if 0x61 <= b <= 0x66 then 10 + (b - 0x61)
    else if 0x41 <= b <= 0x46 then 10 + (b - 0x41)
    else 0
  }

  /** The lower-case digit of a value below 16. */
  function DigitOf(h: bv8): bv8 {
    if h < 10 then 0x30 + h else 0x61 + (h - 10)
  }

  function LowerDigit(b: bv8): bv8 {
    if 0x41 <= b <= 0x46 then b + 0x20 else b
  }

  function Lower(s: Bytes): (r: Bytes)
    ensures |r| == |s|
  {
    seq(|s|, i requires 0 <= i < |s| => LowerDigit(s[i]))
  }

  // ---------------------------------------------------------------- the cipher

  function LowByte(x: bv64): bv8 {
    (x & 0xff) as bv8
  }

  function CipherDigit(b: bv8, key: bv64): bv8 {
    DigitOf((DigitValue(b) ^ LowByte(key)) & 0x0f)
  }

  /** Every digit XOR-ed with the next four bits of the rotating key. */
  function Cipher(s: Bytes, key: bv64): (r: Bytes)
    ensures |r| == |s|
  {
    seq(|s|, i requires 0 <= i < |s| => CipherDigit(s[i], KeyAt(key, i)))
  }

  method AllHex(s: Bytes) returns (all: bool)
    ensures all <==> IsHex(s)
  {
    for i := 0 to |s|
      invariant IsHex(s[..i])
    {
      var b := s[i];
      if !((b >= 0x30 && b <= 0x39) || (b >= 0x61 && b <= 0x66) || (b >= 0x41 && b <= 0x46)) {
        return false;
      }
    }
    assert s[..|s|] == s;
    return true;
  }

  method RewriteDigit(digit: bv8, bits: bv64) returns (b: bv8)
    requires IsHexDigit(digit)
    ensures b == CipherDigit(digit, bits)
  {
    var h: bv8 := 0;
    if digit >= 0x30 && digit <= 0x39 {
      h := digit - 0x30;
    } else if digit >= 0x61 && digit <= 0x66 {
      h := 10 + (digit - 0x61);
    } else if digit >= 0x41 && digit <= 0x46 {
      h := 10 + (digit - 0x41);
    }
    h := (h ^ LowByte(bits)) & 0x0f;
    if h < 10 {
      b := 0x30 + h;
    } else {
      b := 0x61 + (h - 10);
    }
  }

  /** Appends the rewritten ID and returns true, or writes nothing and returns false when the text
      is not all hexadecimal. */
  method RandomizeTraceID(out: Buffer, s: Bytes, randomBits: bv64) returns (ok: bool)
    modifies out
    ensures ok <==> IsHex(s)
    ensures out.data == old(out.data) + if IsHex(s) then Cipher(s, randomBits) else []
  {
    hide CipherDigit, RotateLeft4, IsHexDigit;
    ok := AllHex(s);
    if !ok { return; }
    var bits := randomBits;
    ghost var done: Bytes := [];
    for i := 0 to |s|
      invariant bits == KeyAt(randomBits, i) && |done| == i
      invariant out.data == old(out.data) + done
      invariant forall j :: 0 <= j < i ==> done[j] == CipherDigit(s[j], KeyAt(randomBits, j))
    {
      var b := RewriteDigit(s[i], bits);
      bits := RotateLeft4(bits);
      out.WriteByte(b);
      done := done + [b];
    }
    assert done == Cipher(s, randomBits);
  }

  // ---------------------------------------------------------------- what the cipher keeps

  lemma DigitRoundTrip(h: bv8)
    requires h < 16
    ensures DigitValue(DigitOf(h)) == h && IsHexDigit(DigitOf(h)) && LowerDigit(DigitOf(h)) == DigitOf(h)
  {
  }

  lemma DigitOfValue(b: bv8)
    requires IsHexDigit(b)
    ensures DigitOf(DigitValue(b)) == LowerDigit(b) && DigitValue(b) < 16
  {
  }

  lemma XorTwice(v: bv8, k: bv8)
    requires v < 16
    ensures (v ^ k) & 0x0f < 16
    ensures ((((v ^ k) & 0x0f) ^ k) & 0x0f) == v
  {
  }

  lemma CipherDigitTwice(b: bv8, key: bv64)
    requires IsHexDigit(b)
    ensures IsHexDigit(CipherDigit(b, key))
    ensures CipherDigit(CipherDigit(b, key), key) == LowerDigit(b)
  {
    hide DigitValue, DigitOf, LowerDigit, LowByte, IsHexDigit;
    var v, k := DigitValue(b), LowByte(key);
    DigitOfValue(b);
    XorTwice(v, k);
    DigitRoundTrip((v ^ k) & 0x0f);
  }

  /** The result is hexadecimal again, and rewriting twice with the same bits gives the ID in lower
      case. */
  lemma CipherTwice(s: Bytes, key: bv64)
    requires IsHex(s)
    ensures IsHex(Cipher(s, key))
    ensures Cipher(Cipher(s, key), key) == Lower(s)
  {
    hide CipherDigit, KeyAt, LowerDigit, IsHexDigit;
    forall i | 0 <= i < |s|
      ensures IsHexDigit(CipherDigit(s[i], KeyAt(key, i)))
      ensures CipherDigit(CipherDigit(s[i], KeyAt(key, i)), KeyAt(key, i)) == LowerDigit(s[i])
    {
      CipherDigitTwice(s[i], KeyAt(key, i));
    }
  }

  lemma CipherDigitOfLower(b: bv8, key: bv64)
    requires IsHexDigit(b)
    ensures CipherDigit(LowerDigit(b), key) == CipherDigit(b, key)
  {
    assert DigitValue(LowerDigit(b)) == DigitValue(b);
  }

  lemma CipherOfLower(s: Bytes, key: bv64)
    requires IsHex(s)
    ensures Cipher(Lower(s), key) == Cipher(s, key)
  {
    hide CipherDigit, KeyAt, LowerDigit, IsHexDigit;
    forall i | 0 <= i < |s|
      ensures CipherDigit(LowerDigit(s[i]), KeyAt(key, i)) == CipherDigit(s[i], KeyAt(key, i))
    {
      CipherDigitOfLower(s[i], KeyAt(key, i));
    }
  }

  /** Two hexadecimal IDs are rewritten alike exactly when they are the same up to case. */
  lemma CipherInjective(s: Bytes, t: Bytes, key: bv64)
    requires IsHex(s) && IsHex(t)
    ensures Cipher(s, key) == Cipher(t, key) <==> Lower(s) == Lower(t)
  {
    hide CipherDigit, KeyAt, LowerDigit, IsHexDigit;
    if Cipher(s, key) == Cipher(t, key) {
      CipherTwice(s, key);
      CipherTwice(t, key);
    }
    if Lower(s) == Lower(t) {
      CipherOfLower(s, key);
      CipherOfLower(t, key);
    }
  }

  /** A prefix of an ID is rewritten to the prefix of its rewriting. */
  lemma CipherKeepsPrefixes(s: Bytes, key: bv64, n: nat)
    requires n <= |s|
    ensures Cipher(s[..n], key) == Cipher(s, key)[..n]
  {
    hide CipherDigit, KeyAt;
  }

  /** The same digits 16 places further on are rewritten alike. */
  lemma CipherPeriod(s: Bytes, key: bv64, i: nat)
    requires i + 16 < |s| && s[i] == s[i + 16]
    ensures Cipher(s, key)[i] == Cipher(s, key)[i + 16]
  {
    hide CipherDigit;
    KeyPeriod(key, i);
  }

  // Which bits a digit meets.

  /** `b` is the character of the hexadecimal digit with value `v`, in either case. */
  predicate IsDigitOf(b: bv8, v: bv64) {
    || (v < 10 && b as bv64 == 0x30 + v)
    || (10 <= v < 16 && (b as bv64 == 0x61 + (v - 10) || b as bv64 == 0x41 + (v - 10)))
  }

  /** Exactly the characters of the sixteen digits in either case are hexadecimal. */
  lemma HexDigitsAre(b: bv8)
    ensures IsHexDigit(b) <==> exists v: bv64 :: v < 16 && IsDigitOf(b, v)
  {
    if IsHexDigit(b) {
      assert IsDigitOf(b, DigitValue(b) as bv64);
    }
  }

  lemma DigitXor(b: bv8, k: bv64, n: bv64, v: bv64)
    requires v < 16 && IsDigitOf(b, v) && n == k & 0xf
    ensures var w := v ^ n; w < 16 && IsDigitOf(CipherDigit(b, k), w) && !IsUpperCase(CipherDigit(b, k))
  {
  }

  lemma CipherAt(s: Bytes, key: bv64, i: nat)
    requires i < |s|
    ensures Cipher(s, key)[i] == CipherDigit(s[i], KeyAt(key, i))
  {
  }

  /** What the cipher does, digit by digit: digit `i` of the result has the value of digit `i` of the ID
      XOR-ed with four bits of the random word, from a place four lower for every digit. */
  lemma CipherMeetsBits(s: Bytes, key: bv64, i: nat, v: bv64)
    requires i < |s| && v < 16 && IsDigitOf(s[i], v)
    ensures PlaceOf(i) as nat == (64 - 4 * (i % 16)) % 64
    ensures var w := v ^ ((key >> PlaceOf(i)) & 0xf);
            w < 16 && IsDigitOf(Cipher(s, key)[i], w) && !IsUpperCase(Cipher(s, key)[i])
  {
    hide *;
    PlaceIs(i);
    KeyMeets(key, i);
    DigitXor(s[i], KeyAt(key, i), (key >> PlaceOf(i)) & 0xf, v);
    CipherAt(s, key, i);
  }

  lemma CipherDigitFixed(b: bv8, key: bv64)
    requires IsHexDigit(b)
    ensures CipherDigit(b, key) == b <==> LowerDigit(b) == b && key & 0xf == 0
  {
  }

  /** The bits that the first `n` digits meet are all 0. */
  predicate ZeroBits(key: bv64, n: nat) {
    forall i :: 0 <= i < n ==> (key >> PlaceOf(i)) & 0xf == 0
  }

  /** An ID stays as it is exactly when it is in lower case and all key bits that it meets are 0. */
  lemma CipherFixesExactly(s: Bytes, key: bv64)
    requires IsHex(s)
    ensures Cipher(s, key) == s <==> Lower(s) == s && ZeroBits(key, |s|)
  {
    hide CipherDigit, KeyAt, LowerDigit, IsHexDigit, PlaceOf;
    forall i | 0 <= i < |s|
      ensures CipherDigit(s[i], KeyAt(key, i)) == s[i] <==>
                LowerDigit(s[i]) == s[i] && (key >> PlaceOf(i)) & 0xf == 0
    {
      CipherDigitFixed(s[i], KeyAt(key, i));
      KeyMeets(key, i);
    }
    if Cipher(s, key) == s {
      forall i | 0 <= i < |s|
        ensures LowerDigit(s[i]) == s[i] && (key >> PlaceOf(i)) & 0xf == 0
      {
        assert Cipher(s, key)[i] == s[i];
      }
    }
    if Lower(s) == s && ZeroBits(key, |s|) {
      forall i | 0 <= i < |s|
        ensures Cipher(s, key)[i] == s[i]
      {
        assert Lower(s)[i] == s[i];
      }
    }
  }

  // ---------------------------------------------------------------- names

  predicate IsOther(b: bv8) {
    b < 0x30 || b > 0x7a
  }

  /** A letter or digit replaced by one of the same kind that the bits select. */
  function RandomByte(b: bv8, bits: bv64): bv8 {
    var i := LowByte(bits) & 0x1f;
    if b >= 0x61 then 0x61 + i % 26
    else if b >= 0x41 && b <= 0x5a then 0x41 + i % 26
    else if b <= 0x39 then 0x30 + i % 10
    else b
  }

  /** The randomized text. Bytes outside '0'..'z' are copied and use no bits; the punctuation
      between digits and letters is copied but does use bits. */
  function RandomText(s: Bytes, bits: bv64): (r: Bytes)
    ensures |r| == |s|
    decreases |s|
  {
    if s == [] then []
    else if IsOther(s[0]) then [s[0]] + RandomText(s[1..], bits)
    else [RandomByte(s[0], bits)] + RandomText(s[1..], RotateLeft5(bits))
  }

  predicate IsLowerCase(b: bv8) {
    0x61 <= b <= 0x7a
  }

  predicate IsUpperCase(b: bv8) {
    0x41 <= b <= 0x5a
  }

  predicate IsDigit(b: bv8) {
    0x30 <= b <= 0x39
  }

  /** A letter for a letter of the same case, a digit for a digit, and the same byte for any other. */
  predicate SameCategory(b: bv8, r: bv8) {
    && (IsLowerCase(b) <==> IsLowerCase(r))
    && (IsUpperCase(b) <==> IsUpperCase(r))
    && (IsDigit(b) <==> IsDigit(r))
    && (IsLowerCase(b) || IsUpperCase(b) || IsDigit(b) || r == b)
  }

  lemma RandomByteKeepsCategory(b: bv8, bits: bv64)
    requires !IsOther(b)
    ensures SameCategory(b, RandomByte(b, bits))
  {
    var i := LowByte(bits) & 0x1f;
    assert i % 26 < 26 && i % 10 < 10;
  }

  lemma OtherKeepsCategory(b: bv8)
    ensures SameCategory(b, b)
  {
  }

  /** Every byte is replaced by one of its own category. */
  lemma {:induction false} RandomTextKeepsCategory(s: Bytes, bits: bv64)
    ensures forall i :: 0 <= i < |s| ==> SameCategory(s[i], RandomText(s, bits)[i])
    decreases |s|
  {
    hide RandomByte, RotateLeft5, SameCategory;
    if s != [] {
      if IsOther(s[0]) {
        OtherKeepsCategory(s[0]);
        RandomTextKeepsCategory(s[1..], bits);
      } else {
        RandomByteKeepsCategory(s[0], bits);
        RandomTextKeepsCategory(s[1..], RotateLeft5(bits));
      }
    }
  }

  // Which bits a letter or digit of a name meets.

  /** How many of the first `i` bytes lie between '0' and 'z' and so use bits. */
  function Used(s: Bytes, i: nat): nat
    requires i <= |s|
  {
    if i == 0 then 0 else Used(s, i - 1) + if 0x30 <= s[i - 1] <= 0x7a then 1 else 0
  }

  lemma {:induction false} UsedTail(s: Bytes, i: nat)
    requires s != [] && 1 <= i <= |s|
    ensures Used(s, i) == Used(s[1..], i - 1) + if 0x30 <= s[0] <= 0x7a then 1 else 0
  {
    if i > 1 {
      UsedTail(s, i - 1);
      assert s[1..][i - 2] == s[i - 1];
    }
  }

  lemma {:induction false} RandomTextAt(s: Bytes, bits: bv64, i: nat)
    requires i < |s|
    ensures RandomText(s, bits)[i] == if IsOther(s[i]) then s[i] else RandomByte(s[i], Turned(bits, Used(s, i)))
    decreases |s|
  {
    hide RandomByte, RotateLeft5;
    if i > 0 {
      UsedTail(s, i);
      if IsOther(s[0]) {
        RandomTextAt(s[1..], bits, i - 1);
      } else {
        RandomTextAt(s[1..], RotateLeft5(bits), i - 1);
        TurnedOnce(bits, Used(s[1..], i - 1));
      }
    }
  }

  /** A letter or digit picked by a number below 32 in the category of `b`. */
  predicate IsPick(b: bv8, r: bv8, n: bv64) {
    && (IsLowerCase(b) ==> r as bv64 == 0x61 + n % 26)
    && (IsUpperCase(b) ==> r as bv64 == 0x41 + n % 26)
    && (IsDigit(b) ==> r as bv64 == 0x30 + n % 10)
    && (!IsLowerCase(b) && !IsUpperCase(b) && !IsDigit(b) ==> r == b)
  }

  lemma RandomByteIs(b: bv8, bits: bv64, n: bv64)
    requires 0x30 <= b <= 0x7a && n == bits & 0x1f
    ensures IsPick(b, RandomByte(b, bits), n)
  {
  }

  lemma NotOther(b: bv8)
    requires !IsOther(b)
    ensures 0x30 <= b <= 0x7a
  {
  }

  lemma OtherIsPick(b: bv8, n: bv64)
    requires IsOther(b)
    ensures IsPick(b, b, n)
  {
    hide RandomByte, LowByte;
    assert !IsLowerCase(b) && !IsUpperCase(b) && !IsDigit(b);
  }

  /** What the randomizer does, byte by byte: five bits of the random word pick the letter or digit,
      from a place that moves down by five for every byte that uses bits. */
  lemma RandomTextMeetsBits(s: Bytes, bits: bv64, i: nat)
    requires i < |s|
    ensures IsPick(s[i], RandomText(s, bits)[i], FiveBits(bits, (64 - 5 * Used(s, i) % 64) % 64))
  {
    hide *;
    RandomTextAt(s, bits, i);
    TurnedLowest(bits, Used(s, i));
    if IsOther(s[i]) {
      OtherIsPick(s[i], FiveBits(bits, (64 - 5 * Used(s, i) % 64) % 64));
    } else {
      NotOther(s[i]);
      RandomByteIs(s[i], Turned(bits, Used(s, i)), FiveBits(bits, (64 - 5 * Used(s, i) % 64) % 64));
    }
  }

  lemma RandomTextEmpty(bits: bv64)
    ensures RandomText([], bits) == []
  {
  }

  /** One more byte moves from what is left of the text to what has been written. */
  lemma RandomTextStep(s: Bytes, i: nat, bits: bv64, done: Bytes)
    requires i < |s|
    ensures done + RandomText(s[i..], bits) ==
              if IsOther(s[i]) then done + [s[i]] + RandomText(s[i + 1..], bits)
              else done + [RandomByte(s[i], bits)] + RandomText(s[i + 1..], RotateLeft5(bits))
  {
    hide RandomByte, RotateLeft5, IsOther;
    assert s[i..][1..] == s[i + 1..] && s[i..][0] == s[i];
  }

  method RandomizeASCII(out: Buffer, s: Bytes, randomBits: bv64)
    modifies out
    ensures out.data == old(out.data) + RandomText(s, randomBits)
  {
    hide *;
    var bits := randomBits;
    ghost var done: Bytes := [];
    for i := 0 to |s|
      invariant out.data == old(out.data) + done
      invariant RandomText(s, randomBits) == done + RandomText(s[i..], bits)
    {
      var r := s[i];
      RandomTextStep(s, i, bits, done);
      if IsOther(r) {
        out.WriteByte(r);
        done := done + [r];
        continue;
      }
      var b := RandomByte(r, bits);
      bits := RotateLeft5(bits);
      out.WriteByte(b);
      done := done + [b];
    }
    RandomTextEmpty(bits);
    assert s[|s|..] == [];
  }
}
