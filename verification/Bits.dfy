/** Rotations of the 64-bit random word, and which of its bits they bring down. */
module Bits {
  // ---------------------------------------------------------------- by four, for hexadecimal digits

  function RotateLeft4(x: bv64): bv64 {
    (x << 4) | (x >> 60)
  }

  /** The key after `n` rotations. */
  function KeyAt(key: bv64, n: nat): bv64 {
    if n == 0 then key else RotateLeft4(KeyAt(key, n - 1))
  }

  /** Bits rotated left by 4, four times. */
  lemma RotateFour(x: bv64)
    ensures RotateLeft4(RotateLeft4(RotateLeft4(RotateLeft4(x)))) == (x << 16) | (x >> 48)
  {
  }

  lemma RotateSixteen(x: bv64)
    ensures var y := (x << 16) | (x >> 48);
            var z := (y << 16) | (y >> 48);
            var w := (z << 16) | (z >> 48);
            (w << 16) | (w >> 48) == x
  {
  }

  lemma {:induction false} KeyFour(key: bv64, n: nat)
    ensures KeyAt(key, n + 4) == (KeyAt(key, n) << 16) | (KeyAt(key, n) >> 48)
  {
    hide RotateLeft4;
    assert KeyAt(key, n + 4) == RotateLeft4(KeyAt(key, n + 3));
    assert KeyAt(key, n + 3) == RotateLeft4(KeyAt(key, n + 2));
    assert KeyAt(key, n + 2) == RotateLeft4(KeyAt(key, n + 1));
    assert KeyAt(key, n + 1) == RotateLeft4(KeyAt(key, n));
    RotateFour(KeyAt(key, n));
  }

  /** The key stream has period 16: one rotation of the word per 16 digits. */
  lemma KeyPeriod(key: bv64, n: nat)
    ensures KeyAt(key, n + 16) == KeyAt(key, n)
  {
    KeyFour(key, n);
    KeyFour(key, n + 4);
    KeyFour(key, n + 8);
    KeyFour(key, n + 12);
    RotateSixteen(KeyAt(key, n));
  }

  /** Where in a word the four bits are that digit `i` meets: first the lowest four, then the highest,
      and from there down. */
  function PlaceOf(i: nat): (place: bv64)
    ensures place < 64
  {
    match i % 16
    case 0 => 0
    case 1 => 60
    case 2 => 56
    case 3 => 52
    case 4 => 48
    case 5 => 44
    case 6 => 40
    case 7 => 36
    case 8 => 32
    case 9 => 28
    case 10 => 24
    case 11 => 20
    case 12 => 16
    case 13 => 12
    case 14 => 8
    case _ => 4
  }

  /** Four lower for every digit, around the end of the word. */
  lemma PlaceIs(i: nat)
    ensures PlaceOf(i) as nat == (64 - 4 * (i % 16)) % 64
  {
  }

  lemma PlaceSteps(i: nat)
    ensures PlaceOf(i + 1) == (PlaceOf(i) - 4) & 63 && PlaceOf(i) & 3 == 0
  {
  }

  function Nibble(x: bv64, place: bv64): bv64
    requires place < 64
  {
    (x >> place) & 0xf
  }

  lemma NibbleRotated(x: bv64, place: bv64)
    requires place < 64 && place & 3 == 0
    ensures Nibble(RotateLeft4(x), place) == Nibble(x, (place - 4) & 63)
  {
  }

  lemma FirstPlace()
    ensures PlaceOf(0) == 0
  {
  }

  lemma NoTurn(place: bv64)
    requires place < 64
    ensures (place + 0) & 63 == place && (0 + place) & 63 == place
  {
  }

  lemma SameTurn(place: bv64, p: bv64)
    requires place & 3 == 0
    ensures (((place - 4) & 63) + p) & 63 == (place + ((p - 4) & 63)) & 63
    ensures ((place - 4) & 63) & 3 == 0
  {
  }

  lemma {:induction false} KeyBits(key: bv64, i: nat, place: bv64)
    requires place < 64 && place & 3 == 0
    ensures Nibble(KeyAt(key, i), place) == Nibble(key, (place + PlaceOf(i)) & 63)
  {
    hide RotateLeft4, Nibble, PlaceOf;
    if i == 0 {
      assert PlaceOf(0) == 0 by { FirstPlace(); }
      NoTurn(place);
    } else {
      NibbleRotated(KeyAt(key, i - 1), place);
      KeyBits(key, i - 1, (place - 4) & 63);
      PlaceSteps(i - 1);
      SameTurn(place, PlaceOf(i - 1));
    }
  }

  lemma LowestKeyBits(key: bv64, i: nat)
    ensures Nibble(KeyAt(key, i), 0) == Nibble(key, PlaceOf(i))
  {
    hide *;
    KeyBits(key, i, 0);
    NoTurn(PlaceOf(i));
  }

  lemma LowestBits(x: bv64, key: bv64, place: bv64)
    requires place < 64 && Nibble(x, 0) == Nibble(key, place)
    ensures (key >> place) & 0xf == x & 0xf
  {
  }

  lemma KeyMeets(key: bv64, i: nat)
    ensures (key >> PlaceOf(i)) & 0xf == KeyAt(key, i) & 0xf
  {
    hide *;
    LowestKeyBits(key, i);
    LowestBits(KeyAt(key, i), key, PlaceOf(i));
  }

  // ---------------------------------------------------------------- by five, for letters and digits

  function RotateLeft5(x: bv64): bv64 {
    (x << 5) | (x >> 59)
  }

  /** The bits after `k` rotations. */
  function Turned(bits: bv64, k: nat): bv64 {
    if k == 0 then bits else RotateLeft5(Turned(bits, k - 1))
  }

  function RightOne(x: bv64): bv64 { (x >> 1) | (x << 63) }

  function RightTwo(x: bv64): bv64 { (x >> 2) | (x << 62) }

  function RightFour(x: bv64): bv64 { (x >> 4) | (x << 60) }

  function RightFive(x: bv64): bv64 { (x >> 5) | (x << 59) }

  function RightEight(x: bv64): bv64 { (x >> 8) | (x << 56) }

  function RightSixteen(x: bv64): bv64 { (x >> 16) | (x << 48) }

  function RightHalf(x: bv64): bv64 { (x >> 32) | (x << 32) }

  /** A word rotated to the right bit by bit. */
  function RotateRight(x: bv64, n: nat): bv64
    decreases n
  {
    if n == 0 then x else RotateRight(RightOne(x), n - 1)
  }

  /** Five bits of a word from place `n` on, around its end. */
  function FiveBits(x: bv64, n: nat): bv64 {
    RotateRight(x, n) & 0x1f
  }

  lemma {:induction false} RightPlus(x: bv64, m: nat, n: nat)
    ensures RotateRight(x, m + n) == RotateRight(RotateRight(x, m), n)
    decreases m
  {
    hide RightOne;
    if m > 0 { RightPlus(RightOne(x), m - 1, n); }
  }

  lemma OneOne(x: bv64)
    ensures RightOne(RightOne(x)) == RightTwo(x)
  {
  }

  lemma TwoTwo(x: bv64)
    ensures RightTwo(RightTwo(x)) == RightFour(x)
  {
  }

  lemma OneFour(x: bv64)
    ensures RightOne(RightFour(x)) == RightFive(x)
  {
  }

  lemma FourFour(x: bv64)
    ensures RightFour(RightFour(x)) == RightEight(x)
  {
  }

  lemma EightEight(x: bv64)
    ensures RightEight(RightEight(x)) == RightSixteen(x)
  {
  }

  lemma Sixteens(x: bv64)
    ensures RightSixteen(RightSixteen(x)) == RightHalf(x)
  {
  }

  lemma Halves(x: bv64)
    ensures RightHalf(RightHalf(x)) == x
  {
  }

  lemma LeftOfRight(x: bv64)
    ensures RotateLeft5(RightFive(x)) == x
  {
  }

  lemma ByOne(x: bv64)
    ensures RotateRight(x, 0) == x && RotateRight(x, 1) == RightOne(x)
  {
    hide RightOne;
    assert RotateRight(x, 1) == RotateRight(RightOne(x), 0);
  }

  lemma ByTwo(x: bv64)
    ensures RotateRight(x, 2) == RightTwo(x)
  {
    hide *;
    ByOne(x);
    ByOne(RightOne(x));
    RightPlus(x, 1, 1);
    OneOne(x);
  }

  lemma ByFour(x: bv64)
    ensures RotateRight(x, 4) == RightFour(x)
  {
    hide *;
    ByTwo(x);
    ByTwo(RightTwo(x));
    RightPlus(x, 2, 2);
    TwoTwo(x);
  }

  lemma ByFive(x: bv64)
    ensures RotateRight(x, 5) == RightFive(x)
  {
    hide *;
    ByFour(x);
    ByOne(RightFour(x));
    RightPlus(x, 4, 1);
    OneFour(x);
  }

  lemma ByEight(x: bv64)
    ensures RotateRight(x, 8) == RightEight(x)
  {
    hide *;
    ByFour(x);
    ByFour(RightFour(x));
    RightPlus(x, 4, 4);
    FourFour(x);
  }

  lemma BySixteen(x: bv64)
    ensures RotateRight(x, 16) == RightSixteen(x)
  {
    hide *;
    ByEight(x);
    ByEight(RightEight(x));
    RightPlus(x, 8, 8);
    EightEight(x);
  }

  lemma ByHalf(x: bv64)
    ensures RotateRight(x, 32) == RightHalf(x)
  {
    hide *;
    BySixteen(x);
    BySixteen(RightSixteen(x));
    RightPlus(x, 16, 16);
    Sixteens(x);
  }

  /** All the way around. */
  lemma RightAround(x: bv64)
    ensures RotateRight(x, 64) == x
  {
    hide *;
    ByHalf(x);
    ByHalf(RightHalf(x));
    RightPlus(x, 32, 32);
    Halves(x);
  }

  /** Five to the left is fifty-nine to the right. */
  lemma LeftIsRight(x: bv64)
    ensures RotateLeft5(x) == RotateRight(x, 59)
  {
    hide *;
    RightPlus(x, 59, 5);
    RightAround(x);
    ByFive(RotateRight(x, 59));
    LeftOfRight(RotateRight(x, 59));
  }

  lemma FiveMore(n: nat)
    ensures (n + 5) % 64 == if n % 64 < 59 then n % 64 + 5 else n % 64 - 59
  {
  }

  lemma FiveDown(k: nat)
    requires k > 0
    ensures var p := (64 - 5 * (k - 1) % 64) % 64;
            0 <= p < 64 && (64 - 5 * k % 64) % 64 == if p >= 5 then p - 5 else p + 59
  {
    FiveMore(5 * (k - 1));
    assert 5 * k == 5 * (k - 1) + 5;
  }

  lemma TurnedSteps(bits: bv64, k: nat)
    ensures Turned(bits, k) == if k == 0 then bits else RotateLeft5(Turned(bits, k - 1))
  {
  }

  /** `k` turns by five to the left bring down the bits from the place five lower for every turn,
      around the end of the word. */
  lemma {:induction false} TurnedRight(bits: bv64, k: nat)
    ensures Turned(bits, k) == RotateRight(bits, (64 - 5 * k % 64) % 64)
  {
    hide *;
    TurnedSteps(bits, k);
    if k == 0 {
      ByOne(bits);
    } else {
      TurnedRight(bits, k - 1);
      var p := (64 - 5 * (k - 1) % 64) % 64;
      FiveDown(k);
      LeftIsRight(RotateRight(bits, p));
      RightPlus(bits, p, 59);
      if p >= 5 {
        RightPlus(bits, 64, p - 5);
        RightAround(bits);
      }
    }
  }

  lemma TurnedLowest(bits: bv64, k: nat)
    ensures Turned(bits, k) & 0x1f == FiveBits(bits, (64 - 5 * k % 64) % 64)
  {
    hide Turned, RotateRight;
    TurnedRight(bits, k);
  }

  lemma {:induction false} TurnedOnce(bits: bv64, k: nat)
    ensures Turned(RotateLeft5(bits), k) == Turned(bits, k + 1)
  {
    hide RotateLeft5;
    if k > 0 { TurnedOnce(bits, k - 1); }
  }
}
