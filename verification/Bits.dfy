/** 32-bit words and the numbers they stand for. */
module Bits {
  import opened Division

  const WIDTH: nat := 0x1_0000_0000

  function Word(n: nat): bv32
    requires n < WIDTH
  {
    n as bv32
  }

  /** The low 32 bits of a number. */
  function Low(n: nat): bv32 { Word(n % WIDTH) }

  // ------------------------------------------------------------------ a word for every number, one number a word

  const TOP: bv32 := 0x8000_0000

  lemma Doubled(w: bv32)
    requires w & TOP == 0
    ensures (w << 1) as nat == 2 * (w as nat)
    ensures ((w << 1) | 1) as nat == 2 * (w as nat) + 1
  {
  }

  lemma TopIsLarge(w: bv32)
    requires w & TOP != 0
    ensures w as nat >= 0x8000_0000
  {
  }

  lemma WordOfItsNumber(w: bv32)
    ensures w as nat < WIDTH && Word(w as nat) == w
  {
  }

  lemma {:induction false} SomeWord(n: nat) returns (w: bv32)
    requires n < WIDTH
    ensures w as nat == n
  {
    if n == 0 {
      w := 0;
    } else {
      var half := SomeWord(n / 2);
      if half & TOP != 0 { TopIsLarge(half); }
      Doubled(half);
      w := if n % 2 == 0 then half << 1 else (half << 1) | 1;
    }
  }

  lemma NumberOfItsWord(n: nat)
    requires n < WIDTH
    ensures Word(n) as nat == n
  {
    var w := SomeWord(n);
    WordOfItsNumber(w);
  }

  /** Numbers have the same low bits exactly when they agree modulo 2^32. */
  lemma LowIff(a: nat, b: nat)
    ensures Low(a) == Low(b) <==> a % WIDTH == b % WIDTH
  {
    NumberOfItsWord(a % WIDTH);
    NumberOfItsWord(b % WIDTH);
  }

  lemma LowOfNumber(w: bv32)
    ensures Low(w as nat) == w
  {
    WordOfItsNumber(w);
    DivUnique(w as nat, WIDTH, 0, w as nat);
  }

  lemma XorCancels(a: bv32, b: bv32, c: bv32)
    ensures a ^ c == b ^ c <==> a == b
    ensures c ^ a == c ^ b <==> a == b
  {
  }
}
