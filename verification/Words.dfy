/** 32-bit machine words, bytes and the little-endian layout of instruction operands. */
module Words {

  const WORD_LIMIT := 0x1_0000_0000

  type word = x: int | 0 <= x < WORD_LIMIT
  type byte = x: int | 0 <= x < 0x100

  /** Truncation to 32 bits, as C does for `uint32_t` results. */
  function Wrap(x: int): (w: word) {
    x % WORD_LIMIT
  }

  function AsWord(b: bool): (w: word) {
    if b then 1 else 0
  }

  function Power2(n: nat): (p: nat)
    ensures p > 0
  {
    if n == 0 then 1 else 2 * Power2(n - 1)
  }

  lemma WordWidth()
    ensures Power2(32) == WORD_LIMIT
  {
    assert Power2(8) == 0x100;
    assert Power2(16) == 0x1_0000 by {
      assert Power2(12) == 0x1000;
    }
    assert Power2(24) == 0x100_0000 by {
      assert Power2(20) == 0x10_0000;
    }
    assert Power2(28) == 0x1000_0000;
  }

  /** Applies a Boolean connective to the lowest `bits` binary digits of two numbers. */
  function Bitwise(connective: (bool, bool) -> bool, x: nat, y: nat, bits: nat): (r: nat)
    ensures r < Power2(bits)
  {
    if bits == 0 then 0
    else AsWord(connective(x % 2 == 1, y % 2 == 1)) + 2 * Bitwise(connective, x / 2, y / 2, bits - 1)
  }

  function BitAnd(x: word, y: word): word {
    WordWidth();
    Bitwise((a: bool, b: bool) => a && b, x, y, 32)
  }

  function BitOr(x: word, y: word): word {
    WordWidth();
    Bitwise((a: bool, b: bool) => a || b, x, y, 32)
  }

  function BitXor(x: word, y: word): word {
    WordWidth();
    Bitwise((a: bool, b: bool) => a != b, x, y, 32)
  }

  function BitNot(x: word): word {
    WORD_LIMIT - 1 - x
  }

  function ShiftLeft(x: word, n: nat): word {
    Wrap(x * Power2(n))
  }

  function ShiftRight(x: word, n: nat): (r: word)
    ensures r <= x
  {
    if n == 0 then x else ShiftRight(x / 2, n - 1)
  }

  function LittleEndian(w: word): (b: seq<byte>)
    ensures |b| == 4
  {
    [w % 0x100, w / 0x100 % 0x100, w / 0x1_0000 % 0x100, w / 0x100_0000]
  }

  function FromLittleEndian(b: seq<byte>): word
    requires |b| == 4
  {
    b[0] as int + 0x100 * (b[1] as int) + 0x1_0000 * (b[2] as int) + 0x100_0000 * (b[3] as int)
  }

  lemma LittleEndianInverse(w: word)
    ensures FromLittleEndian(LittleEndian(w)) == w
  {
  }
}
