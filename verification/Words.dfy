// 32-bit unsigned arithmetic.

module Words {

  const WORD: nat := 0x1_0000_0000

  lemma ModMultiple(q: int, z: int)
    ensures (q * WORD + z) % WORD == z % WORD
  {
    assert q * WORD + z == (q + z / WORD) * WORD + z % WORD;
  }

  lemma ModAdd(x: int, y: int)
    ensures (x % WORD + y) % WORD == (x + y) % WORD
  {
    ModMultiple(x / WORD, x % WORD + y);
  }

  lemma ModSubtract(x: int, y: int)
    ensures (y - x % WORD) % WORD == (y - x) % WORD
  {
    ModMultiple(-(x / WORD), y - x % WORD);
  }

  function Decrement(n: nat): nat {
    (n + WORD - 1) % WORD
  }

  /** Addition in 32 bits. */
  function Plus(a: nat, b: nat): nat {
    (a + b) % WORD
  }

  function Increment(n: nat): nat {
    (n + 1) % WORD
  }

  lemma IncrementCount(n: nat)
    ensures Increment(n % WORD) == (n + 1) % WORD
  {
    ModAdd(n, 1);
  }

  lemma DecrementCount(n: nat)
    requires n > 0
    ensures Decrement(n % WORD) == (n - 1) % WORD
  {
    var q := n / WORD;
    if n % WORD == 0 {
      assert n - 1 == (q - 1) * WORD + (WORD - 1);
    }
  }

  lemma AddCounts(a: nat, b: nat)
    ensures Plus(a % WORD, b % WORD) == (a + b) % WORD
  {
    ModAdd(a, b % WORD);
    ModAdd(b, a);
  }

  function Max(a: int, b: int): int {
    if a < b then b else a
  }
}
