/** Machine words as ranges of integers: wrap-around is always written out. */
module Words {

  type byte = x: int | 0 <= x < 0x100
  type u16 = x: int | 0 <= x < 0x1_0000
  type u32 = x: int | 0 <= x < 0x1_0000_0000

  datatype Option<+T> = None | Some(value: T)

  function Wrap16(x: int): u16 {
    x % 0x1_0000
  }

  function Wrap32(x: int): u32 {
    x % 0x1_0000_0000
  }

  /** A 32-bit word with its low half replaced. */
  function WithLow(word: u32, low: u16): u32 {
    word / 0x1_0000 * 0x1_0000 + low
  }

  /** The two's complement reading of a 16-bit word. */
  function Signed16(x: u16): int {
    if x < 0x8000 then x else x - 0x1_0000
  }

  lemma LowReplaced(word: u32, low: u16)
    ensures WithLow(word, low) / 0x1_0000 == word / 0x1_0000 && WithLow(word, low) % 0x1_0000 == low
    ensures WithLow(word, Wrap16(word)) == word
  {
  }

  lemma WrapTwice(x: int, y: int)
    ensures Wrap16(Wrap16(x) - y) == Wrap16(x - y)
    ensures Wrap32(Wrap32(x) - y) == Wrap32(x - y)
  {
    Wrap16Step(Wrap16(x) - y, x / 0x1_0000);
    Wrap32Step(Wrap32(x) - y, x / 0x1_0000_0000);
  }

  lemma Wrap16Step(x: int, k: int)
    ensures Wrap16(x + k * 0x1_0000) == Wrap16(x)
  {
    assert x + k * 0x1_0000 == (x / 0x1_0000 + k) * 0x1_0000 + x % 0x1_0000;
  }

  lemma Wrap32Step(x: int, k: int)
    ensures Wrap32(x + k * 0x1_0000_0000) == Wrap32(x)
  {
    assert x + k * 0x1_0000_0000 == (x / 0x1_0000_0000 + k) * 0x1_0000_0000 + x % 0x1_0000_0000;
  }
}
