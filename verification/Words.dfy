/** Integers in machine words: what the conversions of src/client_server.h keep of them. */
module Words {

  const HALF16: int := 0x8000
  const HALF64: int := 0x8000_0000_0000_0000

  /** What is left of x in a two's complement word that holds -half to half - 1. */
  function Wrap(x: int, half: int): (y: int)
    requires half > 0
    ensures -half <= y < half
    ensures y == x <==> -half <= x < half
    decreases if x >= half then x - half + 1 else if x < -half then -half - x else 0
  {
    if x >= half then Wrap(x - 2 * half, half)
    else if x < -half then Wrap(x + 2 * half, half)
    else x
  }

  /** How many times 2 * half was lost. */
  function Lost(x: int, half: int): int
    requires half > 0
    decreases if x >= half then x - half + 1 else if x < -half then -half - x else 0
  {
    if x >= half then Lost(x - 2 * half, half) + 1
    else if x < -half then Lost(x + 2 * half, half) - 1
    else 0
  }

  lemma {:induction false} WrapLoses(x: int, half: int)
    requires half > 0
    ensures x == Wrap(x, half) + 2 * half * Lost(x, half)
    decreases if x >= half then x - half + 1 else if x < -half then -half - x else 0
  {
    if x >= half {
      WrapLoses(x - 2 * half, half);
      Distribute(2 * half, Lost(x - 2 * half, half), 1);
    } else if x < -half {
      WrapLoses(x + 2 * half, half);
      Distribute(2 * half, Lost(x + 2 * half, half), -1);
    }
  }

  lemma Distribute(m: int, x: int, y: int)
    ensures m * (x + y) == m * x + m * y
  {
  }

  /** What is left of x in an unsigned word with m values. */
  function Low(x: int, m: int): (r: nat)
    requires m > 0
    ensures r < m
    ensures r == x <==> 0 <= x < m
    decreases if x >= m then x - m + 1 else if x < 0 then -x else 0
  {
    if x >= m then Low(x - m, m) else if x < 0 then Low(x + m, m) else x
  }

  /** How many times m was left out. */
  function Dropped(x: int, m: int): int
    requires m > 0
    decreases if x >= m then x - m + 1 else if x < 0 then -x else 0
  {
    if x >= m then Dropped(x - m, m) + 1 else if x < 0 then Dropped(x + m, m) - 1 else 0
  }

  /** What an unsigned word keeps is the number up to a multiple of its range. */
  lemma {:induction false} LowLoses(x: int, m: int)
    requires m > 0
    ensures x == Low(x, m) + m * Dropped(x, m)
    decreases if x >= m then x - m + 1 else if x < 0 then -x else 0
  {
    if x >= m {
      LowLoses(x - m, m);
      Distribute(m, Dropped(x - m, m), 1);
    } else if x < 0 {
      LowLoses(x + m, m);
      Distribute(m, Dropped(x + m, m), -1);
    }
  }

  /** An unsigned word read as a signed one. */
  function Signed(r: nat, half: int): int {
    if r >= half then r - 2 * half else r
  }

  /** The receiver reads the low bits as a signed number. */
  lemma {:induction false} SignedLow(x: int, half: int)
    requires half > 0
    ensures Signed(Low(x, 2 * half), half) == Wrap(x, half)
    decreases if x >= half then x - half + 1 else if x < -half then -half - x else 0
  {
    if x >= half {
      SignedLow(x - 2 * half, half);
    } else if x < -half {
      SignedLow(x + 2 * half, half);
    }
  }
}
