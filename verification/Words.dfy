/** Fixed-width machine words and the bit operations of the network processor. */
module Words {

  const WORD: nat := 0x1_0000_0000

  type Byte = x: nat | x < 256
  type Word = x: nat | x < 0x1_0000_0000

  datatype Option<+T> = None | Some(value: T)

  datatype Result<+T, +E> = Ok(value: T) | Err(error: E) {
    predicate IsFailure() {
      Err?
    }

    function PropagateFailure<U>(): Result<U, E>
      requires Err?
    {
      Err(error)
    }

    function Extract(): T
      requires Ok?
    {
      value
    }
  }

  function AsSeq<T>(o: Option<T>): seq<T> {
    if o.Some? then [o.value] else []
  }

  lemma ConcatAssociates<T>(a: seq<T>, b: seq<T>, c: seq<T>)
    ensures (a + b) + c == a + (b + c)
  {
  }

  /** Conversion to uint32_t. */
  function Wrap(x: int): (r: Word) {
    x % 0x1_0000_0000
  }

  /** The value of a uint32_t read as int32_t. */
  function Signed(x: Word): int {
    if x < 0x8000_0000 then x else x - 0x1_0000_0000
  }

  function Pow2(n: nat): (r: nat)
    ensures r > 0
  {
    if n == 0 then 1 else 2 * Pow2(n - 1)
  }

  /** Applies a boolean operation to the low `n` bits of two words, bit by bit. */
  function Bitwise(op: (bool, bool) -> bool, a: nat, b: nat, n: nat): (r: nat)
    ensures r < Pow2(n)
  {
    if n == 0 then 0
    else (if op(a % 2 == 1, b % 2 == 1) then 1 else 0) + 2 * Bitwise(op, a / 2, b / 2, n - 1)
  }

  function And(a: Word, b: Word): Word {
    Pow2Bits();
    Bitwise((x, y) => x && y, a, b, 32)
  }

  function Or(a: Word, b: Word): Word {
    Pow2Bits();
    Bitwise((x, y) => x || y, a, b, 32)
  }

  function Xor(a: Word, b: Word): Word {
    Pow2Bits();
    Bitwise((x, y) => x != y, a, b, 32)
  }

  function Not(a: Word): Word {
    Pow2Bits();
    Bitwise((x, y) => !x, a, 0, 32)
  }

  predicate Bit(a: nat, k: nat) {
    if k == 0 then a % 2 == 1 else Bit(a / 2, k - 1)
  }

  lemma {:induction false} BitOfBitwise(op: (bool, bool) -> bool, a: nat, b: nat, n: nat, k: nat)
    requires k < n
    ensures Bit(Bitwise(op, a, b, n), k) == op(Bit(a, k), Bit(b, k))
  {
    var rest := Bitwise(op, a / 2, b / 2, n - 1);
    assert Bitwise(op, a, b, n) / 2 == rest;
    if k > 0 {
      BitOfBitwise(op, a / 2, b / 2, n - 1, k - 1);
    }
  }

  /** Shifts of a uint32_t; amounts of 32 and more are reduced modulo 32. */
  function ShiftLeft(a: Word, amount: nat): Word {
    Wrap(a * Pow2(amount % 32))
  }

  function ShiftRight(a: Word, amount: nat): Word {
    LowHigh(a, Pow2(amount % 32));
    a / Pow2(amount % 32)
  }

  /** Division by a positive number, as a decomposition. */
  lemma LowHigh(x: nat, d: nat)
    requires d > 0
    ensures x == x % d + d * (x / d)
    ensures 0 <= x % d < d
    ensures 0 <= x / d <= x
  {
    QuotientBound(x, d, x / d, x % d);
  }

  lemma QuotientBound(x: nat, d: nat, q: int, r: int)
    requires d > 0 && x == d * q + r && 0 <= r < d
    ensures 0 <= q <= x
  {
    assert q < 0 ==> d * q + d <= 0;
    assert q >= 0 ==> q <= d * q;
  }

  /** Quotient and remainder are the only such decomposition. */
  lemma SplitLow(v: nat, d: nat, q: nat)
    requires v < d
    ensures (v + d * q) % d == v
    ensures (v + d * q) / d == q
  {
    var x := v + d * q;
    LowHigh(x, d);
    UniqueQuotient(d, q, v, x / d, x % d);
  }

  lemma UniqueQuotient(d: nat, q: int, r: nat, q': int, r': nat)
    requires r < d && r' < d && r + d * q == r' + d * q'
    ensures q == q' && r == r'
  {
    var k := q - q';
    assert d * k == r' - r;
    assert k <= -1 ==> d * k + d <= 0;
    assert k >= 1 ==> d * k >= d;
  }

  lemma RemainderBelow(low: nat, r: nat, a: nat, b: nat)
    requires low < a && r < b
    ensures a * b > 0 && low + a * r < a * b
  {
    var gap := b - 1 - r;
    assert a * gap >= 0;
    Distributes(a, r, gap);
    Distributes(a, r + gap, 1);
  }

  lemma Distributes(a: int, b: int, c: int)
    ensures a * (b + c) == a * b + a * c
  {
  }

  lemma Associates(a: int, b: int, c: int)
    ensures a * (b * c) == a * b * c
  {
  }

  /** Dividing twice is dividing by the product. */
  lemma QuotientOfQuotient(x: nat, a: nat, b: nat)
    requires a > 0 && b > 0
    ensures a * b > 0 && x / a / b == x / (a * b)
  {
    LowHigh(x, a);
    LowHigh(x / a, b);
    Decomposed(x, a, b, x / a, x % a, x / a / b, x / a % b);
  }

  lemma Decomposed(x: nat, a: nat, b: nat, y: nat, low: nat, q: nat, r: nat)
    requires x == low + a * y && y == r + b * q && low < a && r < b
    ensures a * b > 0 && x / (a * b) == q
  {
    RemainderBelow(low, r, a, b);
    Distributes(a, r, b * q);
    Associates(a, b, q);
    SplitLow(low + a * r, a * b, q);
  }

  lemma {:induction false} Pow2Add(a: nat, b: nat)
    ensures Pow2(a + b) == Pow2(a) * Pow2(b)
  {
    if a > 0 {
      Pow2Add(a - 1, b);
      assert Pow2(a + b) == 2 * Pow2(a - 1 + b);
    }
  }

  lemma Pow2Bits()
    ensures Pow2(8) == 256
    ensures Pow2(32) == 0x1_0000_0000
  {
    assert Pow2(4) == 16;
    Pow2Add(4, 4);
    Pow2Add(8, 8);
    Pow2Add(16, 16);
  }

  /** The remainder of `x` by `n`, by repeated subtraction. */
  function Mod(x: nat, n: nat): (r: nat)
    requires n > 0
    ensures r < n
  {
    if x < n then x else Mod(x - n, n)
  }

  lemma {:induction false} ModIsRemainder(x: nat, n: nat)
    requires n > 0
    ensures Mod(x, n) == x % n
    decreases x
  {
    if x < n {
      SplitLow(x, n, 0);
    } else {
      ModIsRemainder(x - n, n);
      LowHigh(x - n, n);
      NextMultiple((x - n) % n, n, (x - n) / n);
      SplitLow((x - n) % n, n, (x - n) / n + 1);
    }
  }

  lemma NextMultiple(r: nat, d: nat, q: nat)
    ensures r + d * q + d == r + d * (q + 1)
  {
  }

  lemma {:induction false} ModPlusMultiple(x: nat, m: nat, n: nat)
    requires n > 0 && Mod(m, n) == 0
    ensures Mod(x + m, n) == Mod(x, n)
    decreases m
  {
    if m >= n {
      ModPlusMultiple(x, m - n, n);
    }
  }

  lemma {:induction false} ModShiftDiffers(x: nat, d: nat, n: nat)
    requires 0 < d < n
    ensures Mod(x + d, n) != Mod(x, n)
    decreases x
  {
    if x >= n {
      ModShiftDiffers(x - n, d, n);
    }
  }
}
