/** Machine words of the widths TCG and LLVM use, their arithmetic, and byte-addressed memory.
    A word of width w is a natural number below 2^w. */
module Words {
  import opened Options

  datatype Width = W1 | W8 | W16 | W32 | W64

  datatype Num = Num(w: Width, bits: nat)

  type Word = x: Num | x.bits < Range(x.w) witness Num(W1, 0)

  function BitCount(w: Width): nat {
    match w case W1 => 1 case W8 => 8 case W16 => 16 case W32 => 32 case W64 => 64
  }

  function ByteCount(w: Width): nat {
    match w case W1 => 1 case W8 => 1 case W16 => 2 case W32 => 4 case W64 => 8
  }

  /** The number of values a word of width w can hold. */
  function Range(w: Width): nat {
    match w
    case W1 => 2
    case W8 => 0x100
    case W16 => 0x1_0000
    case W32 => 0x1_0000_0000
    case W64 => 0x1_0000_0000_0000_0000
  }

  function Pow2(n: nat): (r: nat)
    ensures r > 0
  {
    if n == 0 then 1 else 2 * Pow2(n - 1)
  }

  /** Cut a number down to a word of width w. */
  function Cut(w: Width, b: int): Word {
    match w
    case W1 => Num(W1, b % 2)
    case W8 => Num(W8, b % 0x100)
    case W16 => Num(W16, b % 0x1_0000)
    case W32 => Num(W32, b % 0x1_0000_0000)
    case W64 => Num(W64, b % 0x1_0000_0000_0000_0000)
  }

  /** The word read as a two's complement number. */
  function Signed(x: Word): int {
    if 2 * x.bits < Range(x.w) then x.bits else x.bits - Range(x.w)
  }

  function AndBits(a: nat, b: nat): nat {
    if a == 0 || b == 0 then 0 else (if a % 2 == 1 && b % 2 == 1 then 1 else 0) + 2 * AndBits(a / 2, b / 2)
  }

  function OrBits(a: nat, b: nat): nat {
    if a == 0 then b
    else if b == 0 then a
    else (if a % 2 == 1 || b % 2 == 1 then 1 else 0) + 2 * OrBits(a / 2, b / 2)
  }

  function XorBits(a: nat, b: nat): nat {
    if a == 0 then b
    else if b == 0 then a
    else (if a % 2 != b % 2 then 1 else 0) + 2 * XorBits(a / 2, b / 2)
  }

  /** Schoolbook multiplication. */
  function MulBits(a: nat, b: nat): nat {
    if b == 0 then 0 else (if b % 2 == 1 then a else 0) + 2 * MulBits(a, b / 2)
  }

  function ShiftUp(v: nat, n: nat): nat
    decreases n
  {
    if n == 0 then v else ShiftUp(2 * v, n - 1)
  }

  /** Rounds towards minus infinity, as an arithmetic shift does. */
  function ShiftDown(v: int, n: nat): (r: int)
    ensures v >= 0 ==> r >= 0
    decreases n
  {
    if n == 0 then v else ShiftDown(v / 2, n - 1)
  }

  datatype BinOp = Add | Sub | Mul | And | Or | Xor | Shl | LShr | AShr

  /** Two-operand arithmetic. Shifting by the full width or more has no defined result. */
  function Compute(op: BinOp, a: Word, b: Word): Option<Word> {
    if a.w != b.w then None
    else match op
      case Add => Some(Cut(a.w, a.bits + b.bits))
      case Sub => Some(Cut(a.w, a.bits - b.bits))
      case Mul => Some(Cut(a.w, MulBits(a.bits, b.bits)))
      case And => Some(Cut(a.w, AndBits(a.bits, b.bits)))
      case Or => Some(Cut(a.w, OrBits(a.bits, b.bits)))
      case Xor => Some(Cut(a.w, XorBits(a.bits, b.bits)))
      case Shl => if b.bits < BitCount(a.w) then Some(Cut(a.w, ShiftUp(a.bits, b.bits))) else None
      case LShr => if b.bits < BitCount(a.w) then Some(Cut(a.w, ShiftDown(a.bits, b.bits))) else None
      case AShr => if b.bits < BitCount(a.w) then Some(Cut(a.w, ShiftDown(Signed(a), b.bits))) else None
  }

  datatype Cond = EQ | NE | LT | GE | LE | GT | LTU | GEU | LEU | GTU

  predicate Holds(cond: Cond, a: Word, b: Word) {
    match cond
    case EQ => a.bits == b.bits
    case NE => a.bits != b.bits
    case LT => Signed(a) < Signed(b)
    case GE => Signed(a) >= Signed(b)
    case LE => Signed(a) <= Signed(b)
    case GT => Signed(a) > Signed(b)
    case LTU => a.bits < b.bits
    case GEU => a.bits >= b.bits
    case LEU => a.bits <= b.bits
    case GTU => a.bits > b.bits
  }

  /** Widening by copies of the sign or by zeros. */
  function Widen(signed: bool, w: Width, x: Word): Word {
    Cut(w, if signed then Signed(x) else x.bits)
  }

  // ----- memory -----

  const SPACE: nat := 0x1_0000_0000_0000_0000  // addresses are 64 bits wide and wrap around

  /** Memory: the contents it started with, and the stores made since. */
  datatype Mem = Initial(contents: nat -> nat) | Stored(before: Mem, addr: nat, word: Word)

  /** How far p lies above a on the circle of addresses. */
  function Offset(a: int, p: int): nat { (p - a) % SPACE }

  /** Byte k of v, counting from the low end. */
  function ByteOf(v: nat, k: nat): nat {
    if k == 0 then v % 256 else ByteOf(v / 256, k - 1)
  }

  function Byte(mem: Mem, p: nat): nat {
    match mem
    case Initial(contents) => contents(p % SPACE) % 256
    case Stored(before, addr, word) =>
      if Offset(addr, p) < ByteCount(word.w) then ByteOf(word.bits, Offset(addr, p)) else Byte(before, p)
  }

  /** Little-endian store of the word's bytes at a. */
  function Store(mem: Mem, a: nat, x: Word): Mem { Stored(mem, a, x) }

  /** The number the n bytes from a spell, low byte first. */
  function LoadBits(mem: Mem, a: nat, n: nat): nat
    decreases n
  {
    if n == 0 then 0 else Byte(mem, a) + 256 * LoadBits(mem, a + 1, n - 1)
  }

  /** Little-endian load. */
  function Load(mem: Mem, a: nat, w: Width): Word { Cut(w, LoadBits(mem, a, ByteCount(w))) }

  /** Two non-empty address ranges share no address. */
  predicate Apart(a: nat, n: nat, b: nat, m: nat) {
    Offset(a, b) >= n && Offset(b, a) >= m
  }

  lemma ApartStep(a: nat, n: nat, b: nat, m: nat, k: nat)
    requires Apart(a, n, b, m) && k < m
    ensures Offset(a, b + k) >= n
  {
  }

  lemma {:induction false} BytesElsewhere(mem: Mem, a: nat, x: Word, b: nat, m: nat, k: nat)
    requires Apart(a, ByteCount(x.w), b, m) && k <= m <= 8
    ensures LoadBits(Store(mem, a, x), b + k, m - k) == LoadBits(mem, b + k, m - k)
    decreases m - k
  {
    if k < m {
      ApartStep(a, ByteCount(x.w), b, m, k);
      BytesElsewhere(mem, a, x, b, m, k + 1);
    }
  }

  /** A store leaves every byte outside its range alone. */
  lemma StoreElsewhere(mem: Mem, a: nat, x: Word, b: nat, w: Width)
    requires Apart(a, ByteCount(x.w), b, ByteCount(w))
    ensures Load(Store(mem, a, x), b, w) == Load(mem, b, w)
  {
    BytesElsewhere(mem, a, x, b, ByteCount(w), 0);
  }

  /** v with its k low bytes dropped. */
  function Drop(v: nat, k: nat): nat {
    if k == 0 then v else Drop(v / 256, k - 1)
  }

  lemma {:induction false} DropNext(v: nat, k: nat)
    ensures Drop(v, k) / 256 == Drop(v, k + 1) && Drop(v, k) % 256 == ByteOf(v, k)
  {
    if k == 0 {
    } else {
      DropNext(v / 256, k - 1);
    }
  }

  function Low(v: nat, n: nat): nat {
    if n == 0 then 0 else v % 256 + 256 * Low(v / 256, n - 1)
  }

  lemma {:induction false} BytesWithin(mem: Mem, a: nat, x: Word, k: nat)
    requires k <= ByteCount(x.w)
    ensures LoadBits(Store(mem, a, x), a + k, ByteCount(x.w) - k) == Low(Drop(x.bits, k), ByteCount(x.w) - k)
    decreases ByteCount(x.w) - k
  {
    if k < ByteCount(x.w) {
      assert Offset(a, a + k) == k;
      DropNext(x.bits, k);
      BytesWithin(mem, a, x, k + 1);
    }
  }

  function Pow256(n: nat): nat { if n == 0 then 1 else 256 * Pow256(n - 1) }

  lemma {:induction false} LowIs(v: nat, n: nat)
    ensures v < Pow256(n) ==> Low(v, n) == v
    ensures Pow256(2) == 0x1_0000 && Pow256(4) == 0x1_0000_0000 && Pow256(8) == 0x1_0000_0000_0000_0000
  {
    if n == 0 {
    } else {
      LowIs(v / 256, n - 1);
    }
    assert Pow256(1) == 256 && Pow256(2) == 0x1_0000;
    assert Pow256(4) == 256 * Pow256(3);
    assert Pow256(6) == 256 * Pow256(5);
    assert Pow256(8) == 256 * Pow256(7);
  }

  lemma LowOfWord(x: Word)
    ensures Low(x.bits, ByteCount(x.w)) == x.bits
  {
    LowIs(x.bits, ByteCount(x.w));
    assert Pow256(1) == 256;
  }

  lemma CutSame(x: Word)
    ensures Cut(x.w, x.bits) == x
  {
  }

  /** What was stored is loaded back. */
  lemma LoadStored(mem: Mem, a: nat, x: Word)
    ensures Load(Store(mem, a, x), a, x.w) == x
  {
    assert LoadBits(Store(mem, a, x), a, ByteCount(x.w)) == x.bits by {
      BytesWithin(mem, a, x, 0);
      LowOfWord(x);
    }
    CutSame(x);
  }
}
