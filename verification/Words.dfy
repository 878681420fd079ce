/** Bytes, sectors and the machine arithmetic of the C sources: 32-bit wrap-around and bit masks. */
module Words {

  type byte = x: int | 0 <= x < 256 witness 0

  const SS := 512

  type Sector = s: seq<byte> | |s| == SS witness seq(SS, _ => 0)

  const U32 := 0x1_0000_0000

  datatype Option<T> = None | Some(value: T)

  /** ld_word */
  function LdWord(a: byte, b: byte): nat {
    (a as nat) + 0x100 * (b as nat)
  }

  /** ld_dword */
  function LdDword(a: byte, b: byte, c: byte, d: byte): nat {
    LdWord(a, b) + 0x1_0000 * LdWord(c, d)
  }

  /** Byte k of a number, least significant first. */
  function ByteOf(x: nat, k: nat): byte
    requires k < 4
  {
    match k
    case 0 => x % 0x100
    case 1 => x / 0x100 % 0x100
    case 2 => x / 0x1_0000 % 0x100
    case _ => x / 0x100_0000 % 0x100
  }

  /** ld_dword reads back what st_dword stored. */
  lemma LoadStoreDword(x: nat)
    requires x < U32
    ensures LdDword(ByteOf(x, 0), ByteOf(x, 1), ByteOf(x, 2), ByteOf(x, 3)) == x
    ensures ByteOf(x, 0) + 0x100 * ByteOf(x, 1) + 0x1_0000 * ByteOf(x, 2) + 0x100_0000 * ByteOf(x, 3) == x
  {
    var p := x / 0x100;
    var q := p / 0x100;
    var r := q / 0x100;
    assert x / 0x1_0000 == q && x / 0x100_0000 == r;
    assert x == 0x100 * p + x % 0x100 && p == 0x100 * q + p % 0x100 && q == 0x100 * r + q % 0x100;
    assert r < 0x100;
  }

  /** The least significant byte comes first. */
  lemma LittleEndian(a: byte, b: byte, c: byte, d: byte)
    ensures LdWord(a, b) == (a as nat) + 0x100 * (b as nat)
    ensures LdDword(a, b, c, d) == (a as nat) + 0x100 * (b as nat) + 0x1_0000 * (c as nat) + 0x100_0000 * (d as nat)
  {
  }

  /** A DWORD or uint32_t sum. */
  function Add32(a: nat, b: nat): nat {
    (a + b) % U32
  }

  /** A DWORD or uint32_t difference. */
  function Sub32(a: nat, b: nat): nat {
    (a - b) % U32
  }

  lemma Sub32Value(a: nat, b: nat)
    requires a < U32 && b < U32
    ensures Sub32(a, b) == if a >= b then a - b else a - b + U32
  {
  }

  lemma Add32Value(a: nat, b: nat)
    requires a < U32 && b < U32
    ensures Add32(a, b) == if a + b < U32 then a + b else a + b - U32
  {
  }

  function Min(a: int, b: int): int {
    if a <= b then a else b
  }

  function Max(a: int, b: int): int {
    if a >= b then a else b
  }

  function CeilDiv(a: nat, b: nat): nat
    requires b > 0
  {
    (a + b - 1) / b
  }

  /** Bitwise AND of two non-negative numbers. */
  function BitAnd(x: nat, y: nat): nat {
    if x == 0 || y == 0 then 0 else (x % 2) * (y % 2) + 2 * BitAnd(x / 2, y / 2)
  }

  predicate PowerOfTwo(n: nat) {
    n == 1 || (n > 1 && n % 2 == 0 && PowerOfTwo(n / 2))
  }

  /** The powers of two that fit into a byte. */
  lemma SmallPowers(n: nat)
    requires n < 0x100
    ensures PowerOfTwo(n) <==> n in {1, 2, 4, 8, 16, 32, 64, 128}
  {
    if n % 2 == 0 && n > 1 && n / 2 % 2 == 0 && n / 4 % 2 == 0 && n / 8 % 2 == 0 && n / 16 % 2 == 0 {
      assert n in {32, 64, 96, 128, 160, 192, 224};
    }
  }

  lemma {:induction false} BitAndZero(x: nat, y: nat)
    ensures BitAnd(x, y) == 0 || (x != 0 && y != 0)
    ensures BitAnd(x, x) == x
  {
    if x != 0 {
      BitAndZero(x / 2, y);
    }
  }

  /** Splitting off low digits: the remainder modulo a*b, digit by digit. */
  lemma SplitMod(x: nat, a: nat, b: nat)
    requires a > 0 && b > 0
    ensures a * b > 0 && x % (a * b) == x % a + a * (x / a % b) && x / (a * b) == x / a / b
  {
    var q := x / a / b;
    var r := x / a % b;
    calc {
      x;
      a * (x / a) + x % a;
      { assert x / a == b * q + r; }
      a * (b * q + r) + x % a;
      a * (b * q) + a * r + x % a;
      { assert a * (b * q) == (a * b) * q; }
      (a * b) * q + (a * r + x % a);
    }
    MulMonotone(a, r, b - 1);
    assert a * (b - 1) == a * b - a;
    MulAtLeast(a, b);
    DivModUnique(x, a * b, q, a * r + x % a);
  }

  lemma MulMonotone(d: int, j: int, k: int)
    requires d >= 0 && j <= k
    ensures d * j <= d * k
  {
    if j < k && d > 0 {
      assert d * (k - j) == d * k - d * j;
      MulAtLeast(d, k - j);
    }
  }

  lemma MulAtLeast(d: int, k: int)
    requires d > 0 && k > 0
    ensures d * k >= d
  {
    assert d * k == d * (k - 1) + d;
  }

  lemma DivMonotone(a: nat, b: nat, d: nat)
    requires d > 0 && a <= b
    ensures a / d <= b / d
  {
    if a / d > b / d {
      MulMonotone(d, b / d + 1, a / d);
    }
  }

  /** Position j of block i lies before the end of n blocks. */
  lemma InBlocks(size: nat, i: nat, n: nat, j: nat)
    requires i < n && j < size
    ensures size * i + j < size * n
  {
    MulMonotone(size, i + 1, n);
    assert size * (i + 1) == size * i + size;
  }

  /** Division with remainder has one answer. */
  lemma {:induction false} DivModUnique(x: int, d: int, q: int, r: int)
    requires d > 0 && 0 <= r < d && x == d * q + r
    ensures x / d == q && x % d == r
  {
    SplitUnique(d, x / d, x % d, q, r);
  }

  lemma {:induction false} SplitUnique(d: int, q: int, r: int, q': int, r': int)
    requires 0 <= r < d && 0 <= r' < d && d * q + r == d * q' + r'
    ensures q == q' && r == r'
  {
    assert d * (q - q') == d * q - d * q' == r' - r;
    if q > q' {
      MulAtLeast(d, q - q');
    } else if q < q' {
      MulAtLeast(d, q' - q);
    }
  }

  /** Masking with 2^k - 1 is the remainder modulo 2^k: why csize must be a power of two. */
  lemma {:induction false} MaskIsRemainder(x: nat, n: nat)
    requires PowerOfTwo(n)
    ensures BitAnd(x, n - 1) == x % n
  {
    if n == 1 {
    } else {
      MaskIsRemainder(x / 2, n / 2);
      SplitMod(x, 2, n / 2);
      assert (n - 1) / 2 == n / 2 - 1 && (n - 1) % 2 == 1;
    }
  }

  /** The test the mount code applies to the cluster size accepts the powers of two and nothing else. */
  lemma {:induction false} PowerOfTwoTest(n: nat)
    requires n > 0
    ensures BitAnd(n, n - 1) == 0 <==> PowerOfTwo(n)
  {
    if n == 1 {
    } else if n % 2 == 0 {
      PowerOfTwoTest(n / 2);
      assert (n - 1) / 2 == n / 2 - 1;
    } else {
      assert (n - 1) / 2 == n / 2 && (n - 1) % 2 == 0;
      BitAndZero(n / 2, n / 2);
    }
  }
}
