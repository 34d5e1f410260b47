/**
  Fixed-width words, the two bit tricks shared by the control plane and the data plane
  (packing a backend key, swapping the bytes of a port), and the arithmetic of picking a
  slot with `draw % count`.
 */
module Words {

  type U8 = x: int | 0 <= x < 0x100
  type U16 = x: int | 0 <= x < 0x1_0000
  type U32 = x: int | 0 <= x < 0x1_0000_0000

  datatype Option<+T> = None | Some(value: T)

  /** Bitwise or of two non-negative integers. */
  function Or(a: nat, b: nat): nat
    decreases a + b
  {
    if a == 0 && b == 0 then 0
    else 2 * Or(a / 2, b / 2) + (if a % 2 == 1 || b % 2 == 1 then 1 else 0)
  }

  function Pow2(k: nat): (p: nat)
    ensures p > 0
  {
    if k == 0 then 1 else 2 * Pow2(k - 1)
  }

  lemma OrZero(b: nat)
    ensures Or(0, b) == b && Or(b, 0) == b
  {
    if b > 0 { OrZero(b / 2); }
  }

  /** A left-shifted word and a word that fits below the shift share no bit, so `|` is `+`. */
  lemma {:induction false} OrOfShifted(a: nat, b: nat, k: nat)
    requires b < Pow2(k)
    ensures Or(a * Pow2(k), b) == a * Pow2(k) + b
  {
    if k == 0 {
      OrZero(a);
    } else {
      var p := Pow2(k - 1);
      assert a * Pow2(k) == 2 * (a * p);
      OrOfShifted(a, b / 2, k - 1);
    }
  }

  /** The key of one slot in the backend table: 16 bits of service id, 16 bits of slot. */
  function BackendKey(id: U16, slot: U16): (key: U32)
    ensures IdOf(key) == id && SlotOf(key) == slot
  {
    id * 0x1_0000 + slot
  }

  function IdOf(key: U32): U16 { key / 0x1_0000 }

  function SlotOf(key: U32): U16 { key % 0x1_0000 }

  /** Both sources write the key as `id << 16 | slot`. */
  lemma BackendKeyIsShiftOr(id: U16, slot: U16)
    ensures Or(id * Pow2(16), slot) == BackendKey(id, slot)
  {
    assert Pow2(16) == 0x1_0000 by { Pow2Values(); }
    OrOfShifted(id, slot, 16);
  }

  /** Packing is a bijection between pairs of 16-bit words and 32-bit keys. */
  lemma BackendKeyBijective(id: U16, slot: U16, id': U16, slot': U16, key: U32)
    ensures BackendKey(id, slot) == BackendKey(id', slot') <==> id == id' && slot == slot'
    ensures BackendKey(IdOf(key), SlotOf(key)) == key
  {
    assert key == key / 0x1_0000 * 0x1_0000 + key % 0x1_0000;
  }

  lemma BackendKeyInjective(id: U16, slot: U16, id': U16, slot': U16)
    requires BackendKey(id, slot) == BackendKey(id', slot')
    ensures id == id' && slot == slot'
  {
    assert IdOf(BackendKey(id, slot)) == id && SlotOf(BackendKey(id, slot)) == slot;
  }

  lemma Pow2Values()
    ensures Pow2(8) == 0x100 && Pow2(16) == 0x1_0000
  {
    assert Pow2(4) == 16;
    assert Pow2(8) == 0x100;
    assert Pow2(12) == 0x1000;
  }

  /** Exchange the two bytes of a port. */
  function ByteSwap(port: U16): U16 { port % 0x100 * 0x100 + port / 0x100 }

  /** The source computes `(port & 0xff) << 8 | port >> 8`. */
  lemma ByteSwapIsShiftOr(port: U16)
    ensures Or(port % 0x100 * Pow2(8), port / 0x100) == ByteSwap(port)
  {
    Pow2Values();
    OrOfShifted(port % 0x100, port / 0x100, 8);
  }

  /** A 16-bit word as the two bytes of network order, and as a little-endian host reads two bytes. */
  function StoreBigEndian(w: U16): seq<U8> { [w / 0x100, w % 0x100] }

  function LoadLittleEndian(bytes: seq<U8>): U16
    requires |bytes| == 2
  {
    var first: int, second: int := bytes[0], bytes[1];
    first + second * 0x100
  }

  /** The swapped port is what a little-endian host sees in a field that holds the port in network order. */
  lemma ByteSwapIsNetworkOrder(port: U16)
    ensures LoadLittleEndian(StoreBigEndian(port)) == ByteSwap(port)
    ensures StoreBigEndian(ByteSwap(port)) == [StoreBigEndian(port)[1], StoreBigEndian(port)[0]]
  {
    var h, l := port / 0x100, port % 0x100;
    assert (l * 0x100 + h) / 0x100 == l && (l * 0x100 + h) % 0x100 == h;
  }

  lemma ByteSwapInvolution(port: U16)
    ensures ByteSwap(ByteSwap(port)) == port
  {
    var h, l := port / 0x100, port % 0x100;
    assert ByteSwap(port) == l * 0x100 + h;
    assert (l * 0x100 + h) / 0x100 == l && (l * 0x100 + h) % 0x100 == h;
  }

  lemma ByteSwapInjective(p: U16, q: U16)
    requires ByteSwap(p) == ByteSwap(q)
    ensures p == q
  {
    ByteSwapInvolution(p);
    ByteSwapInvolution(q);
  }

  /** The remainder of `x` by `n`, by repeated subtraction; `RemainderIsMod` says it is `%`. */
  function Remainder(x: nat, n: nat): (r: nat)
    requires n > 0
    ensures r < n
  {
    if x < n then x else Remainder(x - n, n)
  }

  lemma {:induction false} RemainderIsMod(x: nat, n: nat)
    requires n > 0
    ensures Remainder(x, n) == x % n
  {
    if x < n {
      DivModUnique(x, n, 0, x);
    } else {
      RemainderIsMod(x - n, n);
      var q, r := (x - n) / n, (x - n) % n;
      assert x == n * (q + 1) + r;
      DivModUnique(x, n, q + 1, r);
    }
  }

  /** The draws below `bound` that are sent to residue `r`. */
  ghost function DrawsFor(bound: nat, n: nat, r: nat): set<nat>
    requires n > 0
  {
    set x: nat | 0 <= x < bound && Remainder(x, n) == r
  }

  lemma DivModNext(x: nat, n: nat)
    requires n > 0
    ensures if x % n + 1 == n then (x + 1) / n == x / n + 1 && (x + 1) % n == 0
            else (x + 1) / n == x / n && (x + 1) % n == x % n + 1
  {
    var q, r := x / n, x % n;
    assert x == n * q + r;
    if r + 1 == n {
      assert x + 1 == n * (q + 1);
      DivModUnique(x + 1, n, q + 1, 0);
    } else {
      DivModUnique(x + 1, n, q, r + 1);
    }
  }

  lemma DivModUnique(x: nat, n: nat, q: nat, r: nat)
    requires r < n && x == n * q + r
    ensures x / n == q && x % n == r
  {
    var q', r' := x / n, x % n;
    assert x == n * q' + r';
    if q > q' {
      MulGap(n, q, q');
    } else if q < q' {
      MulGap(n, q', q);
    }
  }

  lemma MulGap(n: nat, a: nat, b: nat)
    requires a > b
    ensures n * a >= n * b + n
  {
    assert n * a == n * (a - 1) + n;
    if a - 1 > b { MulGap(n, a - 1, b); }
  }

  /** Residue `r` receives one draw for each full round of `n`, and one more in a last partial round that reaches it. */
  lemma {:induction false} CountDraws(bound: nat, n: nat, r: nat)
    requires r < n
    ensures |DrawsFor(bound, n, r)| == bound / n + (if r < bound % n then 1 else 0)
  {
    if bound == 0 {
      assert DrawsFor(0, n, r) == {};
      DivModUnique(0, n, 0, 0);
    } else {
      var x := bound - 1;
      CountDraws(x, n, r);
      DivModNext(x, n);
      RemainderIsMod(x, n);
      if x % n == r {
        assert DrawsFor(bound, n, r) == DrawsFor(x, n, r) + {x};
      } else {
        assert DrawsFor(bound, n, r) == DrawsFor(x, n, r);
      }
    }
  }
}
