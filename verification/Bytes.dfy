/** Little-endian integers and length-prefixed strings, written and read back. */
module Bytes {

  datatype Option<+T> = None | Some(value: T)

  type Byte = x: int | 0 <= x < 256
  type Data = seq<Byte>

  type U32 = x: int | 0 <= x < 0x1_0000_0000
  type U64 = x: int | 0 <= x < 0x1_0000_0000_0000_0000

  /** A name, as the bytes of the `std::string`. */
  type Name = Data

  /** What reading from a byte stream yields; `Short` where the stream ends too early. */
  datatype Parsed<+T> = Parsed(value: T, rest: Data) | Short | Rejected {

    predicate IsFailure() {
      !Parsed?
    }

    function PropagateFailure<U>(): Parsed<U>
      requires IsFailure()
    {
      if Short? then Short else Rejected
    }

    function Extract(): (T, Data)
      requires !IsFailure()
    {
      (value, rest)
    }
  }

  function Pow256(w: nat): (p: nat)
    ensures p > 0
  {
    if w == 0 then 1 else 256 * Pow256(w - 1)
  }

  /** The low `w` bytes of `n`: wider numbers are truncated. */
  function Le(n: nat, w: nat): (bs: Data)
    ensures |bs| == w
  {
    if w == 0 then [] else [n % 256] + Le(n / 256, w - 1)
  }

  function FromLe(bs: Data): nat {
    if bs == [] then 0 else bs[0] + 256 * FromLe(bs[1..])
  }

  /** Writing `w` bytes and reading them back keeps `n` modulo 256^w. */
  lemma {:induction false} LeRoundTrip(n: nat, w: nat)
    ensures FromLe(Le(n, w)) == n % Pow256(w)
  {
    if w > 0 {
      LeRoundTrip(n / 256, w - 1);
      assert Le(n, w)[1..] == Le(n / 256, w - 1);
      ModStep(n, Pow256(w - 1));
    }
  }

  lemma ModStep(n: nat, p: nat)
    requires p > 0
    ensures n % (256 * p) == n % 256 + 256 * (n / 256 % p)
  {
    var q, r := n / 256 / p, n / 256 % p;
    SplitProduct(256, p, q, r);
    UniqueRemainder(n, 256 * p, q, 256 * r + n % 256);
  }

  lemma SplitProduct(b: nat, p: nat, q: nat, r: nat)
    ensures b * (p * q + r) == (b * p) * q + b * r
  {
  }

  lemma UniqueRemainder(n: nat, d: nat, q: nat, r: nat)
    requires 0 < d && r < d && n == d * q + r
    ensures n % d == r
  {
    var k := q - n / d;
    assert d * k == n % d - r by {
      assert n == d * (n / d) + n % d;
      assert d * k == d * q - d * (n / d);
    }
    SmallMultiple(d, k);
  }

  lemma SmallMultiple(d: int, k: int)
    requires d > 0 && -d < d * k < d
    ensures k == 0
  {
  }

  /** The least significant byte comes first. */
  lemma FourBytes(n: U32)
    ensures Le(n, 4) == [n % 0x100, n / 0x100 % 0x100, n / 0x1_0000 % 0x100, n / 0x100_0000]
  {
    assert Le(n, 4) == [n % 256] + Le(n / 256, 3);
    assert Le(n / 256, 3) == [n / 256 % 256] + Le(n / 0x1_0000, 2);
    assert Le(n / 0x1_0000, 2) == [n / 0x1_0000 % 256] + Le(n / 0x100_0000, 1);
    assert Le(n / 0x100_0000, 1) == [n / 0x100_0000 % 256] + Le(n / 0x1_0000_0000, 0);
  }

  /** In general, byte `i` is the digit of weight 256^i. */
  lemma {:induction false} LittleEndian(n: nat, w: nat, i: nat)
    requires i < w
    ensures Le(n, w)[i] == n / Pow256(i) % 256
    decreases w
  {
    if i > 0 {
      LittleEndian(n / 256, w - 1, i - 1);
      DivideTwice(n, Pow256(i - 1));
    }
  }

  lemma DivideTwice(n: nat, p: nat)
    requires p > 0
    ensures n / 256 / p == n / (256 * p)
  {
    ModStep(n, p);
    SplitProduct(256, p, n / 256 / p, n / 256 % p);
    assert n == (256 * p) * (n / 256 / p) + n % (256 * p);
    SameQuotient(n, 256 * p, n / 256 / p);
  }

  lemma SameQuotient(n: nat, d: nat, q: nat)
    requires 0 < d && n == d * q + n % d
    ensures q == n / d
  {
    assert d * (q - n / d) == 0;
  }

  // ----- Reading -----

  /** `is.read` of `n` bytes. */
  function Take(bs: Data, n: nat): Parsed<Data> {
    if n <= |bs| then Parsed(bs[..n], bs[n..]) else Short
  }

  function TakeInt(bs: Data, w: nat): Parsed<nat> {
    var (raw, rest) :- Take(bs, w);
    Parsed(FromLe(raw), rest)
  }

  lemma TakeFront(front: Data, rest: Data)
    ensures Take(front + rest, |front|) == Parsed(front, rest)
  {
  }

  lemma TakeIntFront(n: nat, w: nat, rest: Data)
    requires n < Pow256(w)
    ensures TakeInt(Le(n, w) + rest, w) == Parsed(n, rest)
  {
    TakeFront(Le(n, w), rest);
    LeRoundTrip(n, w);
  }

  /** A `uint32_t` length followed by that many bytes. */
  function Prefixed(s: Data): Data {
    Le(|s|, 4) + s
  }

  function TakePrefixed(bs: Data): Parsed<Data> {
    var (n, rest) :- TakeInt(bs, 4);
    Take(rest, n)
  }

  lemma PrefixedRoundTrip(s: Data, rest: Data)
    requires |s| < Pow256(4)
    ensures TakePrefixed(Prefixed(s) + rest) == Parsed(s, rest)
  {
    assert Prefixed(s) + rest == Le(|s|, 4) + (s + rest);
    TakeIntFront(|s|, 4, s + rest);
    TakeFront(s, rest);
  }

  lemma Assoc(a: Data, b: Data, rest: Data)
    ensures (a + b) + rest == a + (b + rest)
  {
  }

  lemma Slices3(a: Data, b: Data, c: Data)
    ensures var bs := a + b + c;
      bs[..|a|] == a && bs[|a|..|a| + |b|] == b && bs[|a| + |b|..] == c
  {
  }

  lemma Assoc3(a: Data, b: Data, c: Data, rest: Data)
    ensures (a + (b + c)) + rest == a + (b + (c + rest))
  {
  }
}
