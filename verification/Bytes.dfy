/** Unsigned 8-bit arithmetic with the wrap-around of C's `uint8_t`, and the additive
    checksum that the serial protocol accumulates over the bytes of a frame. */
module Bytes {
  type byte = x: int | 0 <= x < 256

  function Add8(a: byte, b: byte): byte {
    if a + b < 256 then a + b else a + b - 256
  }

  function Sub8(a: byte, b: byte): byte {
    if a >= b then a - b else a - b + 256
  }

  function Not8(a: byte): byte {
    255 - a
  }

  /** `(~a) + 1` on a `uint8_t`. */
  function Neg8(a: byte): byte {
    Add8(Not8(a), 1)
  }

  /** The running checksum after the bytes of `s`, starting from 0. */
  function Sum8(s: seq<byte>): byte {
    if |s| == 0 then 0 else Add8(Sum8(s[..|s| - 1]), s[|s| - 1])
  }

  function Total(s: seq<byte>): nat {
    if |s| == 0 then 0 else s[0] + Total(s[1..])
  }

  lemma Assoc<T>(a: seq<T>, b: seq<T>, c: seq<T>)
    ensures a + b + c == a + (b + c)
  {
  }

  lemma DropConcat<T>(a: seq<T>, b: seq<T>, k: nat)
    requires k <= |a|
    ensures (a + b)[k..] == a[k..] + b
  {
  }

  lemma Sum8Snoc(s: seq<byte>, b: byte)
    ensures Sum8(s + [b]) == Add8(Sum8(s), b)
  {
    assert (s + [b])[..|s|] == s;
  }

  lemma {:induction false} Sum8Concat(a: seq<byte>, b: seq<byte>)
    ensures Sum8(a + b) == Add8(Sum8(a), Sum8(b))
  {
    if |b| == 0 {
      assert a + b == a;
    } else {
      var b' := b[..|b| - 1];
      Sum8Concat(a, b');
      assert a + b == (a + b') + [b[|b| - 1]];
      Sum8Snoc(a + b', b[|b| - 1]);
    }
  }

  /** The wrapping checksum is the plain sum of the bytes modulo 256. */
  lemma {:induction false} Sum8IsTotalMod256(s: seq<byte>)
    ensures Sum8(s) == Total(s) % 256
  {
    if |s| != 0 {
      Sum8IsTotalMod256(s[1..]);
      assert s == [s[0]] + s[1..];
      Sum8Concat([s[0]], s[1..]);
      assert Sum8([s[0]]) == s[0] by { assert [s[0]][..0] == []; }
    }
  }
}
