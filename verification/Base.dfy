/** Vocabulary shared by the models of the drivers. */
module Base {

  datatype Option<+T> = None | Some(value: T)

  /** One byte of device, page or user memory. */
  newtype byte = x: int | 0 <= x < 0x100

  /** A thread of execution; there is no bound on how many a run uses. */
  type Tid = nat

  function Min(a: nat, b: nat): (m: nat)
    ensures m <= a && m <= b && (m == a || m == b)
  {
    if a <= b then a else b
  }

  /** One more than the largest unsigned 64-bit number. */
  const TWO64: nat := 0x1_0000_0000_0000_0000

  /** The value an unsigned 64-bit variable holds after being assigned `x`. */
  function Wrap(x: nat): (w: nat)
    ensures w < TWO64
    ensures x < TWO64 ==> w == x
  {
    if x < TWO64 then x else Wrap(x - TWO64)
  }

  /** Wrapping an intermediate sum changes nothing. */
  lemma {:induction false} WrapTwice(a: nat, b: nat)
    ensures Wrap(Wrap(a) + b) == Wrap(a + b)
  {
    if a >= TWO64 {
      WrapTwice(a - TWO64, b);
    }
  }

  lemma {:induction false} WrapRounds(x: nat, k: nat)
    ensures Wrap(x + k * TWO64) == Wrap(x)
  {
    if k > 0 {
      WrapRounds(x, k - 1);
    }
  }

  /** Nor does wrapping a factor. */
  lemma {:induction false} WrapTimes(a: nat, k: nat)
    ensures Wrap(Wrap(a) * k) == Wrap(a * k)
  {
    if a >= TWO64 {
      WrapTimes(a - TWO64, k);
      WrapRounds((a - TWO64) * k, k);
      assert a * k == (a - TWO64) * k + k * TWO64;
    }
  }

  /** Subtraction of two `size_t` values on a 64-bit kernel: it wraps below zero. */
  function SizeSub(a: nat, b: nat): (d: int)
    ensures a >= b ==> d == a - b
  {
    if a >= b then a - b else a - b + TWO64
  }

  /** The bytes of `s` with those from position `at` on replaced by `bytes`. */
  function Splice(s: seq<byte>, at: nat, bytes: seq<byte>): (r: seq<byte>)
    requires at + |bytes| <= |s|
    ensures |r| == |s|
    ensures forall k :: 0 <= k < |s| ==> r[k] == if at <= k < at + |bytes| then bytes[k - at] else s[k]
  {
    s[..at] + bytes + s[at + |bytes|..]
  }
}
