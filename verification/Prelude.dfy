/** Bytes, content addresses and the concatenation of a list of deliveries. */
module Prelude {

  datatype Option<+T> = None | Some(value: T)

  datatype Result<+T, +E> = Ok(value: T) | Err(error: E)

  type Byte = b: int | 0 <= b < 256

  type Bytes = seq<Byte>

  const ADDRESS_LEN := 32

  /** A content address: the 32 bytes of a hash. */
  type Address = a: Bytes | |a| == ADDRESS_LEN witness seq(ADDRESS_LEN, i => 0)

  function Min(a: nat, b: nat): nat {
    if a <= b then a else b
  }

  /** The flat byte sequence carried by a list of pieces. */
  function Flatten(pieces: seq<Bytes>): Bytes {
    if pieces == [] then [] else pieces[0] + Flatten(pieces[1..])
  }

  lemma {:induction false} FlattenAppend(xs: seq<Bytes>, ys: seq<Bytes>)
    ensures Flatten(xs + ys) == Flatten(xs) + Flatten(ys)
  {
    if xs == [] {
      assert xs + ys == ys;
    } else {
      FlattenAppend(xs[1..], ys);
      assert (xs + ys)[1..] == xs[1..] + ys;
      Associative(xs[0], Flatten(xs[1..]), Flatten(ys));
    }
  }

  lemma Associative(a: Bytes, b: Bytes, c: Bytes)
    ensures a + (b + c) == a + b + c
  {
  }

  lemma FlattenSnoc(xs: seq<Bytes>, y: Bytes)
    ensures Flatten(xs + [y]) == Flatten(xs) + y
  {
    FlattenAppend(xs, [y]);
    assert Flatten([y]) == y + Flatten([]);
  }

  /** Splitting a list of pieces splits the bytes it carries. */
  lemma FlattenSplit(xs: seq<Bytes>, k: nat)
    requires k <= |xs|
    ensures Flatten(xs) == Flatten(xs[..k]) + Flatten(xs[k..])
  {
    FlattenAppend(xs[..k], xs[k..]);
    assert xs == xs[..k] + xs[k..];
  }

  lemma FlattenMonotone(xs: seq<Bytes>, j: nat, k: nat)
    requires j <= k <= |xs|
    ensures Flatten(xs[..j]) <= Flatten(xs[..k])
  {
    FlattenSplit(xs[..k], j);
    assert xs[..k][..j] == xs[..j];
  }
}
