/** Shared vocabulary: optional values, the domain errors, and sums and
    concatenations over sequences with the lemmas every other module needs. */
module Common {

  datatype Option<+T> = None | Some(value: T)

  /** The domain exceptions of dfsha/common/exceptions.py that a mutation can raise.
      `Internal` is the generic DFShaError a caught bug is turned into. */
  datatype Error =
    | InvalidPath
    | PathNotFound
    | PathExists
    | NotEmpty
    | NotAFile
    | NotADirectory
    | Conflict
    | AccessDenied
    | Internal

  datatype Result<+T> = Ok(value: T) | Err(error: Error)

  function Min(a: int, b: int): int { if a <= b then a else b }

  function Max(a: int, b: int): int { if a >= b then a else b }

  function Sum(xs: seq<int>): int {
    if xs == [] then 0 else xs[0] + Sum(xs[1..])
  }

  lemma {:induction false} SumConcat(xs: seq<int>, ys: seq<int>)
    ensures Sum(xs + ys) == Sum(xs) + Sum(ys)
  {
    if xs == [] {
      assert xs + ys == ys;
    } else {
      assert (xs + ys)[1..] == xs[1..] + ys;
      SumConcat(xs[1..], ys);
    }
  }

  lemma {:induction false} SumTake(xs: seq<int>, i: nat)
    requires i < |xs|
    ensures Sum(xs[..i + 1]) == Sum(xs[..i]) + xs[i]
  {
    assert xs[..i + 1] == xs[..i] + [xs[i]];
    SumConcat(xs[..i], [xs[i]]);
  }

  lemma {:induction false} SumNonNegative(xs: seq<int>)
    requires forall i :: 0 <= i < |xs| ==> xs[i] >= 0
    ensures Sum(xs) >= 0
  {
    if xs != [] {
      SumNonNegative(xs[1..]);
    }
  }

  function Flatten<T>(xss: seq<seq<T>>): seq<T> {
    if xss == [] then [] else xss[0] + Flatten(xss[1..])
  }

  lemma {:induction false} FlattenConcat<T>(xss: seq<seq<T>>, yss: seq<seq<T>>)
    ensures Flatten(xss + yss) == Flatten(xss) + Flatten(yss)
  {
    if xss == [] {
      assert xss + yss == yss;
    } else {
      assert (xss + yss)[1..] == xss[1..] + yss;
      FlattenConcat(xss[1..], yss);
    }
  }

  lemma {:induction false} FlattenSnoc<T>(xss: seq<seq<T>>, ys: seq<T>)
    ensures Flatten(xss + [ys]) == Flatten(xss) + ys
  {
    FlattenConcat(xss, [ys]);
    assert Flatten([ys]) == ys;
  }

  function Lengths<T>(xss: seq<seq<T>>): (r: seq<int>)
    ensures |r| == |xss| && forall i :: 0 <= i < |xss| ==> r[i] == |xss[i]|
  {
    if xss == [] then [] else [|xss[0]|] + Lengths(xss[1..])
  }

  lemma {:induction false} FlattenLength<T>(xss: seq<seq<T>>)
    ensures |Flatten(xss)| == Sum(Lengths(xss))
  {
    if xss != [] {
      assert Lengths(xss)[1..] == Lengths(xss[1..]);
      FlattenLength(xss[1..]);
    }
  }

  /** Piece `i` sits in the concatenation right after the first `i` pieces. */
  lemma {:induction false} FlattenSlice<T>(xss: seq<seq<T>>, i: nat)
    requires i < |xss|
    ensures |Flatten(xss[..i])| + |xss[i]| <= |Flatten(xss)|
    ensures Flatten(xss)[|Flatten(xss[..i])|..|Flatten(xss[..i])| + |xss[i]|] == xss[i]
  {
    var before := Flatten(xss[..i]);
    assert xss == xss[..i] + ([xss[i]] + xss[i + 1..]);
    FlattenConcat(xss[..i], [xss[i]] + xss[i + 1..]);
    FlattenConcat([xss[i]], xss[i + 1..]);
    assert Flatten([xss[i]]) == xss[i];
    assert Flatten(xss) == before + (xss[i] + Flatten(xss[i + 1..]));
  }

  ghost predicate Distinct<T>(xs: seq<T>) {
    forall i, j :: 0 <= i < j < |xs| ==> xs[i] != xs[j]
  }

  // ----- Bytes -----

  newtype Byte = b: int | 0 <= b < 256

  function Zeros(n: nat): (r: seq<Byte>)
    ensures |r| == n && forall i :: 0 <= i < n ==> r[i] == 0
  {
    if n == 0 then [] else [0] + Zeros(n - 1)
  }

  /** A file or buffer after writing `data` at `at`, within its length. */
  function Patch(file: seq<Byte>, at: nat, data: seq<Byte>): (r: seq<Byte>)
    requires at + |data| <= |file|
    ensures |r| == |file|
  {
    seq(|file|, (j: int) requires 0 <= j < |file| => if at <= j < at + |data| then data[j - at] else file[j])
  }

  lemma {:induction false} PatchAt(file: seq<Byte>, at: nat, data: seq<Byte>, j: nat)
    requires at + |data| <= |file| && j < |file|
    ensures Patch(file, at, data)[j] == if at <= j < at + |data| then data[j - at] else file[j]
  {
  }

  /** Writing right after a stretch extends it. */
  lemma {:induction false} PatchExtends(file: seq<Byte>, from: nat, at: nat, data: seq<Byte>)
    requires from <= at && at + |data| <= |file|
    ensures Patch(file, at, data)[from..at + |data|] == file[from..at] + data
  {
    forall j | from <= j < at + |data| ensures Patch(file, at, data)[j] == (file[from..at] + data)[j - from] {
      PatchAt(file, at, data, j);
    }
  }
}
