/** Octets, options and the few facts about sequences that every component shares. */
module Bytes {
  type byte = x: int | 0 <= x < 256
  type bytes = seq<byte>

  const MAX64: nat := 0xFFFF_FFFF_FFFF_FFFF

  datatype Option<+T> = None | Some(value: T)

  function Min(a: int, b: int): int { if a < b then a else b }

  function Max(a: int, b: int): int { if a < b then b else a }

  lemma Glue<T>(a: seq<T>, b: seq<T>, c: seq<T>)
    ensures a + (b + c) == (a + b) + c
  {
  }

  function Last<T>(s: seq<T>): Option<T> { if s == [] then None else Some(s[|s| - 1]) }

  /** The concatenation of several byte strings. */
  function Flatten(parts: seq<bytes>): bytes {
    if parts == [] then [] else parts[0] + Flatten(parts[1..])
  }

  /** a is what is left of b after deleting some of its elements: order and multiplicity are kept. */
  ghost predicate Subsequence<T>(a: seq<T>, b: seq<T>) {
    if a == [] then true
    else if b == [] then false
    else (a[|a| - 1] == b[|b| - 1] && Subsequence(a[..|a| - 1], b[..|b| - 1])) || Subsequence(a, b[..|b| - 1])
  }

  lemma SubsequenceSkip<T>(a: seq<T>, b: seq<T>, x: T)
    requires Subsequence(a, b)
    ensures Subsequence(a, b + [x])
  {
    assert (b + [x])[..|b|] == b;
  }

  lemma SubsequenceTake<T>(a: seq<T>, b: seq<T>, x: T)
    requires Subsequence(a, b)
    ensures Subsequence(a + [x], b + [x])
  {
    assert (b + [x])[..|b|] == b;
    assert (a + [x])[..|a|] == a;
  }

  /** Dropping a suffix of the shorter sequence keeps it a subsequence. */
  lemma {:induction false} SubsequencePrefix<T>(a: seq<T>, b: seq<T>, k: nat)
    requires k <= |a| && Subsequence(a, b)
    ensures Subsequence(a[..k], b)
    decreases |b|, |a|
  {
    if k == |a| {
      assert a[..k] == a;
    } else if k > 0 {
      var a', b' := a[..|a| - 1], b[..|b| - 1];
      if a[|a| - 1] == b[|b| - 1] && Subsequence(a', b') {
        SubsequencePrefix(a', b', k);
        assert a'[..k] == a[..k];
      } else {
        SubsequencePrefix(a, b', k);
      }
      SubsequenceSkip(a[..k], b', b[|b| - 1]);
      assert b' + [b[|b| - 1]] == b;
    }
  }

  lemma {:induction false} SubsequenceLength<T>(a: seq<T>, b: seq<T>)
    requires Subsequence(a, b)
    ensures |a| <= |b|
    decreases |b|
  {
    if a != [] {
      var a', b' := a[..|a| - 1], b[..|b| - 1];
      if a[|a| - 1] == b[|b| - 1] && Subsequence(a', b') {
        SubsequenceLength(a', b');
      } else {
        SubsequenceLength(a, b');
      }
    }
  }

  /** Every element of a subsequence is found in the longer sequence, not before its own position. */
  lemma {:induction false} SubsequenceMember<T>(a: seq<T>, b: seq<T>, i: nat)
    requires i < |a| && Subsequence(a, b)
    ensures exists m :: i <= m < |b| && b[m] == a[i]
    decreases |b|
  {
    var b' := b[..|b| - 1];
    SubsequenceLength(a, b);
    if Subsequence(a, b') {
      SubsequenceMember(a, b', i);
      var m :| i <= m < |b'| && b'[m] == a[i];
      assert b[m] == a[i];
    } else if i < |a| - 1 {
      SubsequenceMember(a[..|a| - 1], b', i);
      var m :| i <= m < |b'| && b'[m] == a[..|a| - 1][i];
      assert b[m] == a[i];
    } else {
      assert b[|b| - 1] == a[i];
    }
  }
}
