/** The conventional optional value, for Python's `None`-or-value results. */
module Optional {
  datatype Option<T> = None | Some(value: T)
}

/** Sequences of sequences: concatenation, as used for written bytes and for playlist batches. */
module Seqs {

  /** The in-order concatenation of all pieces (Python's `b''.join(pieces)`). */
  function Concat<T>(pieces: seq<seq<T>>): seq<T>
  {
    if pieces == [] then [] else Concat(pieces[..|pieces| - 1]) + pieces[|pieces| - 1]
  }

  /** The total of the lengths of all pieces. */
  function TotalLength<T>(pieces: seq<seq<T>>): nat
  {
    if pieces == [] then 0 else TotalLength(pieces[..|pieces| - 1]) + |pieces[|pieces| - 1]|
  }

  /** The pieces that are not empty, in their original order. */
  function NonEmpty<T>(pieces: seq<seq<T>>): (kept: seq<seq<T>>)
    ensures |kept| <= |pieces|
    ensures forall i :: 0 <= i < |kept| ==> kept[i] != []
  {
    if pieces == [] then []
    else
      var last := pieces[|pieces| - 1];
      NonEmpty(pieces[..|pieces| - 1]) + (if last == [] then [] else [last])
  }

  /** The smaller of two numbers: Python clamps a slice bound to the length this way. */
  function Min(a: int, b: int): int
  {
    if a < b then a else b
  }

  /** A non-empty sequence is its prefix followed by its last element. */
  lemma InitLast<T>(s: seq<T>)
    requires s != []
    ensures s[..|s| - 1] + [s[|s| - 1]] == s
  {
  }

  /** Extending a prefix by one piece extends the concatenation and the total length by that piece. */
  lemma ConcatPrefixSucc<T>(pieces: seq<seq<T>>, i: nat)
    requires i < |pieces|
    ensures Concat(pieces[..i + 1]) == Concat(pieces[..i]) + pieces[i]
    ensures TotalLength(pieces[..i + 1]) == TotalLength(pieces[..i]) + |pieces[i]|
  {
    assert pieces[..i + 1][..i] == pieces[..i];
  }

  lemma {:induction false} ConcatAppend<T>(a: seq<seq<T>>, b: seq<seq<T>>)
    ensures Concat(a + b) == Concat(a) + Concat(b)
    decreases |b|
  {
    if b == [] {
      assert a + b == a;
    } else {
      var b' := b[..|b| - 1];
      var last := b[|b| - 1];
      assert (a + b)[..|a + b| - 1] == a + b' && (a + b)[|a + b| - 1] == last;
      ConcatAppend(a, b');
      assert Concat(a) + Concat(b') + last == Concat(a) + (Concat(b') + last);
    }
  }

  lemma ConcatCons<T>(x: seq<T>, rest: seq<seq<T>>)
    ensures Concat([x] + rest) == x + Concat(rest)
  {
    ConcatAppend([x], rest);
    assert [x][..0] == [];
  }

  /** The length of the concatenation is the total of the lengths. */
  lemma {:induction false} ConcatLength<T>(pieces: seq<seq<T>>)
    ensures |Concat(pieces)| == TotalLength(pieces)
    decreases |pieces|
  {
    if pieces != [] {
      ConcatLength(pieces[..|pieces| - 1]);
    }
  }

  /** Dropping the empty pieces changes neither the concatenation nor the total length. */
  lemma {:induction false} NonEmptyKeepsConcat<T>(pieces: seq<seq<T>>)
    ensures Concat(NonEmpty(pieces)) == Concat(pieces)
    ensures TotalLength(NonEmpty(pieces)) == TotalLength(pieces)
    decreases |pieces|
  {
    if pieces != [] {
      var init := pieces[..|pieces| - 1];
      var last := pieces[|pieces| - 1];
      NonEmptyKeepsConcat(init);
      if last == [] {
        assert NonEmpty(pieces) == NonEmpty(init) + [];
        assert NonEmpty(pieces) == NonEmpty(init);
      } else {
        var kept := NonEmpty(init) + [last];
        assert NonEmpty(pieces) == kept;
        assert kept[..|kept| - 1] == NonEmpty(init);
      }
    }
  }
}
