/**
 * Keeping the present values of a sequence of optional values, in order:
 * the shape of both handlers' row loops (`continue` before `push`, or
 * `map` then `filter`). `Somes` is the result; `SomeIndices` names the
 * positions it came from, and `SomesOrigins` says the two agree, in order.
 */
module Seqs {
  import opened Wrappers

  /** The elements an optional contributes: one or none. */
  function Emit<T>(o: Option<T>): (r: seq<T>)
    ensures |r| <= 1
    ensures o.None? ==> r == []
    ensures o.Some? ==> r == [o.value]
  {
    if o.Some? then [o.value] else []
  }

  /** The present values of `os`, in order. Defined by its last element, the
      way a loop that pushes onto an array builds it. */
  function Somes<T>(os: seq<Option<T>>): (r: seq<T>)
    ensures |r| <= |os|
  {
    if os == [] then [] else Somes(os[..|os| - 1]) + Emit(os[|os| - 1])
  }

  /** The positions of `os` that hold a value, in increasing order. */
  function SomeIndices<T>(os: seq<Option<T>>): (r: seq<nat>)
    ensures forall k :: 0 <= k < |r| ==> r[k] < |os|
  {
    if os == [] then []
    else SomeIndices(os[..|os| - 1]) + (if os[|os| - 1].Some? then [|os| - 1] else [])
  }

  /** The number of present values, counted from the front. */
  function CountSome<T>(os: seq<Option<T>>): nat {
    if os == [] then 0 else (if os[0].Some? then 1 else 0) + CountSome(os[1..])
  }

  /** The k-th result is the value at the k-th position that holds one;
      those positions increase strictly; a position is listed exactly when it
      holds a value. So the result is every present value, in input order. */
  lemma {:induction false} SomesOrigins<T>(os: seq<Option<T>>)
    ensures |SomeIndices(os)| == |Somes(os)|
    ensures forall k :: 0 <= k < |SomeIndices(os)| ==>
              SomeIndices(os)[k] < |os| && os[SomeIndices(os)[k]] == Some(Somes(os)[k])
    ensures forall k, l :: 0 <= k < l < |SomeIndices(os)| ==> SomeIndices(os)[k] < SomeIndices(os)[l]
    ensures forall j :: 0 <= j < |os| ==> (os[j].Some? <==> j in SomeIndices(os))
  {
    if os != [] {
      var init := os[..|os| - 1];
      SomesOrigins(init);
      assert forall j :: 0 <= j < |init| ==> os[j] == init[j];
    }
  }

  /** Keeping the values of a concatenation keeps those of each part. */
  lemma {:induction false} SomesAppend<T>(xs: seq<Option<T>>, ys: seq<Option<T>>)
    ensures Somes(xs + ys) == Somes(xs) + Somes(ys)
    decreases |ys|
  {
    if ys == [] {
      assert xs + ys == xs;
    } else {
      var ys' := ys[..|ys| - 1];
      assert (xs + ys)[..|xs + ys| - 1] == xs + ys';
      SomesAppend(xs, ys');
    }
  }

  /** Concatenation regroups freely. */
  lemma Assoc<T>(x: seq<T>, y: seq<T>, z: seq<T>)
    ensures x + (y + z) == (x + y) + z
  {
  }

  /** The result splits around any one position: what comes before it, what
      it contributes, and what comes after it. */
  lemma SomesSplit<T>(os: seq<Option<T>>, j: nat)
    requires j < |os|
    ensures Somes(os) == Somes(os[..j]) + Emit(os[j]) + Somes(os[j + 1..])
  {
    var before, here, after := os[..j], [os[j]], os[j + 1..];
    assert os == before + here + after;
    SomesAppend(before + here, after);
    SomesAppend(before, here);
    assert here[..0] == [];
  }

  /** Emptying one position drops its value, if it had one, and nothing else. */
  lemma SomesClear<T>(os: seq<Option<T>>, j: nat)
    requires j < |os|
    ensures Somes(os[j := None]) == Somes(os[..j]) + Somes(os[j + 1..])
  {
    var cleared := os[j := None];
    SomesSplit(cleared, j);
    assert cleared[..j] == os[..j];
    assert cleared[j + 1..] == os[j + 1..];
  }

  /** One more position adds at most its own value at the end. */
  lemma SomesSnoc<T>(os: seq<Option<T>>, i: nat)
    requires i < |os|
    ensures Somes(os[..i + 1]) == Somes(os[..i]) + Emit(os[i])
  {
    assert os[..i + 1][..i] == os[..i];
  }

  /** Counting from the front agrees with the length of the result. */
  lemma {:induction false} SomesCount<T>(os: seq<Option<T>>)
    ensures |Somes(os)| == CountSome(os)
    decreases |os|
  {
    if os != [] {
      SomesSplit(os, 0);
      SomesCount(os[1..]);
    }
  }

  /** Any two cut points split a sequence into three consecutive parts. */
  lemma SplitAt<T>(s: seq<T>, i: nat, j: nat)
    requires i <= j <= |s|
    ensures s == s[..i] + s[i..j] + s[j..]
  {
  }
}
