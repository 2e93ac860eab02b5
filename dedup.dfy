/** Appending records to a result list while skipping those already in it
    (the `in_array` test before `$list[] = ...`). */
module Dedup {

  /** No value occurs twice in `s`. */
  predicate NoDuplicates<T(==,!new)>(s: seq<T>) {
    forall i, j :: 0 <= i < j < |s| ==> s[i] != s[j]
  }

  /** `acc` followed by each element of `xs`, in order, that is not already
      in the list built so far. */
  function AddAll<T(==,!new)>(acc: seq<T>, xs: seq<T>): (r: seq<T>)
    ensures forall x :: x in r <==> x in acc || x in xs
    ensures NoDuplicates(acc) ==> NoDuplicates(r)
    ensures |acc| <= |r| && r[..|acc|] == acc
    decreases |xs|
  {
    if xs == [] then acc
    else
      var prev := AddAll(acc, xs[..|xs| - 1]);
      var x := xs[|xs| - 1];
      assert xs == xs[..|xs| - 1] + [x];
      if x in prev then prev else prev + [x]
  }

  /** Adding one more value appends it unless the list already has it. */
  lemma AddAllSnoc<T(!new)>(acc: seq<T>, xs: seq<T>, x: T)
    ensures AddAll(acc, xs + [x]) == if x in AddAll(acc, xs) then AddAll(acc, xs) else AddAll(acc, xs) + [x]
  {
    assert (xs + [x])[..|xs + [x]| - 1] == xs;
  }

  /** `in_array` before `$list[] = ...`: appends `x` to a list built by
      `AddAll` unless it is already there, which extends what was added by `x`. */
  method AddNew<T(==,!new)>(ghost acc: seq<T>, ghost xs: seq<T>, list: seq<T>, x: T) returns (list': seq<T>)
    requires list == AddAll(acc, xs)
    ensures list' == AddAll(acc, xs + [x])
  {
    AddAllSnoc(acc, xs, x);
    if x !in list {
      list' := list + [x];
    } else {
      list' := list;
    }
  }

  /** Adding `a` and then `b` is adding `a + b`. */
  lemma {:induction false} AddAllConcat<T(!new)>(acc: seq<T>, a: seq<T>, b: seq<T>)
    ensures AddAll(acc, a + b) == AddAll(AddAll(acc, a), b)
    decreases |b|
  {
    if b == [] {
      assert a + b == a;
    } else {
      var b' := b[..|b| - 1];
      AddAllConcat(acc, a, b');
      assert (a + b)[..|a + b| - 1] == a + b';
      assert (a + b)[|a + b| - 1] == b[|b| - 1];
    }
  }
}
