/**
  The ordered-list primitive behind react-hook-form's `useFieldArray`, as the
  quiz editor uses it for its block list and for each question's list of
  incorrect answers: removal at an index, and the synthetic render keys
  (`field.id`) that entries carry independently of their position.
 */
module FieldArray {

  /** The list without its entry at `i`; survivors keep their relative order. */
  function RemoveAt<T>(s: seq<T>, i: nat): (r: seq<T>)
    requires i < |s|
    ensures |r| == |s| - 1
    ensures forall j :: 0 <= j < i ==> r[j] == s[j]
    ensures forall j :: i <= j < |r| ==> r[j] == s[j + 1]
  {
    s[..i] + s[i + 1..]
  }

  /** Appending an entry and then removing the last index gives back the list. */
  lemma RemoveLastAfterAppend<T>(s: seq<T>, x: T)
    ensures RemoveAt(s + [x], |s|) == s
  {
  }

  /** No two entries of `s` are equal (render keys, block ids). */
  predicate Distinct<T(==)>(s: seq<T>)
  {
    forall j, k :: 0 <= j < k < |s| ==> s[j] != s[k]
  }

  /** Removing an entry never makes two survivors equal. */
  lemma RemoveAtKeepsDistinct<T>(s: seq<T>, i: nat)
    requires i < |s| && Distinct(s)
    ensures Distinct(RemoveAt(s, i))
  {
  }

  /** Appending a value that is not yet present keeps the list distinct. */
  lemma AppendFreshKeepsDistinct<T>(s: seq<T>, x: T)
    requires Distinct(s)
    requires forall j :: 0 <= j < |s| ==> s[j] != x
    ensures Distinct(s + [x])
  {
  }

  /** `n` keys handed out by a counter that stands at `start`. */
  function FreshRange(start: nat, n: nat): (r: seq<nat>)
    ensures |r| == n && Distinct(r)
    ensures forall j :: 0 <= j < n ==> start <= r[j] < start + n
  {
    seq(n, j requires 0 <= j < n => start + j)
  }

  /** A number strictly above every entry of `xs`. */
  function UpperBound(xs: seq<nat>): (r: nat)
    ensures forall j :: 0 <= j < |xs| ==> xs[j] < r
  {
    if xs == [] then 0
    else
      var rest := UpperBound(xs[1..]);
      assert forall j :: 1 <= j < |xs| ==> xs[j] == xs[1..][j - 1];
      if xs[0] < rest then rest else xs[0] + 1
  }
}
