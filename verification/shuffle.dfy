/** `shuffleArray` (server.js): Fisher-Yates on a copy of the input, with the random index
    of each step supplied by the caller instead of `crypto.randomInt`. */
module Shuffle {

  /** `pick(i)` stands for `crypto.randomInt(0, i + 1)` at the step that visits index `i`. */
  ghost predicate PickInRange(pick: nat -> nat) {
    forall i :: pick(i) <= i
  }

  /** `a` with positions `i` and `j` exchanged (the destructuring swap). */
  function Swap<T>(a: seq<T>, i: nat, j: nat): (r: seq<T>)
    requires i < |a| && j < |a|
    ensures |r| == |a| && r[i] == a[j] && r[j] == a[i]
    ensures forall k :: 0 <= k < |a| && k != i && k != j ==> r[k] == a[k]
    ensures multiset(r) == multiset(a)
  {
    a[i := a[j]][j := a[i]]
  }

  /** The loop of `shuffleArray` for the indices `n - 1` down to `1`. */
  function ShuffleBelow<T>(a: seq<T>, n: nat, pick: nat -> nat): (r: seq<T>)
    requires n <= |a| && PickInRange(pick)
    ensures |r| == |a| && multiset(r) == multiset(a)
    ensures forall k :: n <= k < |a| ==> r[k] == a[k]
    decreases n
  {
    if n <= 1 then a
    else ShuffleBelow(Swap(a, n - 1, pick(n - 1)), n - 1, pick)
  }

  /** `shuffleArray(array)`: a permutation of `a`; `a` itself is a value and stays as it was. */
  function ShuffleArray<T>(a: seq<T>, pick: nat -> nat): (r: seq<T>)
    requires PickInRange(pick)
    ensures |r| == |a| && multiset(r) == multiset(a)
  {
    ShuffleBelow(a, |a|, pick)
  }

  /** Steps whose pick is the identity swap leave the sequence alone. */
  lemma {:induction false} IdentityStepsKeep<T>(a: seq<T>, n: nat, pick: nat -> nat)
    requires n <= |a| && PickInRange(pick)
    requires forall i :: 0 < i < n ==> pick(i) == i
    ensures ShuffleBelow(a, n, pick) == a
  {
    if n > 1 {
      assert Swap(a, n - 1, n - 1) == a;
      IdentityStepsKeep(a, n - 1, pick);
    }
  }

  /** Every element can come out in front: the draw that swaps index `k` with index 0 and
      leaves every other step alone puts `a[k]` first. */
  lemma {:induction false} AnyElementCanLead<T>(a: seq<T>, k: nat)
    requires k < |a|
    ensures PickInRange(i => if i == k then 0 else i)
    ensures ShuffleArray(a, i => if i == k then 0 else i)[0] == a[k]
  {
    var pick: nat -> nat := i => if i == k then 0 else i;
    LeadAfter(a, |a|, k, pick);
  }

  lemma {:induction false} LeadAfter<T>(a: seq<T>, n: nat, k: nat, pick: nat -> nat)
    requires k < n <= |a| && PickInRange(pick)
    requires forall i :: 0 < i < n && i != k ==> pick(i) == i
    requires k > 0 ==> pick(k) == 0
    ensures ShuffleBelow(a, n, pick)[0] == a[k]
  {
    if n - 1 > k {
      assert pick(n - 1) == n - 1;
      ShuffleStep(a, n, pick);
      assert Swap(a, n - 1, n - 1) == a;
      LeadAfter(a, n - 1, k, pick);
    } else if k > 0 {
      ShuffleStep(a, n, pick);
      IdentityStepsKeep(Swap(a, k, 0), k, pick);
    }
  }

  /** One step of the loop: the last unvisited index is swapped with its pick. */
  lemma ShuffleStep<T>(a: seq<T>, n: nat, pick: nat -> nat)
    requires 1 < n <= |a| && PickInRange(pick)
    ensures ShuffleBelow(a, n, pick) == ShuffleBelow(Swap(a, n - 1, pick(n - 1)), n - 1, pick)
  {
  }
}
