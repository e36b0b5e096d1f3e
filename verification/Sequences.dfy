/** Putting one element into a sequence and taking one out, as the linked lists and the message vector do. */
module Sequences {
  /** s with x in front of its k-th element, or behind all of them. */
  ghost function Splice<T>(s: seq<T>, k: nat, x: T): (r: seq<T>)
    requires k <= |s|
    ensures |r| == |s| + 1 && r[k] == x
    ensures forall i | 0 <= i < k :: r[i] == s[i]
    ensures forall i | k < i < |r| :: r[i] == s[i - 1]
    ensures multiset(r) == multiset(s) + multiset{x}
  {
    assert s == s[..k] + s[k..];
    s[..k] + [x] + s[k..]
  }

  /** s without its k-th element. */
  ghost function Without<T>(s: seq<T>, k: nat): (r: seq<T>)
    requires k < |s|
    ensures |r| == |s| - 1
    ensures forall i | 0 <= i < k :: r[i] == s[i]
    ensures forall i | k <= i < |r| :: r[i] == s[i + 1]
  {
    s[..k] + s[k + 1..]
  }

  /** a is what is left of b when some elements are dropped; at says where each element of a stood. */
  ghost predicate TakenFrom<T>(a: seq<T>, b: seq<T>, at: seq<nat>) {
    && |at| == |a|
    && (forall i, j | 0 <= i < j < |at| :: at[i] < at[j])
    && (forall i | 0 <= i < |at| :: at[i] < |b| && a[i] == b[at[i]])
  }

  ghost predicate Subsequence<T>(a: seq<T>, b: seq<T>) {
    exists at: seq<nat> :: TakenFrom(a, b, at)
  }

  lemma WithoutOne<T>(s: seq<T>, k: nat)
    requires k < |s|
    ensures multiset(Without(s, k)) == multiset(s) - multiset{s[k]}
  {
    assert s == s[..k] + [s[k]] + s[k + 1..];
  }
}
