/** Sequence reversal: popping values off a stack yields them in reverse, and arguments are emitted last first. */
module Seqs {
  function Reverse<T>(s: seq<T>): (r: seq<T>)
    ensures |r| == |s| && forall i :: 0 <= i < |s| ==> r[i] == s[|s| - 1 - i]
  {
    if s == [] then [] else Reverse(s[1..]) + [s[0]]
  }

  /** The reverse of a suffix is the reverse of the next shorter suffix followed by the suffix's first element. */
  lemma ReverseSuffix<T>(s: seq<T>, k: nat)
    requires k < |s|
    ensures Reverse(s[k..]) == Reverse(s[k + 1..]) + [s[k]]
  {
    assert s[k..][1..] == s[k + 1..] && s[k..][0] == s[k];
  }

  lemma ReverseAppend<T>(a: seq<T>, b: seq<T>)
    ensures Reverse(a + b) == Reverse(b) + Reverse(a)
  {
  }
}
