/** Sequence operations shared by several days. */
module SeqOps {

  /** `Vec::reverse`: the same elements, last first. */
  function Reverse<T>(s: seq<T>): (r: seq<T>)
    ensures |r| == |s|
    ensures forall i | 0 <= i < |s| :: r[i] == s[|s| - 1 - i]
  {
    if s == [] then [] else Reverse(s[1..]) + [s[0]]
  }

  /** Reversing twice gives the sequence back. */
  lemma ReverseReverse<T>(s: seq<T>)
    ensures Reverse(Reverse(s)) == s
  {
    assert forall i | 0 <= i < |s| :: Reverse(Reverse(s))[i] == s[i];
  }
}
