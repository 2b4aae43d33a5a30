/**
 Positions in a sequence, in increasing order: how a selection of elements is told from the whole.
 */
module Positions {

  ghost predicate Increasing(s: seq<nat>) { forall a, b | 0 <= a < b < |s| :: s[a] < s[b] }

  /** The same positions, with one more element in front of the sequence. */
  function Shifted(s: seq<nat>): (r: seq<nat>)
    ensures |r| == |s| && forall k | 0 <= k < |s| :: r[k] == s[k] + 1
  {
    seq(|s|, k requires 0 <= k < |s| => s[k] + 1)
  }
}
