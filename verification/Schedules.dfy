/** Schedules as sequences of blocks. */
module Schedules {

  function Concat<T>(blocks: seq<seq<T>>): seq<T> {
    if blocks == [] then [] else blocks[0] + Concat(blocks[1..])
  }

  lemma {:induction false} ConcatLength<T>(blocks: seq<seq<T>>, l: nat)
    requires forall k :: 0 <= k < |blocks| ==> |blocks[k]| == l
    ensures |Concat(blocks)| == l * |blocks|
    decreases |blocks|
  {
    if blocks != [] {
      ConcatLength(blocks[1..], l);
      assert l * |blocks| == l + l * (|blocks| - 1);
    }
  }
}
