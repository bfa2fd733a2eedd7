/**
  Positions of a list in ascending order: what "these elements, in their order,
  each once" means wherever the program filters a list or counts its elements.
 */
module Listing {
  /** Strictly increasing. */
  ghost predicate Rising(src: seq<nat>) {
    forall p, q :: 0 <= p < q < |src| ==> src[p] < src[q]
  }

  /** The positions of a set, in ascending order. */
  ghost predicate Lists(src: seq<nat>, keep: set<nat>) {
    Rising(src) && forall i :: i in src <==> i in keep
  }

  /** One position further. */
  function Extended(src: seq<nat>, n: nat, more: bool): seq<nat> {
    if more then src + [n] else src
  }

  lemma {:induction false} ListsStep(src: seq<nat>, keep: set<nat>, n: nat, more: bool)
    requires Lists(src, keep) && forall i :: i in keep ==> i < n
    ensures Lists(Extended(src, n, more), if more then keep + {n} else keep)
  {
    forall p | 0 <= p < |src| ensures src[p] < n {
      assert src[p] in src;
    }
  }

  /** A listing is as long as the set it lists. */
  lemma {:induction false} ListsSize(src: seq<nat>, keep: set<nat>)
    requires Lists(src, keep)
    ensures |src| == |keep|
  {
    if src != [] {
      var n := |src| - 1;
      assert src == src[..n] + [src[n]];
      assert src[n] in src && src[n] in keep;
      forall i ensures i in src[..n] <==> i in keep - {src[n]} {
        assert i in src <==> i in src[..n] || i == src[n];
      }
      ListsSize(src[..n], keep - {src[n]});
    } else {
      assert keep == {};
    }
  }
}
