/** Selecting the first minimal element of a sequence of losses, the way
    Python's `min` and a running "replace only on strict improvement" scan
    both do. */
module FirstMin {
  import opened OptimizationFramework

  /** `i` is the earliest position of a minimal key. */
  ghost predicate IsFirstMin(keys: seq<Loss>, i: int) {
    && 0 <= i < |keys|
    && (forall j :: 0 <= j < i ==> keys[i].Below(keys[j]))
    && (forall j :: 0 <= j < |keys| ==> keys[i].AtMost(keys[j]))
  }

  /** Component `k` of every vector. */
  function Column(vectors: seq<seq<Loss>>, k: nat): (c: seq<Loss>)
    requires forall j :: 0 <= j < |vectors| ==> k < |vectors[j]|
  {
    seq(|vectors|, j requires 0 <= j < |vectors| => vectors[j][k])
  }

  /** Vector `i` is the first whose component `k` is minimal; every vector has a component `k`. */
  ghost predicate IsFirstMinAt(vectors: seq<seq<Loss>>, k: int, i: int) {
    && 0 <= k
    && (forall j :: 0 <= j < |vectors| ==> k < |vectors[j]|)
    && IsFirstMin(Column(vectors, k), i)
  }

  /** Python's `min` over a non-empty sequence of keys: the first key is the
      running best, and a later one replaces it only when strictly smaller. */
  function FirstMinIndex(keys: seq<Loss>): (i: nat)
    requires |keys| > 0
    ensures IsFirstMin(keys, i)
    decreases |keys|
  {
    if |keys| == 1 then 0
    else
      var m := FirstMinIndex(keys[..|keys| - 1]);
      if keys[|keys| - 1].Below(keys[m]) then |keys| - 1 else m
  }

  /** A sequence has only one first minimum. */
  lemma FirstMinUnique(keys: seq<Loss>, i: int, i': int)
    requires IsFirstMin(keys, i) && IsFirstMin(keys, i')
    ensures i == i'
  {
    assert keys[i].AtMost(keys[i']) && keys[i'].AtMost(keys[i]);
  }
}
