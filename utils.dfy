/** The generic slice helpers `Filter` and `Find`. */
module Utils {
  import opened Wrappers

  /** `idx` is a strictly increasing list of positions of `s`. */
  ghost predicate Increasing(idx: seq<nat>, n: nat)
  {
    && (forall j | 0 <= j < |idx| :: idx[j] < n)
    && (forall j, k | 0 <= j < k < |idx| :: idx[j] < idx[k])
  }

  /**
   * The items that satisfy `pred`, in their original order. The ghost `idx`
   * gives the position in `items` of each kept element: the kept positions
   * are exactly those whose item satisfies `pred`.
   */
  method Filter<T>(items: seq<T>, pred: T -> bool) returns (res: seq<T>, ghost idx: seq<nat>)
    ensures |res| == |idx| <= |items|
    ensures Increasing(idx, |items|)
    ensures forall j | 0 <= j < |res| :: res[j] == items[idx[j]] && pred(res[j])
    ensures forall i | 0 <= i < |items| :: pred(items[i]) <==> i in idx
  {
    res, idx := [], [];
    for i := 0 to |items|
      invariant |res| == |idx| <= i
      invariant Increasing(idx, i)
      invariant forall j | 0 <= j < |res| :: res[j] == items[idx[j]] && pred(res[j])
      invariant forall k | 0 <= k < i :: pred(items[k]) <==> k in idx
    {
      if pred(items[i]) {
        res, idx := res + [items[i]], idx + [i];
      }
    }
  }

  /** The first item that satisfies `pred`, or None when no item does. */
  method Find<T>(items: seq<T>, pred: T -> bool) returns (r: Option<T>)
    ensures r.None? <==> forall i | 0 <= i < |items| :: !pred(items[i])
    ensures r.Some? ==> exists i | 0 <= i < |items| ::
      items[i] == r.value && pred(items[i]) && forall j | 0 <= j < i :: !pred(items[j])
  {
    for i := 0 to |items|
      invariant forall j | 0 <= j < i :: !pred(items[j])
    {
      if pred(items[i]) {
        return Some(items[i]);
      }
    }
    return None;
  }
}
