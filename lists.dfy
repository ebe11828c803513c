/** The two negative-index forms of JavaScript's `Array.prototype.slice` that the chat code uses. */
module Lists {

  /** `s.slice(-k)` for `k > 0`: the last `min(k, |s|)` elements, in their original order. */
  function TakeLast<T>(s: seq<T>, k: nat): (r: seq<T>)
    requires k > 0
    ensures |r| == if |s| <= k then |s| else k
    ensures forall i :: 0 <= i < |r| ==> r[i] == s[|s| - |r| + i]
  {
    if |s| <= k then s else s[|s| - k..]
  }

  /** `s.slice(0, -k)` for `k > 0`: everything but the last `k` elements, or nothing. */
  function DropLast<T>(s: seq<T>, k: nat): (r: seq<T>)
    requires k > 0
    ensures |r| == if |s| <= k then 0 else |s| - k
    ensures forall i :: 0 <= i < |r| ==> r[i] == s[i]
  {
    if |s| <= k then [] else s[..|s| - k]
  }

  /** Taking the last `k` of a list and putting back the rest gives the list again. */
  lemma TakeDropLast<T>(s: seq<T>, k: nat)
    requires k > 0 && |s| >= k
    ensures DropLast(s, k) + TakeLast(s, k) == s
  {
    var d, t := DropLast(s, k), TakeLast(s, k);
    assert forall i :: 0 <= i < |s| ==> (d + t)[i] == s[i];
  }
}
