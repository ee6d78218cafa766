/** Small helpers shared by the reports. */
module Utils {
  import opened Wrappers

  /** Concatenation is associative. */
  lemma AppendAssoc<T>(a: seq<T>, b: seq<T>, c: seq<T>)
    ensures (a + b) + c == a + (b + c)
  {
  }

  /**
   * `get` of the account and account-kind collections: the element with
   * id `id`, stored at position `id - 1`, if the collection has one.
   */
  function Lookup<T>(s: seq<T>, id: int): (r: Option<T>)
    requires id >= 1
    ensures r.Some? <==> id <= |s|
    ensures r.Some? ==> r.value == s[id - 1]
  {
    if id <= |s| then Some(s[id - 1]) else None
  }

  /**
   * `is_all_same`: every element equals the next one (`windows(2).all`),
   * so a slice of fewer than two elements is all the same.
   */
  function IsAllSame<T(==)>(arr: seq<T>): (r: bool)
    ensures |arr| < 2 ==> r
  {
    if |arr| < 2 then true else arr[0] == arr[1] && IsAllSame(arr[1..])
  }

  /** True exactly when every adjacent pair is equal; one unequal pair makes it false. */
  lemma {:induction false} AllSameIffAdjacentEqual<T>(arr: seq<T>)
    ensures IsAllSame(arr) <==> forall i :: 0 <= i < |arr| - 1 ==> arr[i] == arr[i + 1]
  {
    if |arr| >= 2 {
      AllSameIffAdjacentEqual(arr[1..]);
      assert forall i :: 1 <= i < |arr| - 1 ==> arr[1..][i - 1] == arr[i] && arr[1..][i] == arr[i + 1];
    }
  }

  /** As its documentation says, the elements are all the same: each equals the first. */
  lemma {:induction false} AllSameIffAllEqualFirst<T>(arr: seq<T>)
    ensures IsAllSame(arr) <==> forall i :: 0 <= i < |arr| ==> arr[i] == arr[0]
  {
    if |arr| >= 2 {
      AllSameIffAllEqualFirst(arr[1..]);
      assert forall i :: 1 <= i < |arr| ==> arr[1..][i - 1] == arr[i];
    }
  }
}
