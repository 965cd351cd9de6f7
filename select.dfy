/**
 * Kotlin's `minBy` / `minByOrNull`: the FIRST element whose key is smallest.
 * The library scans left to right and replaces the running best only on a
 * strictly smaller key, so ties go to the earliest element.
 */
module Selection {
  import opened Wrappers

  /** Index chosen by `minBy { key(it) }` on a non-empty list. */
  function MinIndexBy<T>(s: seq<T>, key: T -> real): (i: nat)
    requires |s| > 0
    ensures i < |s|
    ensures forall j :: 0 <= j < |s| ==> key(s[i]) <= key(s[j])
    ensures forall j :: 0 <= j < i ==> key(s[i]) < key(s[j])
  {
    if |s| == 1 then 0
    else
      var k := MinIndexBy(s[..|s| - 1], key);
      if key(s[|s| - 1]) < key(s[k]) then |s| - 1 else k
  }

  /** `minByOrNull { key(it) }`: `None` exactly for the empty list. */
  function MinIndexByOrNone<T>(s: seq<T>, key: T -> real): (r: Option<nat>)
    ensures r == None <==> |s| == 0
    ensures r.Some? ==> r.value < |s|
    ensures r.Some? ==> forall j :: 0 <= j < |s| ==> key(s[r.value]) <= key(s[j])
    ensures r.Some? ==> forall j :: 0 <= j < r.value ==> key(s[r.value]) < key(s[j])
  {
    if |s| == 0 then None else Some(MinIndexBy(s, key))
  }
}
