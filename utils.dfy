/** The two helpers of js/utils.js that the record views share. */
module Utils {
  import opened Wrappers
  import opened Text

  /** `safeText(v)`: the trimmed text of `v`, or "-" when `v` is null, undefined or blank.
      `None` stands for null and undefined. */
  function SafeText(v: Option<string>): (r: string)
    ensures r != []
    ensures Trimmed(r)
    ensures (v.None? || AllSpace(v.value)) ==> r == "-"
    ensures v.Some? && !AllSpace(v.value) ==> r == Trim(v.value)
  {
    var s := Trim(v.GetOr(""));
    if s != [] then s else "-"
  }

  /** Feeding the output of `safeText` back into it changes nothing. */
  lemma SafeTextIdempotent(v: Option<string>)
    ensures SafeText(Some(SafeText(v))) == SafeText(v)
  {
    TrimTrimmed(SafeText(v));
  }

  /** `clamp(n, a, b) = Math.max(a, Math.min(b, n))`. */
  function Clamp(n: int, a: int, b: int): (r: int)
    ensures a <= b ==> a <= r <= b
    ensures a <= n <= b ==> r == n
    ensures n < a ==> r == a
    ensures a <= b < n ==> r == b
    ensures b < a ==> r == a
  {
    var m := if b < n then b else n;
    if a < m then m else a
  }
}
