/** The string operations the services use: `toLowerCase` and `includes`. */
module Text {

  predicate IsUpper(c: char)
  {
    'A' <= c <= 'Z'
  }

  /** Lower-cases one letter of the Latin alphabet and leaves every other character alone. */
  function LowerChar(c: char): (d: char)
    ensures !IsUpper(d)
    ensures IsUpper(c) ==> d as int == c as int + 32
    ensures !IsUpper(c) ==> d == c
  {
    if IsUpper(c) then (c as int + 32) as char else c
  }

  /** `String.prototype.toLowerCase`, restricted to the letters A to Z. */
  function Lower(s: string): (r: string)
    ensures |r| == |s|
    ensures forall i :: 0 <= i < |s| ==> r[i] == LowerChar(s[i])
  {
    seq(|s|, i requires 0 <= i < |s| => LowerChar(s[i]))
  }

  /** Lower-casing twice is lower-casing once. */
  lemma LowerIdempotent(s: string)
    ensures Lower(Lower(s)) == Lower(s)
  {
  }

  /** `q` occurs in `text` starting at offset `k`. */
  predicate OccursAt(text: string, q: string, k: int)
  {
    0 <= k && k + |q| <= |text| && text[k..k + |q|] == q
  }

  /** `String.prototype.includes`: `q` occurs in `text` at some offset. */
  function Includes(text: string, q: string): (r: bool)
    ensures r <==> exists k :: OccursAt(text, q, k)
    decreases |text|
  {
    if q <= text then
      assert OccursAt(text, q, 0);
      true
    else if text == [] then
      false
    else
      OccursAfterFirst(text, q);
      Includes(text[1..], q)
  }

  /** When `q` is not a prefix of `text`, it occurs in `text` iff it occurs in the tail. */
  lemma OccursAfterFirst(text: string, q: string)
    requires text != [] && !(q <= text)
    ensures (exists k :: OccursAt(text, q, k)) <==> exists k :: OccursAt(text[1..], q, k)
  {
    assert !OccursAt(text, q, 0);
    forall k | OccursAt(text, q, k) ensures OccursAt(text[1..], q, k - 1) {
      assert text[k..k + |q|] == text[1..][k - 1..k - 1 + |q|];
    }
    forall k | OccursAt(text[1..], q, k) ensures OccursAt(text, q, k + 1) {
      assert text[k + 1..k + 1 + |q|] == text[1..][k..k + |q|];
    }
  }

  /** Every string includes the empty string, so an empty search term matches everything. */
  lemma IncludesEmpty(text: string)
    ensures Includes(text, "")
  {
    assert OccursAt(text, "", 0);
  }
}
