/**
 * Text operations the library store relies on: ASCII lower-casing (Python's
 * `str.lower()` restricted to ASCII) and substring containment (Python's
 * `needle in haystack` on strings).
 */
module Text {

  predicate IsUpper(c: char) {
    'A' <= c <= 'Z'
  }

  /** Lower-cases one ASCII letter; every other character is left alone. */
  function LowerChar(c: char): (r: char)
    ensures !IsUpper(r)
    ensures !IsUpper(c) ==> r == c
    ensures IsUpper(c) ==> 'a' <= r <= 'z' && r as int - c as int == 'a' as int - 'A' as int
  {
    if IsUpper(c) then (c as int - 'A' as int + 'a' as int) as char else c
  }

  /** `s.lower()`, character by character. */
  function Lower(s: string): (r: string)
    ensures |r| == |s|
    ensures forall i :: 0 <= i < |s| ==> r[i] == LowerChar(s[i])
    ensures forall i :: 0 <= i < |r| ==> !IsUpper(r[i])
  {
    seq(|s|, i requires 0 <= i < |s| => LowerChar(s[i]))
  }

  /** Lower-casing a string that has no upper-case letters changes nothing. */
  lemma LowerOfLowerCase(s: string)
    requires forall i :: 0 <= i < |s| ==> !IsUpper(s[i])
    ensures Lower(s) == s
  {
  }

  /** Lower-casing is idempotent, so matching against `Lower(t)` is case-insensitive. */
  lemma LowerIdempotent(s: string)
    ensures Lower(Lower(s)) == Lower(s)
  {
    LowerOfLowerCase(Lower(s));
  }

  /** `needle` occurs in `hay` starting at position `i`. */
  predicate OccursAt(hay: string, needle: string, i: int) {
    0 <= i && i + |needle| <= |hay| && hay[i..i + |needle|] == needle
  }

  /** Python's `needle in hay`: a scan over the start positions of `hay`. */
  predicate Contains(hay: string, needle: string)
    ensures Contains(hay, needle) ==> |needle| <= |hay|
    ensures needle == [] ==> Contains(hay, needle)
    ensures hay == needle ==> Contains(hay, needle)
    decreases |hay|
  {
    (|needle| <= |hay| && hay[..|needle|] == needle)
    || (hay != [] && Contains(hay[1..], needle))
  }

  lemma SliceOfTail(hay: string, a: int, b: int)
    requires 0 <= a <= b < |hay|
    ensures hay[1..][a..b] == hay[a + 1..b + 1]
  {
  }

  /** The scan finds `needle` exactly when it occurs at some position. */
  lemma {:induction false} ContainsIffOccurs(hay: string, needle: string)
    ensures Contains(hay, needle) <==> exists i :: OccursAt(hay, needle, i)
    decreases |hay|
  {
    if Contains(hay, needle) {
      if |needle| <= |hay| && hay[..|needle|] == needle {
        assert OccursAt(hay, needle, 0);
      } else {
        ContainsIffOccurs(hay[1..], needle);
        var j :| OccursAt(hay[1..], needle, j);
        SliceOfTail(hay, j, j + |needle|);
        assert OccursAt(hay, needle, j + 1);
      }
    }
    if exists i :: OccursAt(hay, needle, i) {
      var i :| OccursAt(hay, needle, i);
      if i > 0 {
        SliceOfTail(hay, i - 1, i - 1 + |needle|);
        assert OccursAt(hay[1..], needle, i - 1);
        ContainsIffOccurs(hay[1..], needle);
      }
    }
  }

  /** The empty string occurs in every string. */
  lemma ContainsEmpty(hay: string)
    ensures Contains(hay, "")
  {
  }

  /** A string contains itself and every one of its slices. */
  lemma {:induction false} ContainsSlice(hay: string, i: nat, j: nat)
    requires i <= j <= |hay|
    ensures Contains(hay, hay[i..j])
  {
    assert OccursAt(hay, hay[i..j], i);
    ContainsIffOccurs(hay, hay[i..j]);
  }
}
