/** Case-insensitive substring matching, the meaning the search handler's
    `{ $regex: query, $options: 'i' }` filter has for a query without regular
    expression metacharacters. Case folding covers ASCII letters only. */
module TextMatch {

  function LowerChar(c: char): (r: char)
    ensures 'A' <= c <= 'Z' ==> r as int == c as int + 32
    ensures !('A' <= c <= 'Z') ==> r == c
  {
    if 'A' <= c <= 'Z' then (c as int + 32) as char else c
  }

  function Lower(s: string): (r: string)
    ensures |r| == |s|
    ensures forall i :: 0 <= i < |s| ==> r[i] == LowerChar(s[i])
  {
    if s == [] then [] else [LowerChar(s[0])] + Lower(s[1..])
  }

  /** `needle` occurs in `hay` starting at position `i`. */
  ghost predicate OccursAt(hay: string, needle: string, i: int) {
    0 <= i && i + |needle| <= |hay| && hay[i..i + |needle|] == needle
  }

  /** Whether `needle` occurs somewhere in `hay`, scanning left to right. */
  function Contains(hay: string, needle: string): (r: bool)
    ensures r <==> exists i :: OccursAt(hay, needle, i)
    decreases |hay|
  {
    if |needle| > |hay| then
      assert forall i :: !OccursAt(hay, needle, i);
      false
    else if hay[..|needle|] == needle then
      assert OccursAt(hay, needle, 0);
      true
    else
      var found := Contains(hay[1..], needle);
      assert forall i :: OccursAt(hay[1..], needle, i) <==> OccursAt(hay, needle, i + 1) by {
        forall i ensures OccursAt(hay[1..], needle, i) <==> OccursAt(hay, needle, i + 1) {
          if 0 <= i && i + |needle| <= |hay| - 1 {
            assert hay[1..][i..i + |needle|] == hay[i + 1..i + 1 + |needle|];
          }
        }
      }
      assert found ==> exists i :: OccursAt(hay, needle, i) by {
        if found {
          var i :| OccursAt(hay[1..], needle, i);
          assert OccursAt(hay, needle, i + 1);
        }
      }
      assert (exists i :: OccursAt(hay, needle, i)) ==> found by {
        if exists i :: OccursAt(hay, needle, i) {
          var i :| OccursAt(hay, needle, i);
          assert i != 0;
          assert OccursAt(hay[1..], needle, i - 1);
        }
      }
      found
  }

  /** `needle` occurs in `hay` at position `i` when letter case is ignored,
      stated character by character. */
  ghost predicate OccursAtIgnoringCase(hay: string, needle: string, i: int) {
    0 <= i && i + |needle| <= |hay|
    && forall k :: 0 <= k < |needle| ==> LowerChar(hay[i + k]) == LowerChar(needle[k])
  }

  /** Case-insensitive containment. */
  function ContainsIgnoringCase(hay: string, needle: string): (r: bool)
    ensures r <==> exists i :: OccursAtIgnoringCase(hay, needle, i)
  {
    var h, n := Lower(hay), Lower(needle);
    assert forall i :: OccursAt(h, n, i) <==> OccursAtIgnoringCase(hay, needle, i) by {
      forall i ensures OccursAt(h, n, i) <==> OccursAtIgnoringCase(hay, needle, i) {
        if 0 <= i && i + |n| <= |h| {
          if OccursAt(h, n, i) {
            forall k | 0 <= k < |needle| ensures LowerChar(hay[i + k]) == LowerChar(needle[k]) {
              assert h[i..i + |n|][k] == h[i + k];
            }
          }
          if OccursAtIgnoringCase(hay, needle, i) {
            assert h[i..i + |n|] == n;
          }
        }
      }
    }
    Contains(h, n)
  }

  /** Every string contains itself, whatever the case of either. */
  lemma ContainsItself(s: string)
    ensures ContainsIgnoringCase(s, s)
  {
    assert OccursAtIgnoringCase(s, s, 0);
  }

  /** A string that never holds the character at position `k` of the needle,
      in either case, does not contain the needle. */
  lemma {:induction false} AbsentCharacter(hay: string, needle: string, k: nat)
    requires k < |needle|
    requires forall i :: 0 <= i < |hay| ==> LowerChar(hay[i]) != LowerChar(needle[k])
    ensures !ContainsIgnoringCase(hay, needle)
  {
  }
}
