/** Text primitives the phishing scorer is built on: the substring test
    behind `String.contains` and an ASCII model of `String.toLowerCase`. */
module Text {

  /** `k` occurs in `text` starting at position `i`. */
  predicate OccursAt(text: string, k: string, i: int)
  {
    0 <= i && i + |k| <= |text| && text[i..i + |k|] == k
  }

  /** `text` begins with `k`. */
  predicate StartsWith(text: string, k: string)
  {
    |k| <= |text| && text[..|k|] == k
  }

  /** Substring test that tries the start positions from left to right,
      as `String.contains` does; the empty string is contained in every text. */
  predicate Contains(text: string, k: string)
    decreases |text|
  {
    StartsWith(text, k) || (|text| > 0 && Contains(text[1..], k))
  }

  /** The left-to-right search answers exactly "there is a position where `k` occurs". */
  lemma {:induction false} ContainsIffOccurs(text: string, k: string)
    ensures Contains(text, k) <==> exists i :: OccursAt(text, k, i)
    decreases |text|
  {
    if StartsWith(text, k) {
      assert OccursAt(text, k, 0);
    }
    if |text| > 0 {
      ContainsIffOccurs(text[1..], k);
      if Contains(text[1..], k) {
        var j :| OccursAt(text[1..], k, j);
        assert text[1..][j..j + |k|] == text[j + 1..j + 1 + |k|];
        assert OccursAt(text, k, j + 1);
      }
    }
    if exists i :: OccursAt(text, k, i) {
      var i :| OccursAt(text, k, i);
      if i > 0 {
        assert text[1..][i - 1..i - 1 + |k|] == text[i..i + |k|];
        assert OccursAt(text[1..], k, i - 1);
      } else {
        assert StartsWith(text, k);
      }
    }
  }

  /** A character is an ASCII capital letter. */
  predicate IsUpper(ch: char)
  {
    'A' <= ch <= 'Z'
  }

  /** ASCII lowercase of one character; every other character is left alone. */
  function LowerChar(ch: char): (r: char)
    ensures !IsUpper(r)
    ensures IsUpper(ch) ==> r as int == ch as int + 32
    ensures !IsUpper(ch) ==> r == ch
  {
    if IsUpper(ch) then (ch as int + 32) as char else ch
  }

  /** ASCII model of `String.toLowerCase`: character by character, length kept. */
  function Lower(s: string): (r: string)
    ensures |r| == |s|
    ensures forall i :: 0 <= i < |s| ==> r[i] == LowerChar(s[i])
  {
    seq(|s|, i requires 0 <= i < |s| => LowerChar(s[i]))
  }

  /** A string with no ASCII capital letter in it. */
  predicate IsLowercase(s: string)
  {
    forall i :: 0 <= i < |s| ==> !IsUpper(s[i])
  }

  /** Lowercasing yields a lowercase string and leaves lowercase strings alone. */
  lemma LowerFixesLowercase(s: string)
    ensures IsLowercase(Lower(s))
    ensures Lower(s) == s <==> IsLowercase(s)
  {
    if IsLowercase(s) {
      assert forall i :: 0 <= i < |s| ==> Lower(s)[i] == s[i];
    }
  }

  /** Lowercasing commutes with taking a slice. */
  lemma LowerSlice(s: string, i: int, j: int)
    requires 0 <= i <= j <= |s|
    ensures Lower(s)[i..j] == Lower(s[i..j])
  {
  }

  /** `k` occurs in `text` at `i` when the case of letters is ignored. */
  predicate OccursIgnoringCase(text: string, k: string, i: int)
  {
    0 <= i && i + |k| <= |text| && Lower(text[i..i + |k|]) == Lower(k)
  }

  /** Searching the lowercased text for a lowercase `k` finds `k` in any
      mixture of upper and lower case. */
  lemma ContainsLowerIff(text: string, k: string)
    requires IsLowercase(k)
    ensures Contains(Lower(text), k) <==> exists i :: OccursIgnoringCase(text, k, i)
  {
    LowerFixesLowercase(k);
    ContainsIffOccurs(Lower(text), k);
    if exists i :: OccursAt(Lower(text), k, i) {
      var i :| OccursAt(Lower(text), k, i);
      LowerSlice(text, i, i + |k|);
      assert OccursIgnoringCase(text, k, i);
    }
    if exists i :: OccursIgnoringCase(text, k, i) {
      var i :| OccursIgnoringCase(text, k, i);
      LowerSlice(text, i, i + |k|);
      assert OccursAt(Lower(text), k, i);
    }
  }
}
