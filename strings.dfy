/** Substring search on text, as Python's `pat in text` on `str`. */
module Strings {

  /** `pat` occurs in `text` starting at position `i`. */
  ghost predicate OccursAt(text: string, pat: string, i: int) {
    0 <= i <= |text| - |pat| && text[i..i + |pat|] == pat
  }

  /** Python's `pat in text`: the empty pattern occurs in every text. */
  predicate Contains(text: string, pat: string)
    decreases |text|
  {
    (|pat| <= |text| && text[..|pat|] == pat) || (text != [] && Contains(text[1..], pat))
  }

  /** Contains is exactly "occurs at some position". */
  lemma {:induction false} ContainsIff(text: string, pat: string)
    ensures Contains(text, pat) <==> exists i :: OccursAt(text, pat, i)
  {
    if |pat| <= |text| && text[..|pat|] == pat {
      assert OccursAt(text, pat, 0);
    } else if text == [] {
      assert pat != [];
    } else {
      var tail := text[1..];
      ContainsIff(tail, pat);
      if Contains(tail, pat) {
        var i :| OccursAt(tail, pat, i);
        assert text[i + 1..i + 1 + |pat|] == tail[i..i + |pat|];
        assert OccursAt(text, pat, i + 1);
      }
      if exists i :: OccursAt(text, pat, i) {
        var i :| OccursAt(text, pat, i);
        assert i != 0;
        assert tail[i - 1..i - 1 + |pat|] == text[i..i + |pat|];
        assert OccursAt(tail, pat, i - 1);
      }
    }
  }

  /** A pattern holding a character the text lacks does not occur in it. */
  lemma {:induction false} MissingChar(text: string, pat: string, c: char)
    requires c in pat && c !in text
    ensures !Contains(text, pat)
  {
    if text != [] {
      MissingChar(text[1..], pat, c);
    }
  }
}
