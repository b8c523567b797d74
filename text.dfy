/** Strings as the search stage uses them: `toLowerCase` and `includes`.
    Lowercasing is a character map `fold` passed in by the caller, so every fact
    proved here holds for whatever case mapping the runtime applies per character. */
module Text {

  /** `s.toLowerCase()`, applying `fold` to each character. */
  function Lower(fold: char -> char, s: string): (r: string)
    ensures |r| == |s|
    ensures forall i :: 0 <= i < |s| ==> r[i] == fold(s[i])
  {
    if s == [] then [] else [fold(s[0])] + Lower(fold, s[1..])
  }

  /** `text.includes(pat)`: `pat` occurs in `text` starting at its first position or later. */
  predicate Includes(text: string, pat: string)
  {
    |pat| <= |text| && (text[..|pat|] == pat || (|text| > 0 && Includes(text[1..], pat)))
  }

  /** `pat` occurs in `text` starting at position `i`. */
  ghost predicate OccursAt(text: string, pat: string, i: nat)
  {
    i + |pat| <= |text| && text[i..i + |pat|] == pat
  }

  /** `Includes` is substring containment: some position of `text` starts a copy of `pat`. */
  lemma {:induction false} IncludesIff(text: string, pat: string)
    ensures Includes(text, pat) <==> exists i: nat :: OccursAt(text, pat, i)
  {
    if |pat| <= |text| && text[..|pat|] != pat && |text| > 0 {
      IncludesIff(text[1..], pat);
      if Includes(text[1..], pat) {
        var i: nat :| OccursAt(text[1..], pat, i);
        assert text[1..][i..i + |pat|] == text[i + 1..i + 1 + |pat|];
        assert OccursAt(text, pat, i + 1);
      }
      if i: nat :| OccursAt(text, pat, i) {
        assert i != 0;
        assert text[1..][i - 1..i - 1 + |pat|] == text[i..i + |pat|];
        assert OccursAt(text[1..], pat, i - 1);
      }
    } else if |pat| <= |text| && text[..|pat|] == pat {
      assert OccursAt(text, pat, 0);
    }
  }

  /** Lowercasing distributes over concatenation. */
  lemma {:induction false} LowerAppend(fold: char -> char, a: string, b: string)
    ensures Lower(fold, a + b) == Lower(fold, a) + Lower(fold, b)
  {
    var l, r := Lower(fold, a + b), Lower(fold, a) + Lower(fold, b);
    assert |l| == |r|;
    forall i | 0 <= i < |l| ensures l[i] == r[i] {
      if i < |a| {
        assert (a + b)[i] == a[i];
      } else {
        assert (a + b)[i] == b[i - |a|];
      }
    }
  }

  /** Lowercasing twice is lowercasing once, when the character map is idempotent. */
  lemma LowerTwice(fold: char -> char, s: string)
    requires forall c :: fold(fold(c)) == fold(c)
    ensures Lower(fold, Lower(fold, s)) == Lower(fold, s)
  {
    var l := Lower(fold, s);
    var ll := Lower(fold, l);
    forall i | 0 <= i < |s| ensures ll[i] == l[i] {
      assert l[i] == fold(s[i]);
    }
  }

  /** A text that contains `a + b` contains `a`. */
  lemma IncludesPrefix(text: string, a: string, b: string)
    requires Includes(text, a + b)
    ensures Includes(text, a)
  {
    IncludesIff(text, a + b);
    var i: nat :| OccursAt(text, a + b, i);
    assert text[i..i + |a|] == (a + b)[..|a|] == a;
    assert OccursAt(text, a, i);
    IncludesIff(text, a);
  }
}
