/** Matching a label against a query as whole words. */
module PhraseMatch {

  predicate OccursAt(needle: string, haystack: string, k: int) {
    0 <= k && k + |needle| <= |haystack| && haystack[k..k + |needle|] == needle
  }

  /** An occurrence whose ends do not cut through a word. */
  predicate BoundedAt(isAlnum: char -> bool, needle: string, haystack: string, k: int)
    requires needle != []
  {
    && OccursAt(needle, haystack, k)
    && (!isAlnum(needle[0]) || k == 0 || !isAlnum(haystack[k - 1]))
    && (!isAlnum(needle[|needle| - 1]) || k + |needle| == |haystack| || !isAlnum(haystack[k + |needle|]))
  }

  predicate OccursBounded(isAlnum: char -> bool, needle: string, haystack: string)
    requires needle != []
  {
    exists k | 0 <= k <= |haystack| :: BoundedAt(isAlnum, needle, haystack, k)
  }

  /** The phrases are equal, or one occurs in the other as whole words. */
  predicate Matches(isAlnum: char -> bool, left: string, right: string)
    requires left != [] && right != []
  {
    left == right || OccursBounded(isAlnum, left, right) || OccursBounded(isAlnum, right, left)
  }

  /** `str.find`: the first occurrence at or after `from`, or -1. */
  method Find(haystack: string, needle: string, from: nat) returns (at: int)
    ensures at == -1 ==> forall k | from <= k :: !OccursAt(needle, haystack, k)
    ensures at != -1 ==> from <= at && OccursAt(needle, haystack, at)
    ensures at != -1 ==> forall k | from <= k < at :: !OccursAt(needle, haystack, k)
  {
    at := from;
    while at + |needle| <= |haystack|
      invariant from <= at
      invariant forall k | from <= k < at :: !OccursAt(needle, haystack, k)
      decreases |haystack| - at
    {
      if haystack[at..at + |needle|] == needle {
        return;
      }
      at := at + 1;
    }
    at := -1;
  }

  /** Trying every occurrence in turn, also those that overlap an earlier one. */
  method SearchBounded(isAlnum: char -> bool, needle: string, haystack: string) returns (found: bool)
    requires needle != []
    ensures found <==> OccursBounded(isAlnum, needle, haystack)
  {
    var start := Find(haystack, needle, 0);
    while start >= 0
      invariant start >= 0 ==> OccursAt(needle, haystack, start)
      invariant forall k | 0 <= k && (start < 0 || k < start) :: !BoundedAt(isAlnum, needle, haystack, k)
      decreases if start < 0 then -1 else |haystack| - start
    {
      var end := start + |needle|;
      var leftBoundary := !isAlnum(needle[0]) || start == 0 || !isAlnum(haystack[start - 1]);
      var rightBoundary := !isAlnum(needle[|needle| - 1]) || end == |haystack| || !isAlnum(haystack[end]);
      if leftBoundary && rightBoundary {
        assert BoundedAt(isAlnum, needle, haystack, start);
        return true;
      }
      start := Find(haystack, needle, start + 1);
    }
    return false;
  }

  /** `_bounded_phrase_match`. */
  method BoundedPhraseMatch(isAlnum: char -> bool, left: string, right: string) returns (found: bool)
    requires left != [] && right != []
    ensures found <==> Matches(isAlnum, left, right)
  {
    if left == right {
      return true;
    }
    found := SearchBounded(isAlnum, left, right);
    if !found {
      found := SearchBounded(isAlnum, right, left);
    }
  }

  /** The order of the two phrases is irrelevant, and the test for equality adds nothing to the search. */
  lemma MatchIsSymmetric(isAlnum: char -> bool, left: string, right: string)
    requires left != [] && right != []
    ensures Matches(isAlnum, left, right) == Matches(isAlnum, right, left)
    ensures Matches(isAlnum, left, right) <==>
              if |left| <= |right| then OccursBounded(isAlnum, left, right) else OccursBounded(isAlnum, right, left)
  {
    if left == right {
      assert BoundedAt(isAlnum, left, right, 0);
    }
    if |left| <= |right| && OccursBounded(isAlnum, right, left) {
      var k :| 0 <= k <= |left| && BoundedAt(isAlnum, right, left, k);
      assert left[0..|right|] == left;
      assert BoundedAt(isAlnum, left, right, 0);
    }
    if |right| <= |left| && OccursBounded(isAlnum, left, right) {
      var k :| 0 <= k <= |right| && BoundedAt(isAlnum, left, right, k);
      assert right[0..|left|] == right;
      assert BoundedAt(isAlnum, right, left, 0);
    }
  }

  /** The position lies inside a word. */
  predicate InsideWord(isAlnum: char -> bool, text: string, i: int) {
    0 < i < |text| && isAlnum(text[i - 1]) && isAlnum(text[i])
  }

  lemma BoundedCutsNoWord(isAlnum: char -> bool, needle: string, haystack: string, k: int)
    requires needle != []
    ensures BoundedAt(isAlnum, needle, haystack, k) <==>
              && OccursAt(needle, haystack, k)
              && !InsideWord(isAlnum, haystack, k) && !InsideWord(isAlnum, haystack, k + |needle|)
  {
    if OccursAt(needle, haystack, k) {
      var found := haystack[k..k + |needle|];
      assert found[0] == haystack[k] && found[|needle| - 1] == haystack[k + |needle| - 1];
    }
  }

  /** A match is an occurrence of the shorter phrase in the longer that cuts through a word at neither end. */
  lemma MatchCutsNoWord(isAlnum: char -> bool, left: string, right: string)
    requires left != [] && |left| <= |right|
    ensures Matches(isAlnum, left, right) <==>
              exists k ::
                OccursAt(left, right, k) && !InsideWord(isAlnum, right, k) && !InsideWord(isAlnum, right, k + |left|)
  {
    MatchIsSymmetric(isAlnum, left, right);
    if k :| 0 <= k <= |right| && BoundedAt(isAlnum, left, right, k) {
      BoundedCutsNoWord(isAlnum, left, right, k);
    }
    if k :| OccursAt(left, right, k) && !InsideWord(isAlnum, right, k) && !InsideWord(isAlnum, right, k + |left|) {
      BoundedCutsNoWord(isAlnum, left, right, k);
    }
  }
}
