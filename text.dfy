/**
 * The string builtins the app relies on, over ASCII: `trim`, `toLowerCase`,
 * the punctuation filter `replace(/[.,!?]/g, '')` and `includes`.
 */
module Text {

  /**
   * The white space `trim` removes, as far as this model goes: the ASCII
   * characters, the no-break space and the byte-order mark. `trim` also
   * removes the other Unicode space separators and the line and paragraph
   * separators, which are left out here.
   */
  predicate IsSpace(c: char) {
    c == ' ' || c == '\t' || c == '\n' || c == '\r' || c == '\U{000B}' || c == '\U{000C}'
    || c == '\U{00A0}' || c == '\U{FEFF}'
  }

  predicate IsUpper(c: char) {
    'A' <= c <= 'Z'
  }

  /** The four marks the scorer deletes. */
  predicate IsPunctuation(c: char) {
    c == '.' || c == ',' || c == '!' || c == '?'
  }

  /** `toLowerCase` on one character, restricted to ASCII letters. */
  function LowerChar(c: char): (r: char)
    ensures !IsUpper(r)
    ensures !IsUpper(c) ==> r == c
    ensures IsUpper(c) ==> 'a' <= r <= 'z' && r as int - c as int == 32
    ensures IsSpace(r) <==> IsSpace(c)
    ensures IsPunctuation(r) <==> IsPunctuation(c)
  {
    if IsUpper(c) then (c as int + 32) as char else c
  }

  /**
   * `toLowerCase`: each capital becomes its small letter, every other
   * character is kept in place, so no capital survives.
   */
  function Lower(s: string): (r: string)
    ensures |r| == |s|
    ensures forall i :: 0 <= i < |r| ==> !IsUpper(r[i])
    ensures forall i :: 0 <= i < |s| && IsUpper(s[i]) ==> r[i] as int == s[i] as int + 32
    ensures forall i :: 0 <= i < |s| && !IsUpper(s[i]) ==> r[i] == s[i]
  {
    seq(|s|, i requires 0 <= i < |s| => LowerChar(s[i]))
  }

  lemma LowerNoUpper(s: string)
    requires forall i :: 0 <= i < |s| ==> !IsUpper(s[i])
    ensures Lower(s) == s
  {
  }

  lemma LowerIdempotent(s: string)
    ensures Lower(Lower(s)) == Lower(s)
  {
  }

  /** The index of the first non-space at or after `i`, or `|s|` when there is none. */
  function SkipSpace(s: string, i: nat): (k: nat)
    requires i <= |s|
    ensures i <= k <= |s|
    ensures forall m :: i <= m < k ==> IsSpace(s[m])
    ensures k == |s| || !IsSpace(s[k])
    decreases |s| - i
  {
    if i < |s| && IsSpace(s[i]) then SkipSpace(s, i + 1) else i
  }

  /** The index just past the last non-space before `j`, or `lo` when `s[lo..j]` is all space. */
  function SkipSpaceBack(s: string, lo: nat, j: nat): (k: nat)
    requires lo <= j <= |s|
    ensures lo <= k <= j
    ensures forall m :: k <= m < j ==> IsSpace(s[m])
    ensures k == lo || !IsSpace(s[k - 1])
    decreases j
  {
    if lo < j && IsSpace(s[j - 1]) then SkipSpaceBack(s, lo, j - 1) else j
  }

  /** `r` is the slice `s[lo..lo + |r|]`, everything around it is space and it neither starts nor ends with space. */
  ghost predicate TrimmedAt(s: string, r: string, lo: int) {
    && 0 <= lo && lo + |r| <= |s|
    && s[lo..lo + |r|] == r
    && (forall i :: 0 <= i < lo ==> IsSpace(s[i]))
    && (forall i :: lo + |r| <= i < |s| ==> IsSpace(s[i]))
    && (r == [] || (!IsSpace(r[0]) && !IsSpace(r[|r| - 1])))
  }

  /** `trim`: the part of `s` between its leading and its trailing white space. */
  function Trim(s: string): (r: string)
    ensures exists lo :: TrimmedAt(s, r, lo)
  {
    var lo := SkipSpace(s, 0);
    var hi := SkipSpaceBack(s, lo, |s|);
    assert TrimmedAt(s, s[lo..hi], lo);
    s[lo..hi]
  }

  lemma TrimNoSpaceEnds(s: string)
    requires s == [] || (!IsSpace(s[0]) && !IsSpace(s[|s| - 1]))
    ensures Trim(s) == s
  {
  }

  /** Two trimmed slices of the same text are the same slice. */
  lemma TrimmedAtUnique(s: string, r: string, lo: int, q: string, t: int)
    requires TrimmedAt(s, r, lo) && TrimmedAt(s, q, t)
    ensures r == q
  {
    if r != [] && q != [] {
      assert s[lo] == r[0] && s[t] == q[0];
      assert lo == t;
      assert s[lo + |r| - 1] == r[|r| - 1] && s[t + |q| - 1] == q[|q| - 1];
      assert |r| == |q|;
    }
  }

  /** A string has only one trimmed core: whatever satisfies `TrimmedAt` is `Trim`'s result. */
  lemma TrimUnique(s: string, r: string, lo: int)
    requires TrimmedAt(s, r, lo)
    ensures r == Trim(s)
  {
    var q := Trim(s);
    var t :| TrimmedAt(s, q, t);
    TrimmedAtUnique(s, r, lo, q, t);
  }

  lemma {:induction false} SkipSpaceLower(s: string, i: nat)
    requires i <= |s|
    ensures SkipSpace(Lower(s), i) == SkipSpace(s, i)
    decreases |s| - i
  {
    if i < |s| {
      assert Lower(s)[i] == LowerChar(s[i]);
      if IsSpace(s[i]) {
        SkipSpaceLower(s, i + 1);
      }
    }
  }

  lemma {:induction false} SkipSpaceBackLower(s: string, lo: nat, j: nat)
    requires lo <= j <= |s|
    ensures SkipSpaceBack(Lower(s), lo, j) == SkipSpaceBack(s, lo, j)
  {
    if lo < j {
      assert Lower(s)[j - 1] == LowerChar(s[j - 1]);
      if IsSpace(s[j - 1]) {
        SkipSpaceBackLower(s, lo, j - 1);
      }
    }
  }

  /** Lower-casing and trimming commute, because lower-casing neither creates nor removes white space. */
  lemma TrimLowerCommute(s: string)
    ensures Trim(Lower(s)) == Lower(Trim(s))
  {
    var lo := SkipSpace(s, 0);
    var hi := SkipSpaceBack(s, lo, |s|);
    SkipSpaceLower(s, 0);
    SkipSpaceBackLower(s, lo, |s|);
    LowerSlice(s, lo, hi);
  }

  /** Lower-casing a slice is slicing the lower-cased text. */
  lemma LowerSlice(s: string, lo: int, hi: int)
    requires 0 <= lo <= hi <= |s|
    ensures Lower(s)[lo..hi] == Lower(s[lo..hi])
  {
  }

  /** `replace(/[.,!?]/g, '')`: deletes every punctuation mark and keeps the rest in order. */
  function RemovePunctuation(s: string): (r: string)
    ensures |r| <= |s|
    ensures forall i :: 0 <= i < |r| ==> !IsPunctuation(r[i]) && r[i] in s
    ensures (forall i :: 0 <= i < |s| ==> !IsPunctuation(s[i])) ==> r == s
  {
    if s == [] then []
    else if IsPunctuation(s[0]) then RemovePunctuation(s[1..])
    else [s[0]] + RemovePunctuation(s[1..])
  }

  lemma RemovePunctuationMark(c: char)
    requires IsPunctuation(c)
    ensures RemovePunctuation([c]) == []
  {
    assert [c][1..] == [];
  }

  /** Deleting marks from a concatenation deletes them from each part. */
  lemma {:induction false} RemovePunctuationAppend(a: string, b: string)
    ensures RemovePunctuation(a + b) == RemovePunctuation(a) + RemovePunctuation(b)
  {
    if a != [] {
      assert (a + b)[0] == a[0];
      assert (a + b)[1..] == a[1..] + b;
      RemovePunctuationAppend(a[1..], b);
      if !IsPunctuation(a[0]) {
        assert [a[0]] + RemovePunctuation(a[1..]) + RemovePunctuation(b)
            == [a[0]] + (RemovePunctuation(a[1..]) + RemovePunctuation(b));
      }
    } else {
      assert a + b == b;
    }
  }

  /** `p` occurs in `s` starting at index `i`. */
  ghost predicate OccursAt(s: string, p: string, i: int) {
    0 <= i && i + |p| <= |s| && s[i..i + |p|] == p
  }

  ghost predicate Occurs(s: string, p: string) {
    exists i :: OccursAt(s, p, i)
  }

  /**
   * `s.includes(p)`: tries every starting position from the left. The empty
   * pattern is always found, and a pattern longer than the text never is.
   */
  function Includes(s: string, p: string): (r: bool)
    ensures p == [] ==> r
    ensures r ==> |p| <= |s|
    decreases |s|
  {
    if |p| > |s| then false
    else s[..|p|] == p || (s != [] && Includes(s[1..], p))
  }

  /** `Includes` answers exactly whether `p` is a contiguous piece of `s`. */
  lemma {:induction false} IncludesIffOccurs(s: string, p: string)
    ensures Includes(s, p) <==> Occurs(s, p)
    decreases |s|
  {
    if |p| > |s| {
    } else if s[..|p|] == p {
      assert OccursAt(s, p, 0);
    } else {
      IncludesIffOccurs(s[1..], p);
      if Includes(s[1..], p) {
        var i :| OccursAt(s[1..], p, i);
        TailSlice(s, i, |p|);
        assert OccursAt(s, p, i + 1);
      }
      if Occurs(s, p) {
        var i :| OccursAt(s, p, i);
        assert i != 0;
        TailSlice(s, i - 1, |p|);
        assert OccursAt(s[1..], p, i - 1);
      }
    }
  }

  /** A slice of the tail is the same slice of the text, one position further on. */
  lemma TailSlice(s: string, i: int, k: int)
    requires s != [] && 0 <= i && 0 <= k && i + k <= |s| - 1
    ensures s[1..][i..i + k] == s[i + 1..i + 1 + k]
  {
  }

  /** The empty string occurs everywhere, so `includes('')` is always true. */
  lemma EmptyOccurs(s: string)
    ensures Occurs(s, [])
  {
    assert OccursAt(s, [], 0);
  }
}
