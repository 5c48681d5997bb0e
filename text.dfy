/**
 * Text handling of the classifier: ASCII lower-casing (`toLowerCase`) and the
 * search that `RegExp.prototype.test` performs for one literal alternative of a
 * case-insensitive pattern, where `.` stands for any character except a line
 * terminator.
 */
module Text {

  predicate IsUpper(c: char) {
    'A' <= c <= 'Z'
  }

  /** The characters JavaScript's `.` does not match: LF, CR, U+2028 and U+2029. */
  predicate IsLineTerminator(c: char) {
    c == '\n' || c == '\r' || c == '\U{2028}' || c == '\U{2029}'
  }

  /** Lower-casing of one character, for the ASCII letters only. */
  function LowerChar(c: char): (r: char)
    ensures !IsUpper(r)
    ensures IsUpper(c) ==> r as int - c as int == 'a' as int - 'A' as int
    ensures !IsUpper(c) ==> r == c
  {
    if IsUpper(c) then (c as int + ('a' as int - 'A' as int)) as char else c
  }

  /** `toLowerCase` restricted to ASCII: same length, no upper-case letter left,
      and each character keeps its case-folded identity. */
  function Lower(s: string): (r: string)
    ensures |r| == |s|
    ensures forall i :: 0 <= i < |r| ==> !IsUpper(r[i])
    ensures forall i :: 0 <= i < |r| ==> LowerChar(r[i]) == LowerChar(s[i])
    ensures r == [] <==> s == []
  {
    seq(|s|, i requires 0 <= i < |s| => LowerChar(s[i]))
  }

  /** Lower-casing twice is lower-casing once. */
  lemma LowerIdempotent(s: string)
    ensures Lower(Lower(s)) == Lower(s)
  {
  }

  /** One pattern character against one text character under the `i` flag:
      `.` matches anything but a line terminator; any other character matches
      itself up to ASCII case. */
  predicate CharMatches(p: char, c: char) {
    if p == '.' then !IsLineTerminator(c) else LowerChar(c) == LowerChar(p)
  }

  /** Whether `pattern[k..]` matches `text` from offset `i + k` on. */
  function MatchesFrom(pattern: string, text: string, i: nat, k: nat): (r: bool)
    requires k <= |pattern|
    ensures r <==> i + |pattern| <= |text| &&
                   forall j :: k <= j < |pattern| ==> CharMatches(pattern[j], text[i + j])
    decreases |pattern| - k
  {
    if k == |pattern| then i + k <= |text|
    else i + k < |text| && CharMatches(pattern[k], text[i + k]) && MatchesFrom(pattern, text, i, k + 1)
  }

  /** The whole of `pattern` matches `text` at offset `i`. */
  predicate MatchesAt(pattern: string, text: string, i: nat) {
    MatchesFrom(pattern, text, i, 0)
  }

  /** Whether `pattern` matches `text` at some offset `j >= i`. */
  function OccursFrom(pattern: string, text: string, i: nat): (r: bool)
    ensures r <==> exists j: nat :: i <= j && MatchesAt(pattern, text, j)
    decreases |text| - i
  {
    if i + |pattern| > |text| then false
    else MatchesAt(pattern, text, i) || OccursFrom(pattern, text, i + 1)
  }

  /** `RegExp.prototype.test` for one alternative: the pattern occurs somewhere in the text. */
  function Occurs(pattern: string, text: string): (r: bool)
    ensures r <==> exists j: nat :: MatchesAt(pattern, text, j)
  {
    OccursFrom(pattern, text, 0)
  }

  /** A pattern occurs in a text that contains it literally, wherever it sits. */
  lemma OccursInContext(pattern: string, before: string, after: string)
    requires forall k :: 0 <= k < |pattern| ==> pattern[k] != '.'
    ensures Occurs(pattern, before + pattern + after)
  {
    assert MatchesAt(pattern, before + pattern + after, |before|);
  }

  /** Matching ignores ASCII case in the text: a text and its lower-cased form
      match the same patterns at the same offsets. */
  lemma {:induction false} MatchesAtCaseInsensitive(pattern: string, text: string, i: nat)
    ensures MatchesAt(pattern, Lower(text), i) == MatchesAt(pattern, text, i)
  {
    var low := Lower(text);
    forall j | 0 <= j < |pattern| && i + j < |text|
      ensures CharMatches(pattern[j], low[i + j]) == CharMatches(pattern[j], text[i + j])
    {
      var c := text[i + j];
      assert LowerChar(low[i + j]) == LowerChar(c);
      assert IsLineTerminator(low[i + j]) == IsLineTerminator(c);
    }
  }

  /** Hence a pattern occurs in a text exactly when it occurs in its lower-cased form. */
  lemma OccursCaseInsensitive(pattern: string, text: string)
    ensures Occurs(pattern, Lower(text)) == Occurs(pattern, text)
  {
    forall j: nat ensures MatchesAt(pattern, Lower(text), j) == MatchesAt(pattern, text, j) {
      MatchesAtCaseInsensitive(pattern, text, j);
    }
  }

  /** Whether no character of `text` from offset `i` on is `c`, up to case. */
  function Lacks(text: string, c: char, i: nat): (r: bool)
    ensures r <==> forall j :: i <= j < |text| ==> LowerChar(text[j]) != LowerChar(c)
    decreases |text| - i
  {
    if i >= |text| then true
    else LowerChar(text[i]) != LowerChar(c) && Lacks(text, c, i + 1)
  }

  /** A pattern that needs a character the text lacks, in either case, never occurs in it. */
  lemma MissingCharNeverOccurs(pattern: string, text: string, k: nat)
    requires k < |pattern| && pattern[k] != '.'
    requires Lacks(text, pattern[k], 0)
    ensures !Occurs(pattern, text)
  {
    forall i: nat ensures !MatchesAt(pattern, text, i) {
      if i + |pattern| <= |text| {
        assert !CharMatches(pattern[k], text[i + k]);
      }
    }
  }
}
