/** The Python string operations the core uses: str.endswith, str.replace,
    str.split (first and last piece), and upper/lower case of ASCII letters. */
module PyStr {

  /** The text p occurs in s starting at index i. */
  predicate OccursAt(s: string, i: nat, p: string) {
    i + |p| <= |s| && s[i..i + |p|] == p
  }

  predicate StartsWith(s: string, p: string) {
    OccursAt(s, 0, p)
  }

  /** s.endswith(p) */
  predicate EndsWith(s: string, p: string) {
    |p| <= |s| && s[|s| - |p|..] == p
  }

  /** s.replace(pattern, replacement).  An empty pattern matches before every
      character and at the end; otherwise the occurrences are found left to
      right and do not overlap. */
  function Replace(s: string, pattern: string, replacement: string): string {
    if pattern == [] then Interleave(s, replacement) else ReplaceAll(s, pattern, replacement)
  }

  /** replacement, s[0], replacement, s[1], ..., replacement */
  function Interleave(s: string, replacement: string): string {
    if s == [] then replacement else replacement + [s[0]] + Interleave(s[1..], replacement)
  }

  function ReplaceAll(s: string, pattern: string, replacement: string): string
    requires pattern != []
    decreases |s|
  {
    if s == [] then []
    else if StartsWith(s, pattern) then replacement + ReplaceAll(s[|pattern|..], pattern, replacement)
    else [s[0]] + ReplaceAll(s[1..], pattern, replacement)
  }

  /** A text in which the pattern never occurs comes back unchanged. */
  lemma {:induction false} ReplaceWithoutOccurrence(s: string, pattern: string, replacement: string)
    requires pattern != []
    requires forall i :: 0 <= i < |s| ==> !OccursAt(s, i, pattern)
    ensures Replace(s, pattern, replacement) == s
  {
    if s != [] {
      assert !OccursAt(s, 0, pattern);
      forall i | 0 <= i < |s[1..]| ensures !OccursAt(s[1..], i, pattern) {
        OccursAtTail(s, i, pattern);
      }
      ReplaceWithoutOccurrence(s[1..], pattern, replacement);
    }
  }

  /** Replacing a text by itself changes nothing. */
  lemma {:induction false} ReplaceBySelf(s: string, pattern: string)
    ensures Replace(s, pattern, pattern) == s
  {
    if pattern == [] {
      InterleaveEmpty(s);
    } else if s != [] {
      if StartsWith(s, pattern) {
        ReplaceBySelf(s[|pattern|..], pattern);
        assert s == s[..|pattern|] + s[|pattern|..];
      } else {
        ReplaceBySelf(s[1..], pattern);
        assert s == [s[0]] + s[1..];
      }
    }
  }

  lemma {:induction false} InterleaveEmpty(s: string)
    ensures Interleave(s, []) == s
  {
    if s != [] {
      InterleaveEmpty(s[1..]);
      assert s == [s[0]] + s[1..];
    }
  }

  /** An occurrence in the tail of s is an occurrence in s one place later. */
  lemma OccursAtTail(s: string, i: nat, p: string)
    requires s != []
    ensures OccursAt(s[1..], i, p) == OccursAt(s, i + 1, p)
  {
    if i + |p| <= |s| - 1 {
      assert s[1..][i..i + |p|] == s[i + 1..i + 1 + |p|];
    }
  }

  /** When the pattern's only occurrence the scan meets is a suffix, only that
      suffix is replaced. */
  lemma {:induction false} ReplaceOnlyAtEnd(prefix: string, pattern: string, replacement: string)
    requires pattern != []
    requires forall i :: 0 <= i < |prefix| ==> !OccursAt(prefix + pattern, i, pattern)
    ensures Replace(prefix + pattern, pattern, replacement) == prefix + replacement
  {
    var s := prefix + pattern;
    if prefix == [] {
      assert s == pattern && StartsWith(s, pattern);
      assert s[|pattern|..] == [];
      assert ReplaceAll(s, pattern, replacement) == replacement + ReplaceAll([], pattern, replacement);
    } else {
      assert !OccursAt(s, 0, pattern);
      var tail := prefix[1..];
      assert s[1..] == tail + pattern;
      forall i | 0 <= i < |tail| ensures !OccursAt(tail + pattern, i, pattern) {
        OccursAtTail(s, i, pattern);
      }
      ReplaceOnlyAtEnd(tail, pattern, replacement);
      assert prefix + replacement == [prefix[0]] + (tail + replacement);
    }
  }

  /** Every character of the result comes from s or from the replacement. */
  lemma {:induction false} ReplaceAllCharacters(s: string, pattern: string, replacement: string, c: char)
    requires pattern != []
    requires c !in s && c !in replacement
    ensures c !in Replace(s, pattern, replacement)
  {
    if s != [] {
      if StartsWith(s, pattern) {
        assert forall d :: d in s[|pattern|..] ==> d in s;
        ReplaceAllCharacters(s[|pattern|..], pattern, replacement, c);
      } else {
        assert forall d :: d in s[1..] ==> d in s;
        ReplaceAllCharacters(s[1..], pattern, replacement, c);
      }
    }
  }

  /** Replacing a single character by a text without it removes it everywhere. */
  lemma {:induction false} ReplaceCharacterRemovesIt(s: string, c: char, replacement: string)
    requires c !in replacement
    ensures c !in Replace(s, [c], replacement)
  {
    if s != [] {
      ReplaceCharacterRemovesIt(s[1..], c, replacement);
      if StartsWith(s, [c]) {
        assert s[|[c]|..] == s[1..];
      } else {
        assert s[0] != c;
      }
    }
  }

  /** s.split(sep)[-1]: the text after the last sep, or all of s. */
  function LastPiece(s: string, sep: char): (r: string)
    ensures sep !in r && EndsWith(s, r)
    ensures |r| < |s| ==> s[|s| - |r| - 1] == sep
  {
    if s == [] then []
    else if s[|s| - 1] == sep then []
    else LastPiece(s[..|s| - 1], sep) + [s[|s| - 1]]
  }

  /** s.split(sep)[0] for a non-empty sep: the text before the first
      occurrence of sep, or all of s. */
  function FirstPiece(s: string, sep: string): (r: string)
    requires sep != []
    ensures |r| <= |s| && r == s[..|r|]
    ensures forall i :: 0 <= i < |r| ==> !OccursAt(s, i, sep)
    ensures |r| < |s| ==> OccursAt(s, |r|, sep)
    decreases |s|
  {
    if s == [] || StartsWith(s, sep) then []
    else
      var rest := FirstPiece(s[1..], sep);
      assert forall i :: 0 <= i < |rest| + 1 ==> !OccursAt(s, i, sep) by {
        forall i | 0 < i < |rest| + 1 ensures !OccursAt(s, i, sep) {
          OccursAtTail(s, i - 1, sep);
        }
      }
      OccursAtTail(s, |rest|, sep);
      [s[0]] + rest
  }

  /** c.upper() for ASCII; every other character is left as it is. */
  function UpperChar(c: char): char {
    if 'a' <= c <= 'z' then (c as int - 32) as char else c
  }

  /** c.lower() for ASCII; every other character is left as it is. */
  function LowerChar(c: char): char {
    if 'A' <= c <= 'Z' then (c as int + 32) as char else c
  }

  /** s.lower() */
  function Lower(s: string): (r: string)
    ensures |r| == |s|
    ensures forall i :: 0 <= i < |s| ==> r[i] == LowerChar(s[i])
  {
    if s == [] then [] else [LowerChar(s[0])] + Lower(s[1..])
  }

  /** No ASCII capital letter occurs in s. */
  predicate HasNoCapital(s: string) {
    forall i :: 0 <= i < |s| ==> !('A' <= s[i] <= 'Z')
  }
}
