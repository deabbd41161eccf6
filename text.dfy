/** Text normalisation of cell text: the "clean" reading used for header labels and
    for the marker probe, which removes every whitespace character of the text
    (`"".join(txt.split())`), and the "raw" reading, which is the text itself. */
module Text {

  /** The characters for which Python's `str.isspace()` holds: exactly those on
      which `str.split()` with no argument splits. */
  const Whitespace: set<char> := {
    '\t', '\n', '\U{0B}', '\U{0C}', '\r', '\U{1C}', '\U{1D}', '\U{1E}', '\U{1F}', ' ',
    '\U{85}', '\U{A0}', '\U{1680}', '\U{2000}', '\U{2001}', '\U{2002}', '\U{2003}',
    '\U{2004}', '\U{2005}', '\U{2006}', '\U{2007}', '\U{2008}', '\U{2009}', '\U{200A}',
    '\U{2028}', '\U{2029}', '\U{202F}', '\U{205F}', '\U{3000}'
  }

  predicate IsWhitespace(c: char) {
    c in Whitespace
  }

  predicate NoWhitespace(s: string) {
    forall i :: 0 <= i < |s| ==> !IsWhitespace(s[i])
  }

  /** The reference meaning of cleaning: s filtered to its non-whitespace
      characters, which keep their order. */
  function RemoveWhitespace(s: string): (r: string)
    ensures |r| <= |s|
  {
    if s == [] then []
    else (if IsWhitespace(s[0]) then [] else [s[0]]) + RemoveWhitespace(s[1..])
  }

  lemma {:induction false} RemoveWhitespaceLeavesNone(s: string)
    ensures NoWhitespace(RemoveWhitespace(s))
  {
    if s != [] {
      RemoveWhitespaceLeavesNone(s[1..]);
      var head: string := if IsWhitespace(s[0]) then [] else [s[0]];
      var r := RemoveWhitespace(s[1..]);
      assert RemoveWhitespace(s) == head + r;
      assert forall i :: |head| <= i < |head + r| ==> (head + r)[i] == r[i - |head|];
    }
  }

  lemma {:induction false} RemoveWhitespaceAppend(a: string, b: string)
    ensures RemoveWhitespace(a + b) == RemoveWhitespace(a) + RemoveWhitespace(b)
  {
    if a == [] {
      assert a + b == b;
    } else {
      assert (a + b)[0] == a[0];
      assert (a + b)[1..] == a[1..] + b;
      RemoveWhitespaceAppend(a[1..], b);
    }
  }

  lemma {:induction false} RemoveWhitespaceOfClean(s: string)
    requires NoWhitespace(s)
    ensures RemoveWhitespace(s) == s
  {
    if s != [] {
      assert NoWhitespace(s[1..]) by {
        forall i | 0 <= i < |s[1..]| ensures !IsWhitespace(s[1..][i]) {
          assert s[1..][i] == s[i + 1];
        }
      }
      RemoveWhitespaceOfClean(s[1..]);
    }
  }

  /** The longest prefix of s that holds no whitespace. */
  function LeadingWord(s: string): (w: string)
    ensures |w| <= |s| && w == s[..|w|]
    ensures NoWhitespace(w)
    ensures |w| < |s| ==> IsWhitespace(s[|w|])
  {
    if s == [] || IsWhitespace(s[0]) then [] else [s[0]] + LeadingWord(s[1..])
  }

  /** `str.split()` with no separator: the maximal runs of non-whitespace
      characters of s, in order; leading, trailing and repeated whitespace
      produce no empty words. */
  function Split(s: string): seq<string>
    decreases |s|
  {
    if s == [] then []
    else if IsWhitespace(s[0]) then Split(s[1..])
    else var w := LeadingWord(s); [w] + Split(s[|w|..])
  }

  /** Every word of `split()` is non-empty and holds no whitespace. */
  lemma {:induction false} SplitWords(s: string)
    ensures forall k :: 0 <= k < |Split(s)| ==> Split(s)[k] != [] && NoWhitespace(Split(s)[k])
    decreases |s|
  {
    if s != [] {
      var words := Split(s);
      var rest := if IsWhitespace(s[0]) then s[1..] else s[|LeadingWord(s)|..];
      SplitWords(rest);
      var tail := Split(rest);
      assert forall k :: 0 <= k < |tail| ==> tail[k] != [] && NoWhitespace(tail[k]);
      if !IsWhitespace(s[0]) {
        assert LeadingWord(s) != [];
        assert words == [LeadingWord(s)] + tail;
        assert forall k :: 0 < k < |words| ==> words[k] == tail[k - 1];
      }
      assert forall k :: 0 <= k < |words| ==> words[k] != [] && NoWhitespace(words[k]);
    }
  }

  /** `"".join(words)` */
  function Concat(words: seq<string>): string {
    if words == [] then [] else words[0] + Concat(words[1..])
  }

  /** Splitting at whitespace and joining the words with nothing between them is
      the same as removing the whitespace. */
  lemma {:induction false} ConcatSplitRemovesWhitespace(s: string)
    ensures Concat(Split(s)) == RemoveWhitespace(s)
    decreases |s|
  {
    if s == [] {
    } else if IsWhitespace(s[0]) {
      ConcatSplitRemovesWhitespace(s[1..]);
    } else {
      var w := LeadingWord(s);
      var rest := s[|w|..];
      assert s == w + rest;
      ConcatSplitRemovesWhitespace(rest);
      RemoveWhitespaceAppend(w, rest);
      RemoveWhitespaceOfClean(w);
      assert ([w] + Split(rest))[1..] == Split(rest);
    }
  }

  /** `get_clean_text` applied to a cell's text: every whitespace character is
      removed, the other characters keep their order. */
  function CleanText(s: string): (r: string)
    ensures r == RemoveWhitespace(s)
  {
    ConcatSplitRemovesWhitespace(s);
    Concat(Split(s))
  }

  /** The clean text holds no whitespace. */
  lemma CleanTextHasNoWhitespace(s: string)
    ensures NoWhitespace(CleanText(s))
  {
    RemoveWhitespaceLeavesNone(s);
  }

  /** Cleaning leaves a text without whitespace unchanged. */
  lemma CleanTextOfCleanText(s: string)
    requires NoWhitespace(s)
    ensures CleanText(s) == s
  {
    RemoveWhitespaceOfClean(s);
  }

  /** Cleaning is idempotent. */
  lemma CleanTextIdempotent(s: string)
    ensures CleanText(CleanText(s)) == CleanText(s)
  {
    CleanTextHasNoWhitespace(s);
    CleanTextOfCleanText(CleanText(s));
  }

  /** Cleaning distributes over concatenation. */
  lemma CleanTextAppend(a: string, b: string)
    ensures CleanText(a + b) == CleanText(a) + CleanText(b)
  {
    RemoveWhitespaceAppend(a, b);
  }

  /** The positions of s that hold a non-whitespace character, in increasing order. */
  function KeptPositions(s: string): (p: seq<nat>)
    ensures forall k :: 0 <= k < |p| ==> p[k] < |s| && !IsWhitespace(s[p[k]])
    ensures forall k, l :: 0 <= k < l < |p| ==> p[k] < p[l]
    ensures forall i :: 0 <= i < |s| && !IsWhitespace(s[i]) ==> i in p
  {
    if s == [] then []
    else
      var n := |s| - 1;
      var p := KeptPositions(s[..n]);
      assert forall i :: 0 <= i < n ==> s[..n][i] == s[i];
      p + (if IsWhitespace(s[n]) then [] else [n])
  }

  /** The clean text is exactly the characters at the non-whitespace positions of
      the input, taken in increasing order. */
  lemma {:induction false} CleanTextIsKeptCharacters(s: string)
    ensures var p := KeptPositions(s);
            |CleanText(s)| == |p| && forall k :: 0 <= k < |p| ==> CleanText(s)[k] == s[p[k]]
  {
    if s != [] {
      var n := |s| - 1;
      assert s == s[..n] + [s[n]];
      CleanTextIsKeptCharacters(s[..n]);
      RemoveWhitespaceAppend(s[..n], [s[n]]);
      assert RemoveWhitespace([s[n]]) == if IsWhitespace(s[n]) then [] else [s[n]];
      var q := KeptPositions(s[..n]);
      assert forall k :: 0 <= k < |q| ==> s[..n][q[k]] == s[q[k]];
    }
  }
}
