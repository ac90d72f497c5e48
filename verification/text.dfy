/** The three functions of Go's `strings` package that the alias manager
    relies on, on strings of Unicode code points: `Join`, `ReplaceAll` and
    `Fields` (with `unicode.IsSpace`). */
module Text {

  /** unicode.IsSpace: the Latin-1 spaces '\t', '\n', '\v', '\f', '\r', ' ',
      U+0085 and U+00A0, and the other code points with the Unicode
      White_Space property. */
  predicate IsSpace(c: char) {
    || c == '\t' || c == '\n' || c == '\U{000B}' || c == '\U{000C}' || c == '\r' || c == ' '
    || c == '\U{0085}' || c == '\U{00A0}' || c == '\U{1680}'
    || ('\U{2000}' <= c <= '\U{200A}')
    || c == '\U{2028}' || c == '\U{2029}' || c == '\U{202F}' || c == '\U{205F}' || c == '\U{3000}'
  }

  /** Every character of `s` is white space (the empty string included). */
  predicate AllSpace(s: string) {
    forall i :: 0 <= i < |s| ==> IsSpace(s[i])
  }

  /** A field as `strings.Fields` produces it: non-empty, no white space. */
  predicate IsWord(s: string) {
    s != [] && forall i :: 0 <= i < |s| ==> !IsSpace(s[i])
  }

  /** The characters of `s` that are not white space, in order. */
  function NonSpace(s: string): (r: string) {
    if s == [] then []
    else (if IsSpace(s[0]) then [] else [s[0]]) + NonSpace(s[1..])
  }

  /** The concatenation of a sequence of strings. */
  function Concat(parts: seq<string>): (r: string) {
    if parts == [] then [] else parts[0] + Concat(parts[1..])
  }

  // ---------------------------------------------------------------------
  // strings.Join

  /** strings.Join: the parts with `sep` between consecutive ones. */
  function Join(parts: seq<string>, sep: string): (r: string) {
    if parts == [] then ""
    else if |parts| == 1 then parts[0]
    else parts[0] + sep + Join(parts[1..], sep)
  }

  /** A character found in no part and not in the separator is not in the join. */
  lemma {:induction false} JoinAvoids(parts: seq<string>, sep: string, c: char)
    requires c !in sep
    requires forall i :: 0 <= i < |parts| ==> c !in parts[i]
    ensures c !in Join(parts, sep)
  {
    if |parts| > 1 {
      JoinAvoids(parts[1..], sep, c);
    }
  }

  // ---------------------------------------------------------------------
  // strings.ReplaceAll

  /** `pat` occurs in `s` starting at index `i`. */
  predicate OccursAt(s: string, pat: string, i: int) {
    0 <= i && i + |pat| <= |s| && s[i..i + |pat|] == pat
  }

  predicate Occurs(s: string, pat: string) {
    exists i :: 0 <= i <= |s| && OccursAt(s, pat, i)
  }

  /** strings.ReplaceAll: scanning left to right, every non-overlapping
      occurrence of `pat` is replaced by `rep`; a match resumes the scan after
      the matched text. An empty `pat` matches at the start and after every
      character. */
  function ReplaceAll(s: string, pat: string, rep: string): (r: string)
    ensures pat != [] && |s| < |pat| ==> r == s
    decreases |s|
  {
    if pat == [] then
      if s == [] then rep else rep + [s[0]] + ReplaceAll(s[1..], pat, rep)
    else if |s| < |pat| then s
    else if s[..|pat|] == pat then rep + ReplaceAll(s[|pat|..], pat, rep)
    else [s[0]] + ReplaceAll(s[1..], pat, rep)
  }

  /** A string in which the pattern does not occur is returned unchanged. */
  lemma {:induction false} ReplaceAllAbsent(s: string, pat: string, rep: string)
    requires pat != [] && !Occurs(s, pat)
    ensures ReplaceAll(s, pat, rep) == s
  {
    if |s| >= |pat| {
      assert !OccursAt(s, pat, 0);
      forall i | OccursAt(s[1..], pat, i) ensures OccursAt(s, pat, i + 1) {
        assert s[1..][i..i + |pat|] == s[i + 1..i + 1 + |pat|];
      }
      ReplaceAllAbsent(s[1..], pat, rep);
    }
  }

  /** Replacing a pattern by itself changes nothing. */
  lemma {:induction false} ReplaceAllSelf(s: string, pat: string)
    ensures ReplaceAll(s, pat, pat) == s
  {
    if pat == [] {
      if s != [] {
        ReplaceAllSelf(s[1..], pat);
        assert s == [s[0]] + s[1..];
      }
    } else if |s| >= |pat| {
      if s[..|pat|] == pat {
        ReplaceAllSelf(s[|pat|..], pat);
        assert s == s[..|pat|] + s[|pat|..];
      } else {
        ReplaceAllSelf(s[1..], pat);
        assert s == [s[0]] + s[1..];
      }
    }
  }

  /** A prefix that does not contain the pattern's first character is copied
      through unchanged, and the scan goes on after it. */
  lemma {:induction false} ReplaceAllSkip(x: string, y: string, pat: string, rep: string)
    requires pat != [] && pat[0] !in x
    ensures ReplaceAll(x + y, pat, rep) == x + ReplaceAll(y, pat, rep)
    decreases |x|
  {
    if x != [] {
      var s := x + y;
      assert s[0] == x[0] && x[0] != pat[0];
      assert s[1..] == x[1..] + y;
      if |s| >= |pat| {
        assert s[..|pat|][0] == x[0];
      }
      ReplaceAllSkip(x[1..], y, pat, rep);
      assert x == [x[0]] + x[1..];
      if |s| >= |pat| {
        assert s[..|pat|] != pat;
        assert ReplaceAll(s, pat, rep) == [s[0]] + ReplaceAll(s[1..], pat, rep);
      } else {
        assert ReplaceAll(y, pat, rep) == y;
      }
    } else {
      assert x + y == y;
    }
  }

  /** A string that starts with the pattern has its first |pat| characters
      replaced, and the scan goes on after them. */
  lemma ReplaceAllHead(y: string, pat: string, rep: string)
    requires pat != []
    ensures ReplaceAll(pat + y, pat, rep) == rep + ReplaceAll(y, pat, rep)
  {
    var s := pat + y;
    assert s[..|pat|] == pat;
    assert s[|pat|..] == y;
  }

  /** A string that does not start with the pattern keeps its first
      character, and the scan goes on after it. */
  lemma ReplaceAllMismatch(s: string, pat: string, rep: string)
    requires pat != [] && |s| >= |pat| && s[..|pat|] != pat
    ensures ReplaceAll(s, pat, rep) == [s[0]] + ReplaceAll(s[1..], pat, rep)
  {
  }

  /** A string without the pattern's first character is unchanged. */
  lemma ReplaceAllMissingHead(s: string, pat: string, rep: string)
    requires pat != [] && pat[0] !in s
    ensures ReplaceAll(s, pat, rep) == s
  {
    ReplaceAllSkip(s, [], pat, rep);
    assert s + [] == s;
  }

  // ---------------------------------------------------------------------
  // strings.Fields

  /** The longest prefix of `s` without white space. */
  function Word(s: string): (w: string)
    ensures w <= s
    ensures w == [] <==> s == [] || IsSpace(s[0])
    ensures forall i :: 0 <= i < |w| ==> !IsSpace(w[i])
    ensures |w| < |s| ==> IsSpace(s[|w|])
  {
    if s == [] || IsSpace(s[0]) then [] else [s[0]] + Word(s[1..])
  }

  /** strings.Fields: the maximal runs of non-space characters of `s`, in
      order. */
  function Fields(s: string): (fs: seq<string>)
    ensures forall i :: 0 <= i < |fs| ==> IsWord(fs[i])
    decreases |s|
  {
    if s == [] then []
    else if IsSpace(s[0]) then Fields(s[1..])
    else var w := Word(s); [w] + Fields(s[|w|..])
  }

  /** There are no fields exactly when the string is empty or all white space. */
  lemma {:induction false} FieldsEmpty(s: string)
    ensures Fields(s) == [] <==> AllSpace(s)
    decreases |s|
  {
    if s != [] && IsSpace(s[0]) {
      FieldsEmpty(s[1..]);
      if AllSpace(s[1..]) {
        forall i | 0 <= i < |s| ensures IsSpace(s[i]) {
          if i > 0 { assert s[i] == s[1..][i - 1]; }
        }
      }
    }
  }

  /** Leading white space does not change the fields. */
  lemma {:induction false} FieldsAfterSpace(sp: string, s: string)
    requires AllSpace(sp)
    ensures Fields(sp + s) == Fields(s)
    decreases |sp|
  {
    if sp != [] {
      assert (sp + s)[0] == sp[0] && IsSpace(sp[0]);
      assert (sp + s)[1..] == sp[1..] + s;
      assert AllSpace(sp[1..]) by {
        forall i | 0 <= i < |sp| - 1 ensures IsSpace(sp[1..][i]) {
          assert sp[1..][i] == sp[i + 1];
        }
      }
      FieldsAfterSpace(sp[1..], s);
      assert Fields(sp + s) == Fields((sp + s)[1..]);
    } else {
      assert sp + s == s;
    }
  }

  /** The word at the front of a string that continues with white space (or
      ends) is the whole word. */
  lemma {:induction false} WordOfWord(w: string, t: string)
    requires IsWord(w)
    requires t == [] || IsSpace(t[0])
    ensures Word(w + t) == w
    decreases |w|
  {
    var s := w + t;
    assert s[0] == w[0];
    if |w| == 1 {
      assert s[1..] == t;
    } else {
      assert s[1..] == w[1..] + t;
      WordOfWord(w[1..], t);
      assert w == [w[0]] + w[1..];
    }
  }

  /** A word followed by white space is the first field. */
  lemma FieldsOfWord(w: string, sp: string, s: string)
    requires IsWord(w) && AllSpace(sp)
    requires sp != [] || s == []
    ensures Fields(w + sp + s) == [w] + Fields(s)
  {
    var t := sp + s;
    assert w + sp + s == w + t;
    WordOfWord(w, t);
    assert (w + t)[|w|..] == t;
    FieldsAfterSpace(sp, s);
  }

  /** Round trip: joining words with a white-space separator and splitting
      the result into fields gives the words back. */
  lemma {:induction false} FieldsOfJoin(words: seq<string>, sep: string)
    requires forall i :: 0 <= i < |words| ==> IsWord(words[i])
    requires sep != [] && AllSpace(sep)
    ensures Fields(Join(words, sep)) == words
  {
    if |words| == 1 {
      FieldsOfWord(words[0], [], []);
      assert words[0] + [] + [] == words[0];
    } else if |words| > 1 {
      FieldsOfJoin(words[1..], sep);
      FieldsOfWord(words[0], sep, Join(words[1..], sep));
      assert words == [words[0]] + words[1..];
    }
  }

  lemma {:induction false} NonSpaceAppend(a: string, b: string)
    ensures NonSpace(a + b) == NonSpace(a) + NonSpace(b)
    decreases |a|
  {
    if a != [] {
      assert (a + b)[1..] == a[1..] + b;
      NonSpaceAppend(a[1..], b);
    } else {
      assert a + b == b;
    }
  }

  lemma {:induction false} NonSpaceOfWord(w: string)
    requires forall i :: 0 <= i < |w| ==> !IsSpace(w[i])
    ensures NonSpace(w) == w
    decreases |w|
  {
    if w != [] {
      NonSpaceOfWord(w[1..]);
      assert w == [w[0]] + w[1..];
    }
  }

  /** Splitting into fields loses no character other than white space and
      adds none: the fields, concatenated, are the non-space characters of
      the string in their original order. */
  lemma {:induction false} FieldsKeepText(s: string)
    ensures Concat(Fields(s)) == NonSpace(s)
    decreases |s|
  {
    if s != [] {
      if IsSpace(s[0]) {
        FieldsKeepText(s[1..]);
      } else {
        var w := Word(s);
        var rest := s[|w|..];
        assert s == w + rest;
        FieldsKeepText(rest);
        NonSpaceAppend(w, rest);
        NonSpaceOfWord(w);
        assert ([w] + Fields(rest))[1..] == Fields(rest);
      }
    }
  }
}
