/** The part of Go's `strings` package the ingestion pipeline relies on:
    TrimSpace, ToLower, Index, Contains, HasSuffix and Split, over `seq<char>`. */
module Text {

  type String = seq<char>

  /** Go's unicode.IsSpace: the ASCII white space, NEL, NBSP and the Unicode space separators. */
  predicate IsSpace(c: char) {
    || c == '\t' || c == '\n' || c == '\U{0B}' || c == '\U{0C}' || c == '\r' || c == ' '
    || c == '\U{85}' || c == '\U{A0}' || c == '\U{1680}'
    || ('\U{2000}' <= c <= '\U{200A}')
    || c == '\U{2028}' || c == '\U{2029}' || c == '\U{202F}' || c == '\U{205F}' || c == '\U{3000}'
  }

  /** A string with no white space at either end. */
  predicate IsTrimmed(s: String) {
    s == [] || (!IsSpace(s[0]) && !IsSpace(s[|s| - 1]))
  }

  /** Number of white-space characters at the front of `s`. */
  function LeadingSpaces(s: String): (k: nat)
    ensures k <= |s|
    ensures forall i :: 0 <= i < k ==> IsSpace(s[i])
    ensures k == |s| || !IsSpace(s[k])
  {
    if |s| > 0 && IsSpace(s[0]) then 1 + LeadingSpaces(s[1..]) else 0
  }

  /** Number of white-space characters at the back of `s`. */
  function TrailingSpaces(s: String): (k: nat)
    ensures k <= |s|
    ensures forall i :: |s| - k <= i < |s| ==> IsSpace(s[i])
    ensures k == |s| || !IsSpace(s[|s| - 1 - k])
  {
    if |s| > 0 && IsSpace(s[|s| - 1]) then 1 + TrailingSpaces(s[..|s| - 1]) else 0
  }

  /** strings.TrimSpace: `s` without its leading and trailing white space. The result starts
      at the first character that is not white space, and everything after it is white space. */
  function TrimSpace(s: String): (r: String)
    ensures IsTrimmed(r)
    ensures LeadingSpaces(s) + |r| <= |s|
    ensures r == s[LeadingSpaces(s)..LeadingSpaces(s) + |r|]
    ensures forall j :: LeadingSpaces(s) + |r| <= j < |s| ==> IsSpace(s[j])
  {
    var a := s[LeadingSpaces(s)..];
    a[..|a| - TrailingSpaces(a)]
  }

  /** TrimSpace keeps a contiguous piece of `s`, and empties `s` exactly when it is all
      white space. */
  lemma TrimSpaceFacts(s: String)
    ensures exists i :: OccursAt(s, TrimSpace(s), i)
    ensures TrimSpace(s) == [] <==> forall i :: 0 <= i < |s| ==> IsSpace(s[i])
  {
    assert OccursAt(s, TrimSpace(s), LeadingSpaces(s));
  }

  /** A string with a non-space character does not trim to nothing. */
  lemma TrimSpaceNonBlank(s: String, i: int)
    requires 0 <= i < |s| && !IsSpace(s[i])
    ensures TrimSpace(s) != []
  {
    TrimSpaceFacts(s);
  }

  lemma TrimSpaceOfTrimmed(s: String)
    requires IsTrimmed(s)
    ensures TrimSpace(s) == s
  {
  }

  /** The lower-case form of one character, for the Latin and Cyrillic capitals
      (A-Z, U+0410-U+042F and U+0400-U+040F); every other character is kept. */
  function LowerChar(c: char): (l: char)
    ensures 'A' <= c <= 'Z' ==> l as int == c as int + 32
    ensures !('A' <= c <= 'Z') && !('\U{400}' <= c <= '\U{42F}') ==> l == c
  {
    if 'A' <= c <= 'Z' then (c as int + 32) as char
    else if '\U{410}' <= c <= '\U{42F}' then (c as int + 32) as char
    else if '\U{400}' <= c <= '\U{40F}' then (c as int + 80) as char
    else c
  }

  /** strings.ToLower, character by character. */
  function ToLower(s: String): (r: String)
    ensures |r| == |s|
    ensures forall i :: 0 <= i < |s| ==> r[i] == LowerChar(s[i])
  {
    seq(|s|, i requires 0 <= i < |s| => LowerChar(s[i]))
  }

  /** `t` occurs in `s` starting at position `i`. */
  predicate OccursAt(s: String, t: String, i: int) {
    0 <= i && i + |t| <= |s| && s[i..i + |t|] == t
  }

  /** strings.Index: the first position of `t` in `s`, or -1. */
  function IndexFrom(s: String, t: String, from: nat): (i: int)
    requires from <= |s|
    ensures i == -1 || from <= i <= |s| - |t|
    ensures i == -1 ==> forall j :: from <= j <= |s| ==> !OccursAt(s, t, j)
    ensures i != -1 ==> OccursAt(s, t, i) && forall j :: from <= j < i ==> !OccursAt(s, t, j)
    decreases |s| - from
  {
    if OccursAt(s, t, from) then from
    else if from == |s| then -1
    else IndexFrom(s, t, from + 1)
  }

  function Index(s: String, t: String): (i: int)
    ensures i == -1 || 0 <= i <= |s| - |t|
    ensures i == -1 <==> forall j :: 0 <= j <= |s| ==> !OccursAt(s, t, j)
    ensures i != -1 ==> OccursAt(s, t, i) && forall j :: 0 <= j < i ==> !OccursAt(s, t, j)
  {
    IndexFrom(s, t, 0)
  }

  /** strings.Contains: `t` occurs somewhere in `s`. */
  predicate Contains(s: String, t: String) {
    exists i :: 0 <= i <= |s| - |t| && OccursAt(s, t, i)
  }

  /** Contains agrees with Go's definition of it: Index finds a position. */
  lemma ContainsIndex(s: String, t: String)
    ensures Contains(s, t) <==> Index(s, t) != -1
  {
  }

  /** strings.IndexByte for one character: the first position of `c`, or -1. */
  function IndexChar(s: String, c: char): (i: int)
    ensures -1 <= i < |s|
    ensures i == -1 <==> c !in s
    ensures i != -1 ==> s[i] == c && c !in s[..i]
  {
    if |s| == 0 then -1
    else if s[0] == c then 0
    else
      var k := IndexChar(s[1..], c);
      assert s[1..][..if k == -1 then 0 else k] == s[1..1 + if k == -1 then 0 else k];
      if k == -1 then -1 else k + 1
  }

  /** The part of `s` before the first `c`, or all of `s` when `c` does not occur: what is
      left of a string cut at the first occurrence of a separator. */
  function Before(s: String, c: char): (r: String)
    ensures c !in r
    ensures r <= s
    ensures c in s ==> |r| < |s| && s[|r|] == c
    ensures c !in s ==> r == s
  {
    var i := IndexChar(s, c);
    if i == -1 then s else s[..i]
  }

  /** The part of `s` after the first `c`; requires that `c` occur. */
  function After(s: String, c: char): (r: String)
    requires c in s
    ensures s == Before(s, c) + [c] + r
  {
    s[IndexChar(s, c) + 1..]
  }

  /** strings.HasSuffix. */
  predicate HasSuffix(s: String, t: String) {
    |t| <= |s| && s[|s| - |t|..] == t
  }

  /** The inverse of Split: the pieces joined with `c` between them. */
  function Join(parts: seq<String>, c: char): String
    requires |parts| >= 1
  {
    if |parts| == 1 then parts[0] else parts[0] + [c] + Join(parts[1..], c)
  }

  /** strings.Split with a one-character separator. */
  function Split(s: String, c: char): (parts: seq<String>)
    ensures |parts| >= 1
    ensures forall k :: 0 <= k < |parts| ==> c !in parts[k]
    ensures parts[0] == Before(s, c)
    ensures |parts| >= 2 <==> c in s
    ensures c in s ==> parts[1..] == Split(After(s, c), c)
    decreases |s|
  {
    if c !in s then [s]
    else [Before(s, c)] + Split(After(s, c), c)
  }

  /** Joining the pieces of a split gives back the original string. */
  lemma {:induction false} JoinSplit(s: String, c: char)
    ensures Join(Split(s, c), c) == s
    decreases |s|
  {
    if c in s {
      JoinSplit(After(s, c), c);
    }
  }

  /** The second piece of a split is the text between the first and the second separator. */
  lemma SplitSecond(s: String, c: char)
    requires c in s
    ensures Split(s, c)[1] == Before(After(s, c), c)
  {
    assert Split(s, c)[1] == Split(After(s, c), c)[0];
  }

  /** Cutting at the first `a` and then at the first `b` is the same as cutting in the other
      order: both keep the text before the first of the two characters. */
  lemma BeforeCommutes(s: String, a: char, b: char)
    ensures Before(Before(s, a), b) == Before(Before(s, b), a)
  {
    var ia, ib := IndexChar(s, a), IndexChar(s, b);
    if ia != -1 && ib != -1 {
      if ia < ib {
        assert Before(s, b)[..ia] == s[..ia];
        assert Before(Before(s, b), a) == s[..ia];
      } else if ib < ia {
        assert Before(s, a)[..ib] == s[..ib];
        assert Before(Before(s, a), b) == s[..ib];
      }
    } else if ia != -1 {
      assert Before(Before(s, b), a) == s[..ia];
    } else if ib != -1 {
      assert Before(Before(s, a), b) == s[..ib];
    }
  }

  /** Cutting a concatenation whose first part lacks `c` cuts only the second part. */
  lemma BeforeAppend(x: String, y: String, c: char)
    requires c !in x
    ensures Before(x + y, c) == x + Before(y, c)
  {
    if c in y {
      var i := IndexChar(y, c);
      assert (x + y)[|x| + i] == c;
      assert c !in (x + y)[..|x| + i] by {
        assert (x + y)[..|x| + i] == x + y[..i];
      }
      assert IndexChar(x + y, c) == |x| + i;
    } else {
      assert c !in x + y;
    }
  }

  /** A leading white-space character does not survive TrimSpace. */
  lemma TrimSpaceDropsLeadingSpace(c: char, s: String)
    requires IsSpace(c)
    ensures TrimSpace([c] + s) == TrimSpace(s)
  {
    assert ([c] + s)[1..] == s;
    assert LeadingSpaces([c] + s) == 1 + LeadingSpaces(s);
    assert ([c] + s)[LeadingSpaces([c] + s)..] == s[LeadingSpaces(s)..];
  }

  /** Cutting `x + [c] + y` at `c`, when `x` lacks `c`, gives back `x` and `y`. */
  lemma CutAtFirst(x: String, c: char, y: String)
    requires c !in x
    ensures Before(x + [c] + y, c) == x
    ensures After(x + [c] + y, c) == y
  {
    assert x + [c] + y == x + ([c] + y);
    BeforeAppend(x, [c] + y, c);
    assert Before([c] + y, c) == [];
  }
}
