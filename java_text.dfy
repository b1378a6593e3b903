/** The few `java.lang.String` operations the core depends on, with their
    exact Java meaning: `isBlank`, `trim`, `split(",")` and `String.join`. */
module JavaText {

  /** `Character.isWhitespace`: the Unicode space, line and paragraph
      separators except the three non-breaking spaces, plus the ASCII
      controls U+0009..U+000D and U+001C..U+001F. */
  predicate IsWhitespace(c: char) {
    var n := c as int;
    || 0x09 <= n <= 0x0D
    || 0x1C <= n <= 0x20
    || n == 0x1680
    || 0x2000 <= n <= 0x2006
    || 0x2008 <= n <= 0x200A
    || n == 0x2028 || n == 0x2029 || n == 0x205F || n == 0x3000
  }

  /** Java's whitespace is not the same as what `trim` cuts: the
      ideographic space is whitespace but above U+0020, and NUL is at or
      below U+0020 but is not whitespace. */
  lemma WhitespaceExamples()
    ensures IsWhitespace(' ') && IsWhitespace('\t') && IsWhitespace('\n') && IsWhitespace('\U{3000}')
    ensures !IsWhitespace('\0') && !IsWhitespace('\U{00A0}') && !IsWhitespace('a')
    ensures IsTrimmable('\0') && !IsTrimmable('\U{3000}')
  {
  }

  /** `String.isBlank`: empty or whitespace only. */
  predicate IsBlank(s: string) {
    forall k :: 0 <= k < |s| ==> IsWhitespace(s[k])
  }

  /** What `String.trim` strips: any character at or below U+0020. This is
      not the same notion as IsWhitespace. */
  predicate IsTrimmable(c: char) {
    c as int <= 0x20
  }

  predicate AllTrimmable(s: string) {
    forall k :: 0 <= k < |s| ==> IsTrimmable(s[k])
  }

  /** The length of the longest prefix of trimmable characters. */
  function LeadingTrimmable(s: string): (n: nat)
    ensures n <= |s|
    ensures forall k :: 0 <= k < n ==> IsTrimmable(s[k])
    ensures n < |s| ==> !IsTrimmable(s[n])
  {
    if |s| == 0 || !IsTrimmable(s[0]) then 0 else 1 + LeadingTrimmable(s[1..])
  }

  /** The length of the longest suffix of trimmable characters. */
  function TrailingTrimmable(s: string): (n: nat)
    ensures n <= |s|
    ensures forall k :: |s| - n <= k < |s| ==> IsTrimmable(s[k])
    ensures n < |s| ==> !IsTrimmable(s[|s| - 1 - n])
  {
    if |s| == 0 || !IsTrimmable(s[|s| - 1]) then 0
    else 1 + TrailingTrimmable(s[..|s| - 1])
  }

  /** `String.trim`: `s` without its longest trimmable prefix and suffix.
      The result starts at the first non-trimmable character, everything
      cut away is trimmable, and its ends are not. */
  function Trim(s: string): (t: string)
    ensures |t| == 0 || (!IsTrimmable(t[0]) && !IsTrimmable(t[|t| - 1]))
    ensures var i := LeadingTrimmable(s);
      && i + |t| <= |s|
      && t == s[i..i + |t|]
      && AllTrimmable(s[i + |t|..])
  {
    var i := LeadingTrimmable(s);
    if i == |s| then ""
    else
      var n := TrailingTrimmable(s);
      assert !IsTrimmable(s[i]);
      s[i..|s| - n]
  }

  /** Trimming leaves nothing exactly when every character is trimmable. */
  lemma TrimEmptyIff(s: string)
    ensures Trim(s) == "" <==> AllTrimmable(s)
  {
  }

  /** Every piece of `s` between separators, empty pieces included. */
  function SplitAll(s: string, sep: char): (parts: seq<string>)
    ensures |parts| >= 1
    ensures forall k :: 0 <= k < |parts| ==> sep !in parts[k]
    ensures Join(parts, sep) == s
    decreases |s|
  {
    if |s| == 0 then [""]
    else
      var rest := SplitAll(s[1..], sep);
      if s[0] == sep then
        assert s == [sep] + s[1..];
        [""] + rest
      else
        var parts := [[s[0]] + rest[0]] + rest[1..];
        JoinConsHead(s[0], rest, sep);
        assert s == [s[0]] + s[1..];
        parts
  }

  /** `String.join(sep, xs)`. */
  function Join(xs: seq<string>, sep: char): string
  {
    if |xs| == 0 then ""
    else if |xs| == 1 then xs[0]
    else xs[0] + [sep] + Join(xs[1..], sep)
  }

  /** Joining separator-free pieces: the first piece starts the result,
      the last ends it, and the separator occurs once between each pair of
      neighbours and nowhere else. */
  lemma {:induction false} JoinShape(xs: seq<string>, sep: char)
    requires |xs| >= 1
    requires forall k :: 0 <= k < |xs| ==> sep !in xs[k]
    ensures xs[0] <= Join(xs, sep)
    ensures var s, last := Join(xs, sep), xs[|xs| - 1]; |last| <= |s| && s[|s| - |last|..] == last
    ensures multiset(Join(xs, sep))[sep] == |xs| - 1
    decreases |xs|
  {
    if |xs| > 1 {
      JoinShape(xs[1..], sep);
      assert xs[1..][|xs[1..]| - 1] == xs[|xs| - 1];
      assert multiset(xs[0])[sep] == 0;
    }
  }

  lemma JoinConsHead(c: char, xs: seq<string>, sep: char)
    requires |xs| >= 1
    ensures Join([[c] + xs[0]] + xs[1..], sep) == [c] + Join(xs, sep)
  {
    var ys := [[c] + xs[0]] + xs[1..];
    assert ys[1..] == xs[1..];
  }

  /** A piece free of separators splits to itself. */
  lemma {:induction false} SplitWithoutSeparator(a: string, sep: char)
    requires sep !in a
    ensures SplitAll(a, sep) == [a]
    decreases |a|
  {
    if |a| > 0 {
      SplitWithoutSeparator(a[1..], sep);
    }
  }

  lemma {:induction false} SplitAfterPiece(a: string, t: string, sep: char)
    requires sep !in a
    ensures SplitAll(a + [sep] + t, sep) == [a] + SplitAll(t, sep)
    decreases |a|
  {
    var s := a + [sep] + t;
    if |a| == 0 {
      assert s[1..] == t;
    } else {
      assert s[1..] == a[1..] + [sep] + t;
      SplitAfterPiece(a[1..], t, sep);
      assert [a[0]] + a[1..] == a;
    }
  }

  /** Splitting undoes joining when no piece holds the separator. */
  lemma {:induction false} SplitJoin(xs: seq<string>, sep: char)
    requires |xs| >= 1
    requires forall k :: 0 <= k < |xs| ==> sep !in xs[k]
    ensures SplitAll(Join(xs, sep), sep) == xs
    decreases |xs|
  {
    if |xs| == 1 {
      SplitWithoutSeparator(xs[0], sep);
    } else {
      SplitAfterPiece(xs[0], Join(xs[1..], sep), sep);
      SplitJoin(xs[1..], sep);
      assert [xs[0]] + xs[1..] == xs;
    }
  }

  /** `xs` without its trailing empty strings. */
  function DropTrailingEmpty(xs: seq<string>): (r: seq<string>)
    ensures |r| <= |xs| && r == xs[..|r|]
    ensures |r| > 0 ==> r[|r| - 1] != ""
    ensures forall k :: |r| <= k < |xs| ==> xs[k] == ""
  {
    if |xs| == 0 then []
    else if xs[|xs| - 1] == "" then DropTrailingEmpty(xs[..|xs| - 1])
    else xs
  }

  /** `s.split(String.valueOf(sep))` with Java's default limit 0: when the
      separator does not occur the string itself is the only piece,
      otherwise all pieces with the trailing empty ones removed. */
  function JavaSplit(s: string, sep: char): (parts: seq<string>)
    ensures sep !in s ==> parts == [s]
    ensures forall k :: 0 <= k < |parts| ==> sep !in parts[k]
    ensures sep in s ==>
      var all := SplitAll(s, sep);
      && |parts| <= |all| && parts == all[..|parts|]
      && (|parts| > 0 ==> parts[|parts| - 1] != "")
      && (forall k :: |parts| <= k < |all| ==> all[k] == "")
  {
    if sep !in s then [s] else DropTrailingEmpty(SplitAll(s, sep))
  }
}
