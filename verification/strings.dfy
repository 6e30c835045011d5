/** String primitives the source takes from its languages' standard libraries:
    splitting on a character, joining, trimming, single and global character
    replacement, prefix and suffix tests, ASCII lower-casing, and a markup-tag
    stripper used to relate the HTML and plain-text renderings of a conjugation.

    Strings are `seq<char>`; a `char` is one Unicode scalar value, as a Rust
    `char` is. JavaScript strings are sequences of UTF-16 code units, so the
    model assumes the TypeScript side's text lies in the Basic Multilingual
    Plane, where one code unit is one scalar value; outside it, `charAt(0)`
    in `Processor.Capitalize` would see half a surrogate pair.
 */
module Strings {
  import opened Wrappers

  /** Number of occurrences of `c` in `s`. */
  function Count(s: string, c: char): nat {
    if |s| == 0 then 0 else (if s[0] == c then 1 else 0) + Count(s[1..], c)
  }

  lemma {:induction false} CountZero(s: string, c: char)
    ensures Count(s, c) == 0 <==> c !in s
  {
    if |s| > 0 {
      CountZero(s[1..], c);
      assert s == [s[0]] + s[1..];
    }
  }

  // ---------------------------------------------------------------------------
  // Splitting and joining

  /** `s.split(c)` of JavaScript and Rust alike: the maximal pieces of `s` that
      do not contain `c`, in order. There is always at least one piece, and an
      empty piece is kept. */
  function Split(s: string, c: char): (parts: seq<string>)
    ensures |parts| == Count(s, c) + 1
    ensures forall k :: 0 <= k < |parts| ==> c !in parts[k]
  {
    if |s| == 0 then [""]
    else
      var rest := Split(s[1..], c);
      if s[0] == c then [""] + rest
      else
        assert c !in [s[0]] + rest[0];
        [[s[0]] + rest[0]] + rest[1..]
  }

  /** `parts.join(sep)`. */
  function Join(parts: seq<string>, sep: string): string {
    if |parts| == 0 then ""
    else if |parts| == 1 then parts[0]
    else parts[0] + sep + Join(parts[1..], sep)
  }

  /** Joining the pieces of a split with the separator gives the string back. */
  lemma {:induction false} JoinSplit(s: string, c: char)
    ensures Join(Split(s, c), [c]) == s
  {
    if |s| > 0 {
      var rest := Split(s[1..], c);
      JoinSplit(s[1..], c);
      if s[0] == c {
        assert Join([""] + rest, [c]) == [c] + Join(rest, [c]) by {
          assert ([""] + rest)[1..] == rest;
        }
        assert s == [c] + s[1..];
      } else {
        var parts := [[s[0]] + rest[0]] + rest[1..];
        assert Join(parts, [c]) == [s[0]] + Join(rest, [c]) by {
          if |rest| > 1 {
            assert parts[1..] == rest[1..];
          }
        }
        assert s == [s[0]] + s[1..];
      }
    }
  }

  lemma {:induction false} SplitWithout(a: string, c: char)
    requires c !in a
    ensures Split(a, c) == [a]
  {
    if |a| > 0 {
      SplitWithout(a[1..], c);
      assert a == [a[0]] + a[1..];
    }
  }

  lemma {:induction false} SplitAfterFirst(a: string, b: string, c: char)
    requires c !in a
    ensures Split(a + [c] + b, c) == [a] + Split(b, c)
  {
    var s := a + [c] + b;
    if |a| == 0 {
      assert s[1..] == b;
    } else {
      assert s[1..] == a[1..] + [c] + b;
      SplitAfterFirst(a[1..], b, c);
      assert a == [a[0]] + a[1..];
    }
  }

  /** Splitting a join recovers the pieces when no piece holds the separator. */
  lemma {:induction false} SplitJoin(parts: seq<string>, c: char)
    requires |parts| >= 1
    requires forall k :: 0 <= k < |parts| ==> c !in parts[k]
    ensures Split(Join(parts, [c]), c) == parts
  {
    if |parts| == 1 {
      SplitWithout(parts[0], c);
    } else {
      SplitJoin(parts[1..], c);
      SplitAfterFirst(parts[0], Join(parts[1..], [c]), c);
      assert parts == [parts[0]] + parts[1..];
    }
  }

  /** A join starts with its first piece and ends with its last. */
  lemma {:induction false} JoinEnds(parts: seq<string>, sep: string)
    requires |parts| >= 1
    ensures StartsWith(Join(parts, sep), parts[0])
    ensures EndsWith(Join(parts, sep), parts[|parts| - 1])
  {
    if |parts| > 1 {
      JoinEnds(parts[1..], sep);
      var j := Join(parts, sep);
      var tail := Join(parts[1..], sep);
      assert j == parts[0] + (sep + tail);
      assert j[|j| - |tail|..] == tail;
      assert parts[1..][|parts| - 2] == parts[|parts| - 1];
    }
  }

  /** Replacing a separator that no piece contains turns one join into the
      other. */
  lemma {:induction false} ReplaceJoin(parts: seq<string>, c: char, w: string)
    requires forall k :: 0 <= k < |parts| ==> c !in parts[k]
    ensures ReplaceAll(Join(parts, [c]), c, w) == Join(parts, w)
  {
    if |parts| > 1 {
      var head := parts[0];
      var tail := Join(parts[1..], [c]);
      ReplaceJoin(parts[1..], c, w);
      assert Join(parts, [c]) == head + ([c] + tail);
      ReplaceAllAppend(head, [c] + tail, c, w);
      ReplaceAllAppend([c], tail, c, w);
      assert ReplaceAll(head, c, w) == head;
      assert ReplaceAll([c], c, w) == w;
      assert Join(parts, w) == head + (w + Join(parts[1..], w));
    }
  }

  // ---------------------------------------------------------------------------
  // Trimming

  /** JavaScript's `String.prototype.trim` set: WhiteSpace and LineTerminator of
      ECMAScript, which includes U+FEFF and excludes U+0085. */
  predicate IsJsWhitespace(c: char) {
    || c == '\t' || c == '\n' || c == '\U{B}' || c == '\U{C}' || c == '\r'
    || c == ' ' || c == '\U{A0}' || c == '\U{1680}'
    || ('\U{2000}' <= c <= '\U{200A}')
    || c == '\U{2028}' || c == '\U{2029}' || c == '\U{202F}' || c == '\U{205F}'
    || c == '\U{3000}' || c == '\U{FEFF}'
  }

  /** Rust's `char::is_whitespace`: the Unicode White_Space property, which
      includes U+0085 and excludes U+FEFF. */
  predicate IsRustWhitespace(c: char) {
    || ('\t' <= c <= '\r')
    || c == ' ' || c == '\U{85}' || c == '\U{A0}' || c == '\U{1680}'
    || ('\U{2000}' <= c <= '\U{200A}')
    || c == '\U{2028}' || c == '\U{2029}' || c == '\U{202F}' || c == '\U{205F}'
    || c == '\U{3000}'
  }

  function TrimStart(s: string, ws: char -> bool): (r: string)
    ensures |r| <= |s| && r == s[|s| - |r|..]
    ensures forall k :: 0 <= k < |s| - |r| ==> ws(s[k])
    ensures |r| > 0 ==> !ws(r[0])
  {
    if |s| > 0 && ws(s[0]) then TrimStart(s[1..], ws) else s
  }

  function TrimEnd(s: string, ws: char -> bool): (r: string)
    ensures |r| <= |s| && r == s[..|r|]
    ensures forall k :: |r| <= k < |s| ==> ws(s[k])
    ensures |r| > 0 ==> !ws(r[|r| - 1])
  {
    if |s| > 0 && ws(s[|s| - 1]) then TrimEnd(s[..|s| - 1], ws) else s
  }

  /** Number of characters `Trim` cuts off the front of `s`. */
  function LeadingCut(s: string, ws: char -> bool): nat {
    |s| - |TrimStart(s, ws)|
  }

  /** `s` without leading and trailing characters of the class `ws`: a
      contiguous slice of `s`, everything cut off belongs to `ws`, and the
      slice neither starts nor ends with a character of `ws`. */
  function Trim(s: string, ws: char -> bool): (r: string)
    ensures LeadingCut(s, ws) + |r| <= |s|
    ensures r == s[LeadingCut(s, ws)..LeadingCut(s, ws) + |r|]
    ensures forall k :: 0 <= k < LeadingCut(s, ws) ==> ws(s[k])
    ensures forall k :: LeadingCut(s, ws) + |r| <= k < |s| ==> ws(s[k])
    ensures |r| > 0 ==> !ws(r[0]) && !ws(r[|r| - 1])
  {
    var t := TrimStart(s, ws);
    var r := TrimEnd(t, ws);
    assert r == s[|s| - |t|..|s| - |t| + |r|];
    r
  }

  /** Text with no whitespace at either end is its own trimmed form. */
  lemma TrimTrimmed(s: string, ws: char -> bool)
    requires |s| > 0 ==> !ws(s[0]) && !ws(s[|s| - 1])
    ensures Trim(s, ws) == s
  {
    assert TrimStart(s, ws) == s;
    assert TrimEnd(s, ws) == s;
  }

  /** A character absent from `s` is absent from its trimmed form. */
  lemma TrimKeepsOut(s: string, ws: char -> bool, c: char)
    requires c !in s
    ensures c !in Trim(s, ws)
  {
    var r := Trim(s, ws);
    var i := LeadingCut(s, ws);
    forall k | 0 <= k < |r|
      ensures r[k] != c
    {
      assert r[k] == s[i + k];
    }
  }

  // ---------------------------------------------------------------------------
  // Replacement

  /** JavaScript `s.replace(/c/g, w)`: every occurrence of `c` becomes `w`. */
  function ReplaceAll(s: string, c: char, w: string): (r: string)
    ensures forall x :: x in r ==> (x in s && x != c) || x in w
    ensures c !in s ==> r == s
  {
    if |s| == 0 then ""
    else (if s[0] == c then w else [s[0]]) + ReplaceAll(s[1..], c, w)
  }

  lemma {:induction false} ReplaceAllAppend(a: string, b: string, c: char, w: string)
    ensures ReplaceAll(a + b, c, w) == ReplaceAll(a, c, w) + ReplaceAll(b, c, w)
  {
    if |a| > 0 {
      assert (a + b)[1..] == a[1..] + b;
      ReplaceAllAppend(a[1..], b, c, w);
    } else {
      assert a + b == b;
    }
  }

  /** Index of the first `c` in `s`, if any. */
  function FirstIndex(s: string, c: char): (r: Option<nat>)
    ensures r.None? <==> c !in s
    ensures r.Some? ==> r.value < |s| && s[r.value] == c && c !in s[..r.value]
  {
    if |s| == 0 then None
    else if s[0] == c then Some(0)
    else
      match FirstIndex(s[1..], c)
      case None => None
      case Some(i) =>
        assert s[..i + 1] == [s[0]] + s[1..][..i];
        Some(i + 1)
  }

  /** JavaScript `s.replace(" ", w)` with a string pattern: only the FIRST
      occurrence of `c` is replaced, the rest of `s` is untouched. */
  function ReplaceFirst(s: string, c: char, w: string): string {
    match FirstIndex(s, c)
    case None => s
    case Some(i) => s[..i] + w + s[i + 1..]
  }

  // ---------------------------------------------------------------------------
  // Prefixes, suffixes, case

  predicate StartsWith(s: string, prefix: string) {
    |prefix| <= |s| && s[..|prefix|] == prefix
  }

  predicate EndsWith(s: string, suffix: string) {
    |suffix| <= |s| && s[|s| - |suffix|..] == suffix
  }

  /** ASCII lower-casing of one character; every other character is kept. */
  function AsciiLowerChar(c: char): char {
    if 'A' <= c <= 'Z' then (c as int + 32) as char else c
  }

  /** Rust `str::to_ascii_lowercase`. */
  function AsciiLower(s: string): (r: string)
    ensures |r| == |s|
    ensures forall k :: 0 <= k < |s| ==> r[k] == AsciiLowerChar(s[k])
  {
    seq(|s|, k requires 0 <= k < |s| => AsciiLowerChar(s[k]))
  }

  // ---------------------------------------------------------------------------
  // Markup

  /** The text content of `s`: every tag `<…>` removed. An unterminated tag
      swallows the rest of the string. */
  function StripTags(s: string): string {
    StripFrom(s, false)
  }

  function StripFrom(s: string, inTag: bool): string {
    if |s| == 0 then ""
    else if inTag then StripFrom(s[1..], s[0] != '>')
    else if s[0] == '<' then StripFrom(s[1..], true)
    else [s[0]] + StripFrom(s[1..], false)
  }

  /** Text without `<` passes through unchanged. */
  lemma {:induction false} StripText(p: string, rest: string)
    requires '<' !in p
    ensures StripFrom(p + rest, false) == p + StripFrom(rest, false)
  {
    if |p| > 0 {
      assert (p + rest)[1..] == p[1..] + rest;
      StripText(p[1..], rest);
      assert p == [p[0]] + p[1..];
    } else {
      assert p + rest == rest;
    }
  }

  lemma {:induction false} StripInsideTag(t: string, rest: string)
    requires '>' !in t
    ensures StripFrom(t + ">" + rest, true) == StripFrom(rest, false)
  {
    if |t| > 0 {
      assert (t + ">" + rest)[1..] == t[1..] + ">" + rest;
      StripInsideTag(t[1..], rest);
    } else {
      assert (t + ">" + rest)[1..] == rest;
    }
  }

  /** `h` is markup whose text is `p`, whatever follows it. */
  ghost predicate HasText(h: string, p: string) {
    forall rest :: StripFrom(h + rest, false) == p + StripFrom(rest, false)
  }

  /** Markup pieces joined by a separator without `<` have the join of their
      texts as text. */
  lemma {:induction false} StripJoin(hs: seq<string>, ps: seq<string>, sep: string)
    requires '<' !in sep
    requires |hs| == |ps|
    requires forall i :: 0 <= i < |hs| ==> HasText(hs[i], ps[i])
    ensures StripTags(Join(hs, sep)) == Join(ps, sep)
  {
    if |hs| == 1 {
      assert hs[0] + "" == hs[0];
      assert StripFrom(hs[0] + "", false) == ps[0] + StripFrom("", false);
    } else if |hs| > 1 {
      var j := Join(hs[1..], sep);
      StripJoin(hs[1..], ps[1..], sep);
      assert Join(hs, sep) == hs[0] + (sep + j);
      assert StripFrom(hs[0] + (sep + j), false) == ps[0] + StripFrom(sep + j, false);
      StripText(sep, j);
    }
  }

  /** A complete tag disappears. */
  lemma StripTag(t: string, rest: string)
    requires '>' !in t
    ensures StripFrom("<" + t + ">" + rest, false) == StripFrom(rest, false)
  {
    assert ("<" + t + ">" + rest)[1..] == t + ">" + rest;
    StripInsideTag(t, rest);
  }
}
