/** The Python `str` operations the label code relies on, over ASCII:
    `split`, `strip`, `upper`, `in`, `isdigit`, `startswith` and
    single-character `replace`. `Find` (the scan behind `split`) and `Join`
    (the inverse of `split`) are helpers for stating and proving them. */
module PyStr {

  /** Whitespace as `str.strip()` sees it within ASCII: tab, line feed,
      vertical tab, form feed, carriage return, the separators 0x1C-0x1F
      and space. */
  predicate IsSpace(c: char) {
    ('\t' <= c <= '\r') || (28 <= c as int <= 31) || c == ' '
  }

  /** Index of the first `c` in `s`, or `|s|` when `s` has none. */
  function Find(s: string, c: char): (i: nat)
    ensures i <= |s|
    ensures i < |s| ==> s[i] == c
    ensures forall k :: 0 <= k < i ==> s[k] != c
    ensures i == |s| <==> c !in s
  {
    if |s| == 0 then 0
    else if s[0] == c then 0
    else
      var j := Find(s[1..], c);
      assert forall k :: 1 <= k < 1 + j ==> s[k] == s[1..][k - 1];
      1 + j
  }

  /** `s.split(sep)`: the pieces between occurrences of `sep`, always at
      least one piece, empty pieces kept. */
  function Split(s: string, sep: char): (parts: seq<string>)
    ensures |parts| >= 1
    ensures forall k :: 0 <= k < |parts| ==> sep !in parts[k]
    decreases |s|
  {
    var i := Find(s, sep);
    if i == |s| then [s]
    else
      assert sep !in s[..i] by {
        forall k | 0 <= k < i ensures s[..i][k] != sep { }
      }
      [s[..i]] + Split(s[i + 1..], sep)
  }

  /** `sep.join(parts)`, the inverse of `Split`. */
  function Join(parts: seq<string>, sep: char): string
  {
    if |parts| == 0 then ""
    else if |parts| == 1 then parts[0]
    else parts[0] + [sep] + Join(parts[1..], sep)
  }

  /** Joining the pieces of a split gives back the original text. */
  lemma {:induction false} JoinSplit(s: string, sep: char)
    ensures Join(Split(s, sep), sep) == s
    decreases |s|
  {
    var i := Find(s, sep);
    if i < |s| {
      var tail := s[i + 1..];
      var rest := Split(tail, sep);
      var parts := Split(s, sep);
      assert parts == [s[..i]] + rest;
      assert parts[0] == s[..i] && parts[1..] == rest;
      JoinSplit(tail, sep);
      assert Join(parts, sep) == s[..i] + [sep] + tail;
      assert s == s[..i] + [sep] + tail;
    }
  }

  /** Splitting a join of separator-free pieces gives back the pieces. */
  lemma {:induction false} SplitJoin(parts: seq<string>, sep: char)
    requires |parts| >= 1
    requires forall k :: 0 <= k < |parts| ==> sep !in parts[k]
    ensures Split(Join(parts, sep), sep) == parts
  {
    var s := Join(parts, sep);
    var head := parts[0];
    if |parts| == 1 {
      assert Find(s, sep) == |s|;
    } else {
      var tail := Join(parts[1..], sep);
      assert s == head + [sep] + tail;
      assert s[|head|] == sep;
      assert forall k :: 0 <= k < |head| ==> s[k] == head[k];
      assert Find(s, sep) == |head|;
      assert s[..|head|] == head;
      assert s[|head| + 1..] == tail;
      SplitJoin(parts[1..], sep);
      assert parts == [head] + parts[1..];
    }
  }

  /** There is more than one piece exactly when the separator occurs. */
  lemma SplitHasSecondPiece(s: string, sep: char)
    ensures |Split(s, sep)| > 1 <==> sep in s
  {
  }

  /** The first piece runs up to the first separator; the second piece,
      when there is one, runs from the first separator to the second (or
      to the end). */
  lemma SplitPieces(s: string, sep: char)
    ensures Split(s, sep)[0] == s[..Find(s, sep)]
    ensures sep in s ==>
      var rest := s[Find(s, sep) + 1..];
      |Split(s, sep)| > 1 && Split(s, sep)[1] == rest[..Find(rest, sep)]
  {
  }

  /** Number of leading whitespace characters of `s`. */
  function LeadingSpaces(s: string): (n: nat)
    ensures n <= |s|
    ensures forall k :: 0 <= k < n ==> IsSpace(s[k])
    ensures n < |s| ==> !IsSpace(s[n])
  {
    if |s| > 0 && IsSpace(s[0]) then
      var m := LeadingSpaces(s[1..]);
      assert forall k :: 1 <= k < 1 + m ==> s[k] == s[1..][k - 1];
      1 + m
    else 0
  }

  /** Number of trailing whitespace characters of `s`. */
  function TrailingSpaces(s: string): (n: nat)
    ensures n <= |s|
    ensures forall k :: |s| - n <= k < |s| ==> IsSpace(s[k])
    ensures n < |s| ==> !IsSpace(s[|s| - n - 1])
  {
    if |s| > 0 && IsSpace(s[|s| - 1]) then
      var m := TrailingSpaces(s[..|s| - 1]);
      assert forall k :: |s| - 1 - m <= k < |s| - 1 ==> s[k] == s[..|s| - 1][k];
      1 + m
    else 0
  }

  /** Neither starts nor ends with whitespace. */
  predicate IsTrimmed(s: string) {
    s == [] || (!IsSpace(s[0]) && !IsSpace(s[|s| - 1]))
  }

  /** `s.strip()`: `s` without its leading and trailing whitespace. The
      result is the infix of `s` starting after the leading whitespace;
      everything after it is whitespace, and it neither starts nor ends
      with whitespace. */
  function Strip(s: string): (r: string)
    ensures LeadingSpaces(s) + |r| <= |s|
    ensures r == s[LeadingSpaces(s)..LeadingSpaces(s) + |r|]
    ensures forall k :: LeadingSpaces(s) + |r| <= k < |s| ==> IsSpace(s[k])
    ensures IsTrimmed(r)
  {
    var t := s[LeadingSpaces(s)..];
    var n := TrailingSpaces(t);
    assert forall k :: LeadingSpaces(s) + |t| - n <= k < |s| ==> s[k] == t[k - LeadingSpaces(s)];
    t[..|t| - n]
  }

  /** Text without whitespace at either end is left alone by `Strip`. */
  lemma StripKeepsTrimmed(s: string)
    requires IsTrimmed(s)
    ensures Strip(s) == s
  {
    assert LeadingSpaces(s) == 0;
    assert TrailingSpaces(s) == 0;
  }

  /** Stripping twice is the same as stripping once. */
  lemma StripIdempotent(s: string)
    ensures Strip(Strip(s)) == Strip(s)
  {
    StripKeepsTrimmed(Strip(s));
  }

  /** ASCII upper-casing of one character. */
  function UpperChar(c: char): char
  {
    if 'a' <= c <= 'z' then (c as int - 32) as char else c
  }

  /** `s.upper()` on ASCII: every character upper-cased in place. */
  function Upper(s: string): (r: string)
    ensures |r| == |s|
    ensures forall k :: 0 <= k < |s| ==>
      if 'a' <= s[k] <= 'z' then r[k] as int == s[k] as int - 32 else r[k] == s[k]
  {
    if |s| == 0 then "" else [UpperChar(s[0])] + Upper(s[1..])
  }

  /** Python's `pat in s`: `pat` occurs in `s` as a contiguous infix. */
  predicate Contains(s: string, pat: string)
    decreases |s|
  {
    pat <= s || (|s| > 0 && Contains(s[1..], pat))
  }

  /** `Contains` holds exactly when `pat` starts at some position of `s`. */
  lemma {:induction false} ContainsAt(s: string, pat: string)
    ensures Contains(s, pat) <==> exists i :: 0 <= i <= |s| && pat <= s[i..]
    decreases |s|
  {
    if pat <= s {
      assert s[0..] == s;
    } else if |s| > 0 {
      ContainsAt(s[1..], pat);
      if Contains(s[1..], pat) {
        var j :| 0 <= j <= |s| - 1 && pat <= s[1..][j..];
        assert s[1..][j..] == s[j + 1..];
      }
      if i :| 0 <= i <= |s| && pat <= s[i..] {
        assert i != 0;
        assert s[1..][i - 1..] == s[i..];
      }
    }
  }

  /** A pattern whose first character is absent from `s` does not occur
      in `s`. */
  lemma {:induction false} NotContainsWithoutHead(s: string, pat: string)
    requires |pat| > 0 && pat[0] !in s
    ensures !Contains(s, pat)
    decreases |s|
  {
    if |s| > 0 {
      assert s[0] in s;
      assert forall x :: x in s[1..] ==> x in s;
      NotContainsWithoutHead(s[1..], pat);
    }
  }

  /** `s.isdigit()` on ASCII: non-empty and every character a decimal digit. */
  predicate IsDigits(s: string) {
    |s| > 0 && forall k :: 0 <= k < |s| ==> '0' <= s[k] <= '9'
  }

  /** `s.startswith(prefix)`. */
  predicate StartsWith(s: string, prefix: string) {
    prefix <= s
  }

  /** `s.replace(target, replacement)` for single characters: every
      occurrence replaced, every other character kept in place. */
  function ReplaceChar(s: string, target: char, replacement: char): (r: string)
    ensures |r| == |s|
    ensures forall k :: 0 <= k < |s| ==> r[k] == (if s[k] == target then replacement else s[k])
  {
    if |s| == 0 then ""
    else [if s[0] == target then replacement else s[0]] + ReplaceChar(s[1..], target, replacement)
  }

  /** After replacing a character by a different one, it no longer occurs. */
  lemma ReplaceCharRemoves(s: string, target: char, replacement: char)
    requires target != replacement
    ensures target !in ReplaceChar(s, target, replacement)
  {
    var r := ReplaceChar(s, target, replacement);
    forall k | 0 <= k < |r| ensures r[k] != target { }
  }
}
