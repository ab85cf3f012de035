/** The Python string operations the pipeline relies on: `str.isspace`, `str.strip`,
    `str.lower().endswith`, `str.join` and, as the inverse of the join, `str.split`. */
module Text {

  /** Python's `str.isspace()` on one character: the characters `str.strip()` removes. */
  predicate IsSpace(c: char) {
    var n := c as int;
    n == 0x20 || 0x09 <= n <= 0x0D || 0x1C <= n <= 0x1F || n == 0x85 || n == 0xA0
    || n == 0x1680 || 0x2000 <= n <= 0x200A || n == 0x2028 || n == 0x2029
    || n == 0x202F || n == 0x205F || n == 0x3000
  }

  /** Every character of `s` is whitespace (vacuously true of ""). */
  predicate IsBlank(s: string) {
    forall i :: 0 <= i < |s| ==> IsSpace(s[i])
  }

  /** The number of whitespace characters `s` starts with. */
  function LeadingSpaces(s: string): (n: nat)
    ensures n <= |s| && IsBlank(s[..n])
    ensures n == |s| || !IsSpace(s[n])
  {
    if s != [] && IsSpace(s[0]) then
      var m := LeadingSpaces(s[1..]);
      assert s[..m + 1] == [s[0]] + s[1..][..m];
      1 + m
    else 0
  }

  /** The length of `s` without the whitespace it ends with. */
  function TrailingStart(s: string): (n: nat)
    ensures n <= |s| && IsBlank(s[n..])
    ensures n == 0 || !IsSpace(s[n - 1])
  {
    if s != [] && IsSpace(s[|s| - 1]) then
      var m := TrailingStart(s[..|s| - 1]);
      assert forall k :: m <= k < |s| - 1 ==> s[k] == s[..|s| - 1][k];
      m
    else |s|
  }

  /** Python's `str.strip()` with no argument: what is left neither starts nor ends with
      whitespace. */
  function Strip(s: string): (r: string)
    ensures |r| <= |s|
    ensures r == [] || (!IsSpace(r[0]) && !IsSpace(r[|r| - 1]))
  {
    var i := LeadingSpaces(s);
    var t := s[i..];
    var n := TrailingStart(t);
    assert n > 0 ==> t[..n][0] == s[i] && t[..n][n - 1] == t[n - 1];
    t[..n]
  }

  /** `str.strip()` removes exactly a whitespace prefix and a whitespace suffix. */
  lemma StripRemovesOnlyOuterWhitespace(s: string)
    ensures (exists i, j :: 0 <= i <= j <= |s| && Strip(s) == s[i..j]
               && IsBlank(s[..i]) && IsBlank(s[j..]))
  {
    var i := LeadingSpaces(s);
    var t := s[i..];
    var n := TrailingStart(t);
    var j := i + n;
    var r := t[..n];
    assert Strip(s) == r;
    assert r == s[i..j];
    assert s[j..] == t[n..];
    assert IsBlank(s[..i]) && IsBlank(s[j..]);
  }

  /** `not s.strip()` holds exactly when `s` is empty or all whitespace. */
  lemma StripEmptyIffBlank(s: string)
    ensures Strip(s) == [] <==> IsBlank(s)
  {
    var i := LeadingSpaces(s);
    var t := s[i..];
    if IsBlank(s) {
      assert i == |s|;
    } else {
      var k :| 0 <= k < |s| && !IsSpace(s[k]);
      assert i <= k;
      assert !IsSpace(t[k - i]);
      assert k - i < TrailingStart(t);
    }
  }

  /** Python's `c.lower()` on the ASCII letters; every other character is kept. */
  function Lower(c: char): char {
    if 'A' <= c <= 'Z' then (c as int + 32) as char else c
  }

  /** Python's `s.lower()`, character by character. */
  function LowerAll(s: string): (r: string)
    ensures |r| == |s|
  {
    seq(|s|, i requires 0 <= i < |s| => Lower(s[i]))
  }

  /** Python's `s.endswith(suffix)`. */
  predicate EndsWith(s: string, suffix: string) {
    |suffix| <= |s| && s[|s| - |suffix|..] == suffix
  }

  /** Python's `s.lower().endswith(suffix)`. */
  predicate LowerEndsWith(s: string, suffix: string) {
    EndsWith(LowerAll(s), suffix)
  }

  /** Python's `sep.join(parts)`: the text starts with the first part and ends with the
      last. */
  function Join(parts: seq<string>, sep: string): (r: string)
    ensures parts != [] ==> parts[0] <= r
  {
    if parts == [] then ""
    else if |parts| == 1 then parts[0]
    else parts[0] + sep + Join(parts[1..], sep)
  }

  /** Python's `s.split(sep)` for a non-empty separator: the pieces between the
      non-overlapping occurrences of `sep`, scanned from the left. */
  function Split(s: string, sep: string): (r: seq<string>)
    requires sep != []
    ensures r != []
    decreases |s|
  {
    if |s| < |sep| then [s]
    else if s[..|sep|] == sep then [""] + Split(s[|sep|..], sep)
    else
      var rest := Split(s[1..], sep);
      [[s[0]] + rest[0]] + rest[1..]
  }

  /** A prefix free of the separator's first character is glued to the first piece. */
  lemma {:induction false} SplitKeepsPlainPrefix(p: string, t: string, sep: string)
    requires sep != [] && sep[0] !in p
    ensures Split(p + t, sep) == [p + Split(t, sep)[0]] + Split(t, sep)[1..]
    decreases |p|
  {
    if p != [] {
      var s := p + t;
      assert s[0] == p[0] && s[1..] == p[1..] + t;
      if |s| >= |sep| {
        assert s[..|sep|][0] != sep[0];
        SplitKeepsPlainPrefix(p[1..], t, sep);
        assert [s[0]] + (p[1..] + Split(t, sep)[0]) == p + Split(t, sep)[0];
      } else {
        assert Split(t, sep) == [t] && Split(s, sep) == [s];
      }
    } else {
      var r := Split(t, sep);
      assert p + t == t && p + r[0] == r[0] && r == [r[0]] + r[1..];
    }
  }

  /** Splitting a join recovers the parts, provided there is at least one part and no part
      contains the separator's first character. */
  lemma {:induction false} SplitJoin(parts: seq<string>, sep: string)
    requires sep != [] && parts != []
    requires forall k :: 0 <= k < |parts| ==> sep[0] !in parts[k]
    ensures Split(Join(parts, sep), sep) == parts
    decreases |parts|
  {
    if |parts| == 1 {
      SplitKeepsPlainPrefix(parts[0], "", sep);
      assert parts[0] + "" == parts[0];
    } else {
      var rest := Join(parts[1..], sep);
      assert Join(parts, sep) == parts[0] + (sep + rest);
      SplitKeepsPlainPrefix(parts[0], sep + rest, sep);
      assert (sep + rest)[..|sep|] == sep && (sep + rest)[|sep|..] == rest;
      assert Split(sep + rest, sep) == [""] + Split(rest, sep);
      SplitJoin(parts[1..], sep);
      assert parts[0] + "" == parts[0];
      assert ([""] + Split(rest, sep))[1..] == parts[1..];
      assert parts == [parts[0]] + parts[1..];
    }
  }
}
