/** The string operations of the Python standard library that the validator
    relies on: `str.strip()`, `str.lower()` on ASCII letters, `str.rsplit('.', 1)`,
    `os.path.basename`, `str.join` and, as the inverse used to state what a
    joined rendering holds, `str.split`. */
module Text {
  import opened Wrappers

  /** The characters Python's `str.isspace()` accepts, which is the set
      `str.strip()` removes when called without arguments. */
  predicate IsSpace(c: char) {
    var n := c as int;
    (0x09 <= n <= 0x0D) || (0x1C <= n <= 0x20) || n == 0x85 || n == 0xA0 ||
    n == 0x1680 || (0x2000 <= n <= 0x200A) || n == 0x2028 || n == 0x2029 ||
    n == 0x202F || n == 0x205F || n == 0x3000
  }

  /** `s.lstrip()`: the suffix left after every leading space is removed. */
  function StripLeading(s: string): (r: string)
    ensures |r| <= |s| && r == s[|s| - |r|..]
    ensures r == [] || !IsSpace(r[0])
    ensures forall k | 0 <= k < |s| - |r| :: IsSpace(s[k])
  {
    if s != [] && IsSpace(s[0]) then StripLeading(s[1..]) else s
  }

  /** `s.rstrip()`: the prefix left after every trailing space is removed. */
  function StripTrailing(s: string): (r: string)
    ensures |r| <= |s| && r == s[..|r|]
    ensures r == [] || !IsSpace(r[|r| - 1])
    ensures forall k | |r| <= k < |s| :: IsSpace(s[k])
  {
    if s != [] && IsSpace(s[|s| - 1]) then StripTrailing(s[..|s| - 1]) else s
  }

  /** `s.strip()`. */
  function Strip(s: string): string {
    StripTrailing(StripLeading(s))
  }

  /** `s.strip()` is the middle part of `s` between its leading and its
      trailing run of spaces; it is empty exactly when `s` is blank. */
  lemma StripSpec(s: string)
    ensures var r := Strip(s);
      && (r == [] || (!IsSpace(r[0]) && !IsSpace(r[|r| - 1])))
      && (r == [] <==> forall k | 0 <= k < |s| :: IsSpace(s[k]))
      && exists i :: Surrounds(s, r, i)
  {
    var l := StripLeading(s);
    var r := StripTrailing(l);
    var i := |s| - |l|;
    assert r == s[i..i + |r|];
    forall k | i + |r| <= k < |s| ensures IsSpace(s[k]) {
      assert s[k] == l[k - i];
    }
    assert Surrounds(s, r, i);
    if r != [] {
      assert s[i] == r[0];
    }
  }

  /** `s` is `r` with only spaces before it (the first `i` characters) and
      after it. */
  predicate Surrounds(s: string, r: string, i: nat) {
    && i + |r| <= |s|
    && r == s[i..i + |r|]
    && (forall k | 0 <= k < i :: IsSpace(s[k]))
    && (forall k | i + |r| <= k < |s| :: IsSpace(s[k]))
  }

  /** Python's `str.lower()` restricted to the letters A-Z; every other
      character is returned unchanged. */
  function LowerChar(c: char): char {
    if 'A' <= c <= 'Z' then (c as int + 32) as char else c
  }

  /** `s.lower()`, character by character. */
  function Lower(s: string): string {
    seq(|s|, k requires 0 <= k < |s| => LowerChar(s[k]))
  }

  /** The position of the last occurrence of `c` in `s`, if any; the split
      point of `s.rsplit(c, 1)`. */
  function LastIndexOf(s: string, c: char): (r: Option<nat>)
    ensures r.None? <==> c !in s
    ensures r.Some? ==> r.value < |s| && s[r.value] == c
    ensures r.Some? ==> forall k | r.value < k < |s| :: s[k] != c
  {
    if s == [] then None
    else if s[|s| - 1] == c then Some(|s| - 1)
    else
      var r := LastIndexOf(s[..|s| - 1], c);
      assert s == s[..|s| - 1] + [s[|s| - 1]];
      r
  }

  /** The separators Windows' `os.path.basename` splits on. */
  predicate IsSeparator(c: char) {
    c == '/' || c == '\\'
  }

  /** `os.path.basename(p)`: what follows the last path separator. */
  function Basename(p: string): string {
    if p == [] || IsSeparator(p[|p| - 1]) then []
    else Basename(p[..|p| - 1]) + [p[|p| - 1]]
  }

  /** The base name is the longest suffix of `p` without a separator: it is
      a suffix, holds no separator, and is either all of `p` or preceded by
      a separator. */
  lemma {:induction false} BasenameSpec(p: string)
    ensures var b := Basename(p);
      && |b| <= |p| && b == p[|p| - |b|..]
      && (forall k | 0 <= k < |b| :: !IsSeparator(b[k]))
      && (|b| < |p| ==> IsSeparator(p[|p| - |b| - 1]))
    decreases |p|
  {
    if p != [] && !IsSeparator(p[|p| - 1]) {
      BasenameSpec(p[..|p| - 1]);
    }
  }

  /** `sep.join(parts)`. */
  function Join(sep: string, parts: seq<string>): string {
    if |parts| == 0 then []
    else if |parts| == 1 then parts[0]
    else parts[0] + sep + Join(sep, parts[1..])
  }

  /** `sep` occurs in `s` starting at position `i`. */
  predicate MatchAt(s: string, sep: string, i: nat) {
    i + |sep| <= |s| && s[i..i + |sep|] == sep
  }

  /** `s.find(sep)` for a non-empty `sep`: the leftmost occurrence. */
  function IndexOf(s: string, sep: string): (r: Option<nat>)
    requires sep != []
    ensures r.Some? ==> MatchAt(s, sep, r.value)
    ensures r.Some? ==> forall j | 0 <= j < r.value :: !MatchAt(s, sep, j)
    ensures r.None? ==> forall j | 0 <= j <= |s| :: !MatchAt(s, sep, j)
    decreases |s|
  {
    if |s| < |sep| then None
    else if s[..|sep|] == sep then Some(0)
    else
      match IndexOf(s[1..], sep)
      case None =>
        assert forall j | 1 <= j <= |s| :: MatchAt(s, sep, j) ==> MatchAt(s[1..], sep, j - 1);
        None
      case Some(i) =>
        assert s[i + 1..i + 1 + |sep|] == s[1..][i..i + |sep|];
        assert forall j | 1 <= j < i + 1 :: MatchAt(s, sep, j) ==> MatchAt(s[1..], sep, j - 1);
        Some(i + 1)
  }

  /** `s.split(sep)` for a non-empty `sep`. */
  function Split(s: string, sep: string): seq<string>
    requires sep != []
    decreases |s|
  {
    match IndexOf(s, sep)
    case None => [s]
    case Some(i) => [s[..i]] + Split(s[i + |sep|..], sep)
  }

  /** `sep[p]` occurs in `sep` only at position `p`. */
  predicate UniqueAt(sep: string, p: nat) {
    p < |sep| && forall q | 0 <= q < |sep| && q != p :: sep[q] != sep[p]
  }

  /** A string without `sep[p]` does not contain `sep`. */
  lemma {:induction false} NoMatchWithout(x: string, sep: string, p: nat)
    requires UniqueAt(sep, p) && sep[p] !in x
    ensures forall j | 0 <= j <= |x| :: !MatchAt(x, sep, j)
  {
    forall j | 0 <= j <= |x| ensures !MatchAt(x, sep, j) {
      if j + |sep| <= |x| {
        assert x[j..j + |sep|][p] == x[j + p] != sep[p];
      }
    }
  }

  /** In `x + sep + rest` the first occurrence of `sep` is the one after `x`
      when `x` lacks the unique character of `sep`. */
  lemma FirstMatchAfter(x: string, sep: string, p: nat, rest: string)
    requires UniqueAt(sep, p) && sep[p] !in x
    ensures IndexOf(x + sep + rest, sep) == Some(|x|)
  {
    var s := x + sep + rest;
    assert s[|x|..|x| + |sep|] == sep;
    forall j | 0 <= j < |x| ensures !MatchAt(s, sep, j) {
      if j + |sep| <= |s| {
        assert s[j..j + |sep|][p] == s[j + p];
        if j + p < |x| {
          assert s[j + p] == x[j + p] != sep[p];
        } else {
          assert s[j + p] == sep[j + p - |x|] != sep[p];
        }
      }
    }
    var r := IndexOf(s, sep);
    assert MatchAt(s, sep, |x|);
    assert r.Some? && r.value <= |x|;
  }

  /** Splitting a joined string gives the parts back, when the separator has
      a character that occurs once in it and in none of the parts: the
      `, ` and ` | ` renderings of the exports are read back this way. */
  lemma {:induction false} SplitJoin(sep: string, p: nat, parts: seq<string>)
    requires UniqueAt(sep, p)
    requires |parts| > 0
    requires forall i | 0 <= i < |parts| :: sep[p] !in parts[i]
    ensures Split(Join(sep, parts), sep) == parts
    decreases |parts|
  {
    var x := parts[0];
    if |parts| == 1 {
      NoMatchWithout(x, sep, p);
      assert Join(sep, parts) == x;
    } else {
      var rest := Join(sep, parts[1..]);
      var s := x + sep + rest;
      assert Join(sep, parts) == s;
      FirstMatchAfter(x, sep, p, rest);
      assert s[..|x|] == x;
      assert s[|x| + |sep|..] == rest;
      assert Split(s, sep) == [x] + Split(rest, sep);
      SplitJoin(sep, p, parts[1..]);
      assert [x] + parts[1..] == parts;
    }
  }
}
