/**
 * The handful of Python `str` operations the core relies on, stated over
 * `string` (a sequence of Unicode characters, as a Python 3 `str` is).
 */
module PyStrings {

  /** `c.isspace()`: the characters that `str.split()` without an argument cuts at. */
  predicate IsSpace(c: char) {
    || c == ' '
    || ('\t' <= c <= '\r')
    || ('\U{1c}' <= c <= '\U{1f}')
    || c == '\U{85}' || c == '\U{a0}' || c == '\U{1680}'
    || ('\U{2000}' <= c <= '\U{200a}')
    || c == '\U{2028}' || c == '\U{2029}' || c == '\U{202f}' || c == '\U{205f}' || c == '\U{3000}'
  }

  /** `"".join(s.split())`: `s` with every whitespace character dropped, order kept. */
  function Squeeze(s: string): (r: string)
    ensures |r| <= |s|
    ensures forall c :: c in r <==> c in s && !IsSpace(c)
  {
    if s == [] then []
    else if IsSpace(s[0]) then Squeeze(s[1..])
    else [s[0]] + Squeeze(s[1..])
  }

  /**
   * Squeezing keeps every non-whitespace character as often as it occurs, so
   * `|Squeeze(s)|` is the number of non-whitespace characters of `s`.
   */
  lemma {:induction false} SqueezeCounts(s: string)
    ensures forall c :: multiset(Squeeze(s))[c] == if IsSpace(c) then 0 else multiset(s)[c]
  {
    if s != [] {
      SqueezeCounts(s[1..]);
      assert s == [s[0]] + s[1..];
    }
  }

  /** Squeezing a string without whitespace leaves it as it is. */
  lemma {:induction false} SqueezeNoSpace(s: string)
    requires forall i :: 0 <= i < |s| ==> !IsSpace(s[i])
    ensures Squeeze(s) == s
  {
    if s != [] {
      SqueezeNoSpace(s[1..]);
    }
  }

  /** `sep.join(parts)`. */
  function Join(parts: seq<string>, sep: string): string
  {
    if |parts| == 0 then ""
    else if |parts| == 1 then parts[0]
    else parts[0] + sep + Join(parts[1..], sep)
  }

  /** `s.split(" ")`: cut at every single space, keeping the empty pieces. */
  function SplitSpace(s: string): (r: seq<string>)
    ensures |r| >= 1
    ensures Join(r, " ") == s
    ensures forall t :: t in r ==> ' ' !in t
  {
    if s == [] then [""]
    else
      var rest := SplitSpace(s[1..]);
      if s[0] == ' ' then
        [""] + rest
      else
        assert rest == [rest[0]] + rest[1..];
        [[s[0]] + rest[0]] + rest[1..]
  }

  /** Splitting undoes joining: space-free pieces come back unchanged from `" ".join`. */
  lemma {:induction false} SplitJoin(parts: seq<string>)
    requires |parts| >= 1
    requires forall t :: t in parts ==> ' ' !in t
    ensures SplitSpace(Join(parts, " ")) == parts
  {
    if |parts| == 1 {
      SplitNoSpace(parts[0]);
    } else {
      SplitJoin(parts[1..]);
      SplitPrefix(parts[0], Join(parts[1..], " "));
    }
  }

  lemma {:induction false} SplitNoSpace(t: string)
    requires ' ' !in t
    ensures SplitSpace(t) == [t]
  {
    if t != [] {
      SplitNoSpace(t[1..]);
    }
  }

  lemma {:induction false} SplitPrefix(t: string, rest: string)
    requires ' ' !in t
    ensures SplitSpace(t + " " + rest) == [t] + SplitSpace(rest)
  {
    if t == [] {
      assert t + " " + rest == [' '] + rest;
    } else {
      var s := t + " " + rest;
      assert s[0] == t[0] && s[1..] == t[1..] + " " + rest;
      SplitPrefix(t[1..], rest);
      var r := SplitSpace(s[1..]);
      assert r[0] == t[1..] && r[1..] == SplitSpace(rest);
      assert [t[0]] + t[1..] == t;
    }
  }

  /** `list(s)`: every character as a one-character string. */
  function Chars(s: string): (r: seq<string>)
    ensures |r| == |s|
    ensures forall i :: 0 <= i < |s| ==> r[i] == [s[i]]
  {
    seq(|s|, i requires 0 <= i < |s| => [s[i]])
  }

  /** `"".join(parts)`. */
  function Concat(parts: seq<string>): string
  {
    if parts == [] then "" else parts[0] + Concat(parts[1..])
  }

  lemma {:induction false} ConcatAppend(a: seq<string>, b: seq<string>)
    ensures Concat(a + b) == Concat(a) + Concat(b)
  {
    if a != [] {
      assert (a + b)[0] == a[0];
      assert (a + b)[1..] == a[1..] + b;
      ConcatAppend(a[1..], b);
      calc {
        Concat(a + b);
        a[0] + Concat(a[1..] + b);
        a[0] + (Concat(a[1..]) + Concat(b));
        (a[0] + Concat(a[1..])) + Concat(b);
      }
    } else {
      assert a + b == b;
    }
  }

  /** Joining the characters of a string gives the string back. */
  lemma {:induction false} ConcatChars(s: string)
    ensures Concat(Chars(s)) == s
  {
    if s != [] {
      assert Chars(s)[1..] == Chars(s[1..]);
      ConcatChars(s[1..]);
    }
  }

  /** `s.lstrip("\n")`. */
  function LStripNewlines(s: string): (r: string)
    ensures |r| <= |s| && r == s[|s| - |r|..]
    ensures forall i :: 0 <= i < |s| - |r| ==> s[i] == '\n'
    ensures r == [] || r[0] != '\n'
  {
    if s != [] && s[0] == '\n' then LStripNewlines(s[1..]) else s
  }

  /** `s.rstrip("\n")`. */
  function RStripNewlines(s: string): (r: string)
    ensures |r| <= |s| && r == s[..|r|]
    ensures forall i :: |r| <= i < |s| ==> s[i] == '\n'
    ensures r == [] || r[|r| - 1] != '\n'
  {
    if s != [] && s[|s| - 1] == '\n' then RStripNewlines(s[..|s| - 1]) else s
  }

  /**
   * `r` is the piece of `s` starting at offset `i`, and everything of `s`
   * before and after that piece is a newline.
   */
  ghost predicate NewlinesAround(s: string, r: string, i: int)
  {
    && 0 <= i <= |s| - |r| && r == s[i..i + |r|]
    && (forall k :: 0 <= k < i ==> s[k] == '\n')
    && (forall k :: i + |r| <= k < |s| ==> s[k] == '\n')
  }

  /**
   * `s.strip("\n")`: the stretch of `s` left after removing every leading
   * and every trailing newline.
   */
  function StripNewlines(s: string): (r: string)
    ensures r == [] || (r[0] != '\n' && r[|r| - 1] != '\n')
    ensures exists i :: NewlinesAround(s, r, i)
  {
    var left := LStripNewlines(s);
    var r := RStripNewlines(left);
    var i := |s| - |left|;
    assert NewlinesAround(s, r, i);
    r
  }

  /** Stripping newlines leaves a string without newlines unchanged. */
  lemma StripWithoutNewlines(s: string)
    requires '\n' !in s
    ensures StripNewlines(s) == s
  {
    assert s == [] || s[0] != '\n';
    assert LStripNewlines(s) == s;
    assert s == [] || s[|s| - 1] != '\n';
  }

  /** `c.lower()` for ASCII and Latin-1 letters. */
  function LowerChar(c: char): char
  {
    if 'A' <= c <= 'Z' || ('\U{c0}' <= c <= '\U{de}' && c != '\U{d7}') then
      (c as int + 32) as char
    else
      c
  }

  /** `s.lower()`, character by character. */
  function Lower(s: string): (r: string)
    ensures |r| == |s|
    ensures forall i :: 0 <= i < |s| ==> r[i] == LowerChar(s[i])
  {
    seq(|s|, i requires 0 <= i < |s| => LowerChar(s[i]))
  }
}
