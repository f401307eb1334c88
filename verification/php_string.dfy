/**
 The byte-level PHP string built-ins the command relies on: the ASCII letter
 class used by its regular expression, `trim`, and `strtolower`.

 PHP strings are byte strings and, since PHP 8, `strtolower`, `ucfirst` and
 `ucwords` only change the ASCII letters. A string here is a `seq<char>`; only
 the ASCII range is ever inspected, every other character is "not a letter".
 */
module PhpString {

  predicate IsAsciiUpper(c: char) { 'A' <= c <= 'Z' }

  predicate IsAsciiLower(c: char) { 'a' <= c <= 'z' }

  /** The character class `[a-zA-Z]`. */
  predicate IsAsciiLetter(c: char) { IsAsciiUpper(c) || IsAsciiLower(c) }

  /** Byte-wise `toupper`: maps `a`..`z` to `A`..`Z` and leaves every other character alone. */
  function ToUpper(c: char): (u: char)
    ensures IsAsciiLetter(c) ==> IsAsciiUpper(u)
    ensures IsAsciiLetter(u) <==> IsAsciiLetter(c)
    ensures !IsAsciiLower(c) ==> u == c
    ensures IsAsciiLower(c) ==> u as int == c as int - 32
  {
    if IsAsciiLower(c) then (c as int - 32) as char else c
  }

  /** Byte-wise `tolower`: maps `A`..`Z` to `a`..`z` and leaves every other character alone. */
  function ToLower(c: char): (l: char)
    ensures IsAsciiLetter(c) ==> IsAsciiLower(l)
    ensures IsAsciiLetter(l) <==> IsAsciiLetter(c)
    ensures !IsAsciiUpper(c) ==> l == c
    ensures IsAsciiUpper(c) ==> l as int == c as int + 32
  {
    if IsAsciiUpper(c) then (c as int + 32) as char else c
  }

  /** `strtolower`: the string with every ASCII capital replaced by its small letter. */
  function Lower(s: string): (r: string)
    ensures |r| == |s|
    ensures forall i :: 0 <= i < |s| ==> r[i] == ToLower(s[i])
  {
    if s == [] then [] else [ToLower(s[0])] + Lower(s[1..])
  }

  /** The characters `trim` strips by default: space, tab, newline, carriage return, NUL and vertical tab. */
  predicate IsTrimmable(c: char)
  {
    c == ' ' || c == '\t' || c == '\n' || c == '\r' || c == '\0' || c == 11 as char
  }

  /** `ltrim`: drops the leading trimmable characters. */
  function TrimLeft(s: string): (r: string)
    ensures |r| <= |s|
    ensures r != [] ==> !IsTrimmable(r[0])
  {
    if s != [] && IsTrimmable(s[0]) then TrimLeft(s[1..]) else s
  }

  /** `rtrim`: drops the trailing trimmable characters. */
  function TrimRight(s: string): (r: string)
    ensures |r| <= |s|
  {
    if s != [] && IsTrimmable(s[|s| - 1]) then TrimRight(s[..|s| - 1]) else s
  }

  /** What `ltrim` keeps is a suffix of its input, and everything before it is trimmable. */
  lemma {:induction false} TrimLeftIsSuffix(s: string)
    ensures TrimLeft(s) == s[|s| - |TrimLeft(s)|..]
    ensures forall k :: 0 <= k < |s| - |TrimLeft(s)| ==> IsTrimmable(s[k])
  {
    if s != [] && IsTrimmable(s[0]) {
      TrimLeftIsSuffix(s[1..]);
      forall k | 0 <= k < |s| - |TrimLeft(s)|
        ensures IsTrimmable(s[k])
      {
        if k > 0 {
          assert s[k] == s[1..][k - 1];
        }
      }
    }
  }

  /** What `rtrim` keeps is a prefix of its input that does not end in a trimmable character, and everything after it is trimmable. */
  lemma {:induction false} TrimRightIsPrefix(s: string)
    ensures TrimRight(s) == s[..|TrimRight(s)|]
    ensures forall k :: |TrimRight(s)| <= k < |s| ==> IsTrimmable(s[k])
    ensures TrimRight(s) != [] ==> !IsTrimmable(TrimRight(s)[|TrimRight(s)| - 1])
  {
    if s != [] && IsTrimmable(s[|s| - 1]) {
      var p := s[..|s| - 1];
      TrimRightIsPrefix(p);
      assert TrimRight(s) == TrimRight(p);
      forall k | |TrimRight(s)| <= k < |s|
        ensures IsTrimmable(s[k])
      {
        if k < |s| - 1 {
          assert s[k] == p[k];
        }
      }
    }
  }

  /** `trim`: the longest infix of the input that neither starts nor ends with a trimmable character. */
  function Trim(s: string): (r: string)
    ensures r != [] ==> !IsTrimmable(r[0]) && !IsTrimmable(r[|r| - 1])
  {
    var l := TrimLeft(s);
    TrimRightIsPrefix(l);
    TrimRight(l)
  }

  /** Everything `trim` removes is trimmable, and what it keeps is the contiguous piece `s[i..j]` of the input. */
  lemma {:induction false} TrimKeepsInfix(s: string)
    ensures var i := |s| - |TrimLeft(s)|;
            var j := i + |Trim(s)|;
            && j <= |s|
            && Trim(s) == s[i..j]
            && (forall k :: 0 <= k < i ==> IsTrimmable(s[k]))
            && (forall k :: j <= k < |s| ==> IsTrimmable(s[k]))
  {
    var l := TrimLeft(s);
    var t := TrimRight(l);
    TrimLeftIsSuffix(s);
    TrimRightIsPrefix(l);
    assert Trim(s) == t;
    SuffixPrefix(s, l, t);
  }

  /** A prefix `t` of a suffix `l` of `s` is an infix of `s`, and what follows `t` in `l` follows it in `s`. */
  lemma {:induction false} SuffixPrefix(s: string, l: string, t: string)
    requires |l| <= |s| && l == s[|s| - |l|..]
    requires |t| <= |l| && t == l[..|t|]
    requires forall k :: |t| <= k < |l| ==> IsTrimmable(l[k])
    ensures var i := |s| - |l|;
            && t == s[i..i + |t|]
            && (forall k :: i + |t| <= k < |s| ==> IsTrimmable(s[k]))
  {
    var i := |s| - |l|;
    forall k | i + |t| <= k < |s|
      ensures IsTrimmable(s[k])
    {
      assert s[k] == l[k - i];
    }
  }
}
