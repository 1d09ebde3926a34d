/**
 * NUL-terminated C strings as Dafny sequences, and the few <cstring> routines
 * the file-system layer relies on (strncmp-prefix tests, strstr).
 */
module CStrings {

  /** The characters of a C string up to, not including, its terminator. */
  type CString = s: seq<char> | '\0' !in s

  /**
   * Reading `s[i]` in C: index |s| is the terminator. Nothing beyond it is
   * ever read by the code modelled here.
   */
  function At(s: CString, i: nat): char
    requires i <= |s|
  {
    if i < |s| then s[i] else '\0'
  }

  /** `strncmp(s, t, |t|) == 0` for a literal `t` without NUL. */
  predicate StartsWith(s: seq<char>, t: seq<char>)
  {
    |t| <= |s| && s[..|t|] == t
  }

  /** `strstr(s, t) != NULL`: `t` occurs in `s` at some position. */
  predicate Contains(s: seq<char>, t: seq<char>)
    decreases |s|
  {
    StartsWith(s, t) || (|s| > 0 && Contains(s[1..], t))
  }

  /** Whatever occurs in a prefix occurs in the string. */
  lemma StartsWithKeepsChars(s: seq<char>, t: seq<char>, c: char)
    requires StartsWith(s, t) && c in t
    ensures c in s
  {
    var j :| 0 <= j < |t| && t[j] == c;
    assert s[j] == s[..|t|][j];
  }

  /** Whatever occurs inside an occurrence of `t` occurs in `s`. */
  lemma {:induction false} ContainsKeepsChars(s: seq<char>, t: seq<char>, c: char)
    requires Contains(s, t) && c in t
    ensures c in s
    decreases |s|
  {
    if StartsWith(s, t) {
      StartsWithKeepsChars(s, t, c);
    } else {
      ContainsKeepsChars(s[1..], t, c);
      assert s == [s[0]] + s[1..];
    }
  }

  /** An occurrence at the front of the second part is an occurrence in the whole. */
  lemma {:induction false} ContainsAfterPrefix(a: seq<char>, b: seq<char>, t: seq<char>)
    requires StartsWith(b, t)
    ensures Contains(a + b, t)
    decreases |a|
  {
    if |a| == 0 {
      assert a + b == b;
    } else {
      assert (a + b)[1..] == a[1..] + b;
      ContainsAfterPrefix(a[1..], b, t);
    }
  }
}
