/**
 * Path utilities of the dasbox file-system layer: the separator test,
 * `combine_path`, `extract_dir` and `extract_file_name`.
 * Paths are plain character sequences; both '/' and '\\' separate.
 */
module Paths {
  import opened Wrappers

  /**
   * `is_slash`: the two directory separators. Neither is the C terminator nor
   * a dot, so reading the terminator never counts as a separator.
   */
  predicate IsSlash(c: char): (r: bool)
    ensures r ==> c != '\0' && c != '.'
  {
    c == '\\' || c == '/'
  }

  /** `strrchr(s, c)`: the index of the last `c` in `s`, or null. */
  function Strrchr(s: seq<char>, c: char): (k: Option<nat>)
    ensures k.Some? ==> k.value < |s| && s[k.value] == c
                        && forall j | k.value < j < |s| :: s[j] != c
    ensures k.None? ==> c !in s
  {
    if |s| == 0 then None
    else if s[|s| - 1] == c then Some(|s| - 1)
    else Strrchr(s[..|s| - 1], c)
  }

  /** `std::max` of two pointers into the same string, a null one being below any other. */
  function LaterPointer(a: Option<nat>, b: Option<nat>): Option<nat>
  {
    match (a, b)
    case (None, _) => b
    case (_, None) => a
    case (Some(i), Some(j)) => if i < j then b else a
  }

  /**
   * `std::max(strrchr(p, '/'), strrchr(p, '\\'))`: the later of the two
   * separators is the last separator of any kind.
   */
  function LastSeparator(s: seq<char>): (k: Option<nat>)
    ensures k.Some? ==> k.value < |s| && IsSlash(s[k.value])
                        && forall j | k.value < j < |s| :: !IsSlash(s[j])
    ensures k.None? ==> forall j | 0 <= j < |s| :: !IsSlash(s[j])
  {
    LaterPointer(Strrchr(s, '/'), Strrchr(s, '\\'))
  }

  /** A separator with none after it is the last separator. */
  lemma LastSeparatorAt(s: seq<char>, n: nat)
    requires n < |s| && IsSlash(s[n])
    requires forall j | n < j < |s| :: !IsSlash(s[j])
    ensures LastSeparator(s) == Some(n)
  {
  }

  /** `extract_dir`: everything before the last separator, or "" when there is none. */
  function ExtractDir(path: seq<char>): (dir: seq<char>)
    ensures LastSeparator(path).None? ==> dir == []
    ensures LastSeparator(path).Some? ==> |dir| < |path| && dir == path[..|dir|]
                                          && IsSlash(path[|dir|])
  {
    match LastSeparator(path)
    case None => []
    case Some(k) => path[..k]
  }

  /** `extract_file_name`: everything after the last separator, or the whole path. */
  function ExtractFileName(path: seq<char>): (name: seq<char>)
    ensures |name| <= |path| && name == path[|path| - |name|..]
    ensures forall j | 0 <= j < |name| :: !IsSlash(name[j])
  {
    match LastSeparator(path)
    case None => path
    case Some(k) => path[k + 1..]
  }

  /** Directory, separator and file name put back together give the path. */
  lemma SplitReassembles(path: seq<char>)
    requires LastSeparator(path).Some?
    ensures var k := LastSeparator(path).value;
            ExtractDir(path) + [path[k]] + ExtractFileName(path) == path
  {
    var k := LastSeparator(path).value;
    assert path == path[..k] + [path[k]] + path[k + 1..];
  }

  /** A path without separators is all file name and no directory. */
  lemma NoSeparatorIsFileName(path: seq<char>)
    requires forall j | 0 <= j < |path| :: !IsSlash(path[j])
    ensures ExtractDir(path) == [] && ExtractFileName(path) == path
  {
  }

  /**
   * The string `combine_path` pops separators off until none is last:
   * the longest prefix whose remainder is all separators.
   */
  function TrimTrailingSeparators(s: seq<char>): (r: seq<char>)
    ensures |r| <= |s| && r == s[..|r|]
    ensures r == [] || !IsSlash(r[|r| - 1])
    ensures forall i | |r| <= i < |s| :: IsSlash(s[i])
  {
    if |s| > 0 && IsSlash(s[|s| - 1]) then TrimTrailingSeparators(s[..|s| - 1]) else s
  }

  /** The three properties of TrimTrailingSeparators single out its result. */
  lemma TrimIsUnique(s: seq<char>, r: seq<char>)
    requires |r| <= |s| && r == s[..|r|]
    requires r == [] || !IsSlash(r[|r| - 1])
    requires forall i | |r| <= i < |s| :: IsSlash(s[i])
    ensures r == TrimTrailingSeparators(s)
  {
  }

  /** Separators appended to a path are all trimmed again. */
  lemma {:induction false} TrimIgnoresAppendedSeparators(s: seq<char>, seps: seq<char>)
    requires forall i | 0 <= i < |seps| :: IsSlash(seps[i])
    ensures TrimTrailingSeparators(s + seps) == TrimTrailingSeparators(s)
    decreases |seps|
  {
    if |seps| > 0 {
      var shorter := seps[..|seps| - 1];
      assert (s + seps)[..|s + seps| - 1] == s + shorter;
      TrimIgnoresAppendedSeparators(s, shorter);
    } else {
      assert s + seps == s;
    }
  }

  /** `combine_path`: drop the trailing separators of `path1`, then add '/' and `path2`. */
  method CombinePath(path1: seq<char>, path2: seq<char>) returns (res: seq<char>)
    ensures res == TrimTrailingSeparators(path1) + "/" + path2
  {
    res := path1;
    while |res| > 0 && (res[|res| - 1] == '/' || res[|res| - 1] == '\\')
      invariant TrimTrailingSeparators(res) == TrimTrailingSeparators(path1)
    {
      res := res[..|res| - 1];
    }
    res := res + "/";
    res := res + path2;
  }

  /** Any number of separators at the end of the directory does not change the join. */
  lemma CombineIgnoresTrailingSeparators(path1: seq<char>, seps: seq<char>, path2: seq<char>)
    requires forall i | 0 <= i < |seps| :: IsSlash(seps[i])
    ensures TrimTrailingSeparators(path1 + seps) + "/" + path2
         == TrimTrailingSeparators(path1) + "/" + path2
  {
    TrimIgnoresAppendedSeparators(path1, seps);
  }

  /** The worked examples of `combine_path`. */
  lemma CombineExamples()
    ensures TrimTrailingSeparators("dir/") + "/" + "x.das" == "dir/x.das"
    ensures TrimTrailingSeparators("dir") + "/" + "x.das" == "dir/x.das"
    ensures TrimTrailingSeparators("dir///") + "/" + "x" == "dir/x"
    ensures TrimTrailingSeparators("") + "/" + "x" == "/x"
  {
    assert "dir///"[..5] == "dir//" && "dir//"[..4] == "dir/" && "dir/"[..3] == "dir";
  }

  /** The worked examples of `extract_dir` and `extract_file_name`. */
  lemma ExtractExamples()
    ensures ExtractDir("a/b/c.das") == "a/b"
    ensures ExtractFileName("a/b/c.das") == "c.das"
    ensures ExtractDir("c.das") == "" && ExtractFileName("c.das") == "c.das"
  {
    assert "a/b/c.das"[3] == '/';
    assert forall j | 3 < j < 9 :: !IsSlash("a/b/c.das"[j]);
    assert LastSeparator("a/b/c.das") == Some(3);
    assert forall j | 0 <= j < 5 :: !IsSlash("c.das"[j]);
  }
}
