/**
 * `is_path_string_valid`: the sandbox check that decides whether a script may
 * name a path. The process-wide `trust_mode` flag is an explicit parameter and
 * a null `const char *` is `None`.
 */
module PathValidator {
  import opened Wrappers
  import opened CStrings
  import opened Paths

  /** A separator not followed by another one: the last of a run of separators. */
  predicate EndsSeparatorRun(p: CString, i: nat)
    requires i < |p|
  {
    IsSlash(p[i]) && !IsSlash(At(p, i + 1))
  }

  /** The two characters at `i` are "..", overlapping occurrences included. */
  predicate DotDotAt(p: CString, i: nat)
    requires i < |p|
  {
    p[i] == '.' && At(p, i + 1) == '.'
  }

  /** The change to the depth counter made while at index `i`. */
  function Step(p: CString, i: nat): int
    requires i < |p|
  {
    (if EndsSeparatorRun(p, i) then 1 else 0) - (if DotDotAt(p, i) then 1 else 0)
  }

  /** The depth counter once the first `k` characters are scanned. */
  function Depth(p: CString, k: nat): int
    requires k <= |p|
  {
    if k == 0 then 0 else Depth(p, k - 1) + Step(p, k - 1)
  }

  /** The scan never takes the depth counter below zero. */
  predicate StaysInsideRoot(p: CString)
  {
    forall k | 1 <= k <= |p| :: Depth(p, k) >= 0
  }

  /** The rejections made before the scan: a ':', a leading '/', "~/" or "../" (or "..\\"). */
  predicate RejectedUpFront(p: CString)
    requires |p| > 0
  {
    || ':' in p
    || p[0] == '/'
    || (p[0] == '~' && At(p, 1) == '/')
    || (p[0] == '.' && At(p, 1) == '.' && IsSlash(At(p, 2)))
  }

  /** The verdict of `is_path_string_valid`. */
  predicate PathStringValid(trustMode: bool, path: Option<CString>)
  {
    || trustMode
    || path.None?
    || |path.value| == 0
    || (!RejectedUpFront(path.value) && StaysInsideRoot(path.value))
  }

  /** `is_path_string_valid`, with its early returns and its scan over the depth counter. */
  method IsPathStringValid(trustMode: bool, path: Option<CString>) returns (valid: bool)
    ensures valid == PathStringValid(trustMode, path)
  {
    if trustMode {
      return true;
    }
    if path.None? || |path.value| == 0 {
      return true;
    }
    var p := path.value;
    if ':' in p {
      return false;
    }
    if p[0] == '/' || (p[0] == '~' && At(p, 1) == '/') {
      return false;
    }
    if p[0] == '.' && At(p, 1) == '.' && IsSlash(At(p, 2)) {
      return false;
    }
    var len := |p|;
    var depth := 0;
    var i := 0;
    while i < len
      invariant 0 <= i <= len
      invariant depth == Depth(p, i)
      invariant forall k | 1 <= k <= i :: Depth(p, k) >= 0
    {
      if IsSlash(p[i]) && !IsSlash(At(p, i + 1)) {
        depth := depth + 1;
      }
      if p[i] == '.' && At(p, i + 1) == '.' {
        depth := depth - 1;
      }
      if depth < 0 {
        assert Depth(p, i + 1) < 0;
        return false;
      }
      i := i + 1;
    }
    return true;
  }

  /** The early rules: trust accepts all, null and "" are valid, ':' '/' "~/" "../" are not. */
  lemma EarlyRules(trustMode: bool, p: CString)
    ensures trustMode ==> PathStringValid(trustMode, Some(p))
    ensures PathStringValid(trustMode, None) && PathStringValid(trustMode, Some([]))
    ensures !trustMode && ':' in p ==> !PathStringValid(trustMode, Some(p))
    ensures !trustMode && |p| > 0 && p[0] == '/' ==> !PathStringValid(trustMode, Some(p))
    ensures !trustMode && |p| > 1 && p[..2] == "~/" ==> !PathStringValid(trustMode, Some(p))
    ensures !trustMode && |p| > 2 && p[..2] == ".." && IsSlash(p[2])
            ==> !PathStringValid(trustMode, Some(p))
  {
    if |p| > 1 && p[..2] == "~/" {
      assert p[0] == '~' && p[1] == '/';
    }
    if |p| > 2 && p[..2] == ".." {
      assert p[0] == '.' && p[1] == '.';
    }
  }

  /**
   * The "../" rejection is already implied by the scan: any untrusted path
   * that starts with ".." is invalid, whatever follows it.
   */
  lemma LeadingDotDotRejected(p: CString)
    requires |p| >= 2 && p[0] == '.' && p[1] == '.'
    ensures Depth(p, 1) == -1
    ensures !PathStringValid(false, Some(p))
  {
    assert Depth(p, 1) == Depth(p, 0) + Step(p, 0);
  }

  /**
   * Why an untrusted, non-empty path is rejected: a ':', a leading '/' or
   * "~/", or the scan. The "../" rule never decides alone.
   */
  lemma RejectionReasons(trustMode: bool, p: CString)
    requires p != [] && !PathStringValid(trustMode, Some(p))
    ensures !trustMode
    ensures ':' in p || p[0] == '/' || (|p| > 1 && p[..2] == "~/") || !StaysInsideRoot(p)
  {
    if |p| > 1 && p[0] == '~' && p[1] == '/' {
      assert p[..2] == "~/";
    }
    if p[0] == '.' && At(p, 1) == '.' {
      LeadingDotDotRejected(p);
    }
  }

  /** With no ".." anywhere the counter never goes down. */
  lemma {:induction false} DepthWithoutDotDot(p: CString, k: nat)
    requires k <= |p|
    requires forall i | 0 <= i < k :: !DotDotAt(p, i)
    ensures Depth(p, k) >= 0
  {
    if k > 0 {
      DepthWithoutDotDot(p, k - 1);
    }
  }

  /** An untrusted path that passes the early rules and has no ".." is valid. */
  lemma ValidWithoutDotDot(p: CString)
    requires |p| > 0 && !RejectedUpFront(p)
    requires forall i | 0 <= i < |p| :: !DotDotAt(p, i)
    ensures PathStringValid(false, Some(p))
  {
    forall k | 1 <= k <= |p|
      ensures Depth(p, k) >= 0
    {
      DepthWithoutDotDot(p, k);
    }
  }

  /** The indices below `k` that end a run of separators. */
  function RunEnds(p: CString, k: nat): set<nat>
    requires k <= |p|
  {
    set i: nat | i < k && EndsSeparatorRun(p, i)
  }

  /** The indices below `k` where ".." occurs. */
  function DotDots(p: CString, k: nat): set<nat>
    requires k <= |p|
  {
    set i: nat | i < k && DotDotAt(p, i)
  }

  /**
   * The counter as a count: one up for every run of separators (however long),
   * one down for every "..", overlapping ones counted separately.
   */
  lemma {:induction false} DepthCounts(p: CString, k: nat)
    requires k <= |p|
    ensures Depth(p, k) == |RunEnds(p, k)| - |DotDots(p, k)|
  {
    if k == 0 {
      assert RunEnds(p, 0) == {};
      assert DotDots(p, 0) == {};
    } else {
      DepthCounts(p, k - 1);
      var i := k - 1;
      assert RunEnds(p, k) == RunEnds(p, i) + (if EndsSeparatorRun(p, i) then {i} else {});
      assert DotDots(p, k) == DotDots(p, i) + (if DotDotAt(p, i) then {i} else {});
    }
  }

  /**
   * The scan rejects exactly when, in some prefix, the ".." occurrences
   * outnumber the runs of separators.
   */
  lemma ScanRejectsWhenDotDotsOutnumberRuns(p: CString)
    ensures StaysInsideRoot(p) <==>
            forall k | 1 <= k <= |p| :: |DotDots(p, k)| <= |RunEnds(p, k)|
  {
    forall k | 1 <= k <= |p|
      ensures Depth(p, k) == |RunEnds(p, k)| - |DotDots(p, k)|
    {
      DepthCounts(p, k);
    }
  }

  /** "a/b", "a/../b" and "a/.." stay inside the root. */
  lemma AcceptedExamples()
    ensures PathStringValid(false, Some("a/b"))
    ensures PathStringValid(false, Some("a/../b"))
    ensures PathStringValid(false, Some("a/.."))
  {
    var p: CString := "a/../b";
    assert Depth(p, 1) == 0 && Depth(p, 2) == 1 && Depth(p, 3) == 0 && Depth(p, 4) == 0;
    assert Depth(p, 5) == 1 && Depth(p, 6) == 1;
    p := "a/..";
    assert Depth(p, 1) == 0 && Depth(p, 2) == 1 && Depth(p, 3) == 0 && Depth(p, 4) == 0;
    p := "a/b";
    assert Depth(p, 1) == 0 && Depth(p, 2) == 1 && Depth(p, 3) == 1;
  }

  /**
   * Each '/' after a ".." counts again, so "a/../../b", which names a file
   * beside the root, is accepted.
   */
  lemma EscapeAfterReentryAccepted()
    ensures PathStringValid(false, Some("a/../../b"))
  {
    var p: CString := "a/../../b";
    assert Depth(p, 1) == 0 && Depth(p, 2) == 1 && Depth(p, 3) == 0 && Depth(p, 4) == 0;
    assert Depth(p, 5) == 1 && Depth(p, 6) == 0 && Depth(p, 7) == 0 && Depth(p, 8) == 1;
    assert Depth(p, 9) == 1;
  }

  /**
   * Rejected examples: a leading "..", and "..." which holds two overlapping
   * ".." and takes the counter down twice, and ".." inside a file name.
   */
  lemma RejectedExamples()
    ensures !PathStringValid(false, Some("../a"))
    ensures !PathStringValid(false, Some("..a"))
    ensures !PathStringValid(false, Some("a/..."))
    ensures !PathStringValid(false, Some("a/...."))
    ensures !PathStringValid(false, Some("notes..txt"))
  {
    LeadingDotDotRejected("..a");
    var p: CString := "a/...";
    assert Depth(p, 4) == -1;
    p := "a/....";
    assert Depth(p, 4) == -1;
    p := "notes..txt";
    assert Depth(p, 6) == -1;
  }

  /** Depth of `a + "//" + b` in terms of the depth of `a + "/" + b`. */
  lemma {:induction false} DoubledSeparatorDepth(a: CString, b: CString, k: nat)
    requires k <= |a| + 1 + |b|
    ensures k <= |a| ==> Depth(a + "//" + b, k) == Depth(a + "/" + b, k)
    ensures k >= |a| ==> Depth(a + "//" + b, k + 1) == Depth(a + "/" + b, k)
  {
    var p: CString, q: CString := a + "/" + b, a + "//" + b;
    var n := |a|;
    if k == 0 {
      if n == 0 {
        assert Depth(q, 1) == Step(q, 0) == 0;
      }
    } else {
      DoubledSeparatorDepth(a, b, k - 1);
      var i := k - 1;
      if k <= n {
        assert p[i] == q[i] && At(p, i + 1) == At(q, i + 1);
        assert Step(q, i) == Step(p, i);
      } else {
        if k == n + 1 {
          assert Step(q, n) == 0;
          assert Depth(q, n + 1) == Depth(p, n);
        }
        assert q[i + 1] == p[i] && At(q, i + 2) == At(p, i + 1);
        assert Step(q, i + 1) == Step(p, i);
      }
    }
  }

  /** Only the last separator of a run counts: doubling a separator changes no verdict. */
  lemma SeparatorRunCountsOnce(trustMode: bool, a: CString, b: CString)
    ensures PathStringValid(trustMode, Some(a + "//" + b))
        == PathStringValid(trustMode, Some(a + "/" + b))
  {
    var p: CString, q: CString := a + "/" + b, a + "//" + b;
    var n := |a|;
    assert ':' in p <==> ':' in q;
    forall k | 0 <= k <= |p|
      ensures k <= n ==> Depth(q, k) == Depth(p, k)
      ensures k >= n ==> Depth(q, k + 1) == Depth(p, k)
    {
      DoubledSeparatorDepth(a, b, k);
    }
    if StaysInsideRoot(p) {
      forall k | 1 <= k <= |q|
        ensures Depth(q, k) >= 0
      {
        if k > n {
          assert Depth(q, (k - 1) + 1) == Depth(p, k - 1);
        }
      }
    }
    if StaysInsideRoot(q) {
      forall k | 1 <= k <= |p|
        ensures Depth(p, k) >= 0
      {
        if k >= n {
          assert Depth(q, k + 1) == Depth(p, k);
        }
      }
    }
    if n >= 1 {
      assert p[0] == q[0];
      assert At(p, 1) == '/' <==> At(q, 1) == '/';
      assert At(p, 1) == '.' ==> At(q, 1) == '.' && n >= 2;
      assert n >= 2 && At(p, 1) == '.' ==> IsSlash(At(p, 2)) == IsSlash(At(q, 2));
    }
  }
}
