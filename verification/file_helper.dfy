/** `FileHelper.AddSuffix`: derives the report path from the downloaded file's
    path by replacing every occurrence of the file's stem (its name without
    directory and last extension) with the stem followed by a suffix. Paths
    use the Unix separator '/'. */
module FileHelper {
  import opened Wrappers
  import opened Errors
  import opened Text

  const Separator := '/'

  /** `s.LastIndexOf(c)`: -1 when `c` does not occur. */
  function LastIndexOf(c: char, s: string): (i: int)
    ensures -1 <= i < |s|
    ensures i >= 0 ==> s[i] == c
    ensures forall j :: i < j < |s| ==> s[j] != c
    decreases |s|
  {
    if |s| == 0 then -1
    else if s[|s| - 1] == c then |s| - 1
    else LastIndexOf(c, s[..|s| - 1])
  }

  /** Everything up to and including the last separator. */
  function Directory(path: string): string {
    path[..LastIndexOf(Separator, path) + 1]
  }

  /** `Path.GetFileName`: everything after the last separator. */
  function FileName(path: string): (name: string)
    ensures Separator !in name
  {
    var k := LastIndexOf(Separator, path);
    var name := path[k + 1..];
    assert Separator !in name by {
      forall j | 0 <= j < |name| ensures name[j] != Separator {
        assert name[j] == path[k + 1 + j];
      }
    }
    name
  }

  /** `Path.GetFileNameWithoutExtension`: the file name cut at its last '.'. */
  function Stem(path: string): (stem: string)
    ensures Separator !in stem
  {
    var name := FileName(path);
    var k := LastIndexOf('.', name);
    if k < 0 then name else name[..k]
  }

  /** The last extension of the file name, dot included, or "". */
  function Extension(path: string): string {
    var name := FileName(path);
    var k := LastIndexOf('.', name);
    if k < 0 then "" else name[k..]
  }

  /** A path is its directory, its stem and its extension, in that order. */
  lemma Decompose(path: string)
    ensures path == Directory(path) + Stem(path) + Extension(path)
    ensures |Directory(path)| == 0 || Directory(path)[|Directory(path)| - 1] == Separator
  {
    var k := LastIndexOf(Separator, path);
    var name := FileName(path);
    assert Directory(path) == path[..k + 1];
    assert name == path[k + 1..];
    assert path == path[..k + 1] + name;
    var d := LastIndexOf('.', name);
    if d >= 0 {
      assert Stem(path) == name[..d];
      assert Extension(path) == name[d..];
      assert name == name[..d] + name[d..];
    } else {
      assert Stem(path) == name;
      assert Extension(path) == "";
      assert name + "" == name;
    }
    assert name == Stem(path) + Extension(path);
  }

  /** `s.Replace(p, r)`: ordinal, left to right, non-overlapping. */
  function ReplaceAll(s: string, p: string, r: string): string
    requires |p| > 0
    decreases |s|
  {
    if |s| < |p| then s
    else if s[..|p|] == p then r + ReplaceAll(s[|p|..], p, r)
    else [s[0]] + ReplaceAll(s[1..], p, r)
  }

  /** How many occurrences `ReplaceAll` replaces. */
  function Occurrences(s: string, p: string): nat
    requires |p| > 0
    decreases |s|
  {
    if |s| < |p| then 0
    else if s[..|p|] == p then 1 + Occurrences(s[|p|..], p)
    else Occurrences(s[1..], p)
  }

  lemma MulStep(n: int, d: int)
    ensures (1 + n) * d == d + n * d
  {
  }

  /** Each replacement changes the length by |r| - |p|. */
  lemma {:induction false} ReplaceAllLength(s: string, p: string, r: string)
    requires |p| > 0
    ensures |ReplaceAll(s, p, r)| == |s| + Occurrences(s, p) * (|r| - |p|)
    decreases |s|
  {
    if |s| >= |p| {
      if s[..|p|] == p {
        var t := s[|p|..];
        ReplaceAllLength(t, p, r);
        assert ReplaceAll(s, p, r) == r + ReplaceAll(t, p, r);
        assert Occurrences(s, p) == 1 + Occurrences(t, p);
        MulStep(Occurrences(t, p), |r| - |p|);
      } else {
        ReplaceAllLength(s[1..], p, r);
        assert ReplaceAll(s, p, r) == [s[0]] + ReplaceAll(s[1..], p, r);
      }
    }
  }

  /** Replacing a text by itself changes nothing. */
  lemma {:induction false} ReplaceBySelf(s: string, p: string)
    requires |p| > 0
    ensures ReplaceAll(s, p, p) == s
    decreases |s|
  {
    if |s| >= |p| {
      if s[..|p|] == p {
        ReplaceBySelf(s[|p|..], p);
        assert s == s[..|p|] + s[|p|..];
      } else {
        ReplaceBySelf(s[1..], p);
        assert s == [s[0]] + s[1..];
      }
    }
  }

  /** Without occurrences, nothing is replaced. */
  lemma {:induction false} NoOccurrenceUnchanged(s: string, p: string, r: string)
    requires |p| > 0
    requires Occurrences(s, p) == 0
    ensures ReplaceAll(s, p, r) == s
    decreases |s|
  {
    if |s| >= |p| {
      ReplaceBySelfStep(s, p);
      NoOccurrenceUnchanged(s[1..], p, r);
      assert s == [s[0]] + s[1..];
    }
  }

  lemma ReplaceBySelfStep(s: string, p: string)
    requires |p| > 0 && |s| >= |p| && Occurrences(s, p) == 0
    ensures s[..|p|] != p && Occurrences(s[1..], p) == 0
  {
  }

  /** When `a` ends in a character `p` does not contain, no occurrence of `p`
      straddles the boundary, so `a` and `b` are rewritten independently. */
  lemma {:induction false} ReplaceAllSplits(a: string, b: string, p: string, r: string)
    requires |p| > 0
    requires |a| == 0 || a[|a| - 1] !in p
    ensures ReplaceAll(a + b, p, r) == ReplaceAll(a, p, r) + ReplaceAll(b, p, r)
    ensures Occurrences(a + b, p) == Occurrences(a, p) + Occurrences(b, p)
    decreases |a|
  {
    var s := a + b;
    if |a| == 0 {
      assert s == b;
    } else if |s| < |p| {
      assert ReplaceAll(a, p, r) == a && ReplaceAll(b, p, r) == b;
    } else if s[..|p|] == p {
      NoStraddle(a, b, p);
      ReplaceAllSplitsMatch(a, b, p, r);
    } else if |a| >= |p| {
      PrefixOfLonger(a, b, |p|);
      ReplaceAllSplitsSkipLong(a, b, p, r);
    } else {
      ReplaceAllSplitsSkipShort(a, b, p, r);
    }
  }

  /** An occurrence at the start of `a + b` cannot run past the end of `a`
      when the last character of `a` is not in `p`. */
  lemma NoStraddle(a: string, b: string, p: string)
    requires 0 < |a| && a[|a| - 1] !in p
    requires |a + b| >= |p| > 0 && (a + b)[..|p|] == p
    ensures |p| <= |a|
  {
    if |p| > |a| {
      LastCharInPrefix(a, b, |p|);
      assert false;
    }
  }

  lemma LastCharInPrefix(a: string, b: string, n: int)
    requires 0 < |a| <= n <= |a + b|
    ensures a[|a| - 1] in (a + b)[..n]
  {
    assert (a + b)[..n][|a| - 1] == a[|a| - 1];
  }

  /** The step of `ReplaceAllSplits` where `a` starts with an occurrence. */
  lemma {:induction false} ReplaceAllSplitsMatch(a: string, b: string, p: string, r: string)
    requires 0 < |p| <= |a| && a[|a| - 1] !in p && (a + b)[..|p|] == p
    ensures ReplaceAll(a + b, p, r) == ReplaceAll(a, p, r) + ReplaceAll(b, p, r)
    ensures Occurrences(a + b, p) == Occurrences(a, p) + Occurrences(b, p)
    decreases |a|, 0
  {
    var s := a + b;
    assert a[..|p|] == s[..|p|];
    assert s[|p|..] == a[|p|..] + b;
    var t := a[|p|..];
    assert |t| == 0 || t[|t| - 1] == a[|a| - 1];
    ReplaceAllSplits(t, b, p, r);
    assert ReplaceAll(s, p, r) == r + ReplaceAll(t + b, p, r);
    assert ReplaceAll(a, p, r) == r + ReplaceAll(t, p, r);
  }

  /** The step of `ReplaceAllSplits` where `a` is long enough but does not
      start with an occurrence. */
  lemma {:induction false} ReplaceAllSplitsSkipLong(a: string, b: string, p: string, r: string)
    requires 0 < |p| <= |a| && a[|a| - 1] !in p && (a + b)[..|p|] != p && a[..|p|] != p
    ensures ReplaceAll(a + b, p, r) == ReplaceAll(a, p, r) + ReplaceAll(b, p, r)
    ensures Occurrences(a + b, p) == Occurrences(a, p) + Occurrences(b, p)
    decreases |a|, 0
  {
    var s := a + b;
    var t := a[1..];
    assert s[0] == a[0] && s[1..] == t + b;
    assert |t| == 0 || t[|t| - 1] == a[|a| - 1];
    ReplaceAllSplits(t, b, p, r);
    SkipStep(s, p, r);
    SkipStep(a, p, r);
    var x, y := ReplaceAll(t, p, r), ReplaceAll(b, p, r);
    assert [a[0]] + (x + y) == ([a[0]] + x) + y;
  }

  lemma PrefixOfLonger(a: string, b: string, n: nat)
    requires n <= |a|
    ensures (a + b)[..n] == a[..n]
  {
  }

  /** Unfolding both functions once where `s` does not start with `p`. */
  lemma SkipStep(s: string, p: string, r: string)
    requires 0 < |p| <= |s| && s[..|p|] != p
    ensures ReplaceAll(s, p, r) == [s[0]] + ReplaceAll(s[1..], p, r)
    ensures Occurrences(s, p) == Occurrences(s[1..], p)
  {
  }

  /** The step of `ReplaceAllSplits` where `a` is shorter than `p`. */
  lemma {:induction false} ReplaceAllSplitsSkipShort(a: string, b: string, p: string, r: string)
    requires 0 < |a| < |p| && a[|a| - 1] !in p && |a + b| >= |p| && (a + b)[..|p|] != p
    ensures ReplaceAll(a + b, p, r) == ReplaceAll(a, p, r) + ReplaceAll(b, p, r)
    ensures Occurrences(a + b, p) == Occurrences(a, p) + Occurrences(b, p)
    decreases |a|, 0
  {
    var s := a + b;
    var t := a[1..];
    assert s[1..] == t + b;
    assert |t| == 0 || t[|t| - 1] == a[|a| - 1];
    ReplaceAllSplits(t, b, p, r);
    assert ReplaceAll(s, p, r) == [s[0]] + ReplaceAll(t + b, p, r);
    assert ReplaceAll(t, p, r) == t && ReplaceAll(a, p, r) == a;
    assert a == [a[0]] + t;
  }

  /** `AddSuffix(filePath, suffix)`. A null or whitespace path is refused; an
      empty stem (a path ending in '/', or a name like ".csv") makes the
      replacement refuse its empty search text. */
  function AddSuffix(filePath: Option<string>, suffix: string): (r: Result<string, Exn>)
    ensures r.Failure? <==> IsNullOrWhiteSpace(filePath) || |Stem(filePath.value)| == 0
    ensures IsNullOrWhiteSpace(filePath) ==>
      r == Failure(Argument("'filePath' cannot be null or whitespace.", "filePath"))
    ensures r.Success? ==>
      |r.value| == |filePath.value| + Occurrences(filePath.value, Stem(filePath.value)) * |suffix|
  {
    if IsNullOrWhiteSpace(filePath) then
      Failure(Argument("'filePath' cannot be null or whitespace.", "filePath"))
    else
      var path := filePath.value;
      var stem := Stem(path);
      if |stem| == 0 then Failure(Argument("String cannot be of zero length.", "oldValue"))
      else
        ReplaceAllLength(path, stem, stem + suffix);
        Success(ReplaceAll(path, stem, stem + suffix))
  }

  lemma StemFirst(stem: string, ext: string, r: string)
    requires |stem| > 0
    ensures ReplaceAll(stem + ext, stem, r) == r + ReplaceAll(ext, stem, r)
    ensures Occurrences(stem + ext, stem) == 1 + Occurrences(ext, stem)
  {
    assert (stem + ext)[..|stem|] == stem;
    assert (stem + ext)[|stem|..] == ext;
  }

  lemma ReplaceAround(dir: string, stem: string, ext: string, r: string)
    requires |stem| > 0 && (|dir| == 0 || dir[|dir| - 1] !in stem)
    ensures ReplaceAll(dir + stem + ext, stem, r)
         == ReplaceAll(dir, stem, r) + r + ReplaceAll(ext, stem, r)
    ensures Occurrences(dir + stem + ext, stem)
         == Occurrences(dir, stem) + 1 + Occurrences(ext, stem)
  {
    assert dir + stem + ext == dir + (stem + ext);
    ReplaceAllSplits(dir, stem + ext, stem, r);
    StemFirst(stem, ext, r);
  }

  /** Rewriting a path's stem splits at the directory and at the end of the
      stem. */
  lemma ReplaceStem(path: string, r: string)
    requires |Stem(path)| > 0
    ensures var stem := Stem(path);
      && ReplaceAll(path, stem, r)
           == ReplaceAll(Directory(path), stem, r) + r + ReplaceAll(Extension(path), stem, r)
      && Occurrences(path, stem)
           == Occurrences(Directory(path), stem) + 1 + Occurrences(Extension(path), stem)
  {
    var stem, dir, ext := Stem(path), Directory(path), Extension(path);
    Decompose(path);
    assert |dir| == 0 || dir[|dir| - 1] !in stem;
    ReplaceAround(dir, stem, ext, r);
  }

  /** On a valid path the result is the whole-path replacement. */
  lemma AddSuffixValue(path: string, suffix: string)
    requires !IsNullOrWhiteSpace(Some(path)) && |Stem(path)| > 0
    ensures AddSuffix(Some(path), suffix) == Success(ReplaceAll(path, Stem(path), Stem(path) + suffix))
  {
  }

  lemma ConcatAround(d: string, stem: string, suffix: string, e: string)
    ensures d + (stem + suffix) + e == d + stem + suffix + e
  {
  }

  /** The file's own stem always receives the suffix and keeps its extension;
      occurrences of the stem in the directory part or in the extension are
      rewritten as well, since the replacement covers the whole path. */
  lemma AddSuffixShape(path: string, suffix: string)
    requires !IsNullOrWhiteSpace(Some(path)) && |Stem(path)| > 0
    ensures var stem := Stem(path);
      && AddSuffix(Some(path), suffix) == Success(
           ReplaceAll(Directory(path), stem, stem + suffix) + stem + suffix
           + ReplaceAll(Extension(path), stem, stem + suffix))
      && Occurrences(path, stem)
           == Occurrences(Directory(path), stem) + 1 + Occurrences(Extension(path), stem)
  {
    var stem := Stem(path);
    var r := stem + suffix;
    ReplaceStem(path, r);
    AddSuffixValue(path, suffix);
    ConcatAround(ReplaceAll(Directory(path), stem, r), stem, suffix, ReplaceAll(Extension(path), stem, r));
  }

  /** When the stem occurs exactly once, the result is directory, stem,
      suffix and extension. */
  lemma AddSuffixSingleOccurrence(path: string, suffix: string)
    requires !IsNullOrWhiteSpace(Some(path)) && |Stem(path)| > 0
    requires Occurrences(path, Stem(path)) == 1
    ensures AddSuffix(Some(path), suffix) == Success(Directory(path) + Stem(path) + suffix + Extension(path))
  {
    var stem := Stem(path);
    AddSuffixShape(path, suffix);
    NoOccurrenceUnchanged(Directory(path), stem, stem + suffix);
    NoOccurrenceUnchanged(Extension(path), stem, stem + suffix);
  }

  /** An empty suffix leaves a valid path unchanged. */
  lemma EmptySuffixIsIdentity(path: string)
    requires !IsNullOrWhiteSpace(Some(path)) && |Stem(path)| > 0
    ensures AddSuffix(Some(path), "") == Success(path)
  {
    var stem := Stem(path);
    assert stem + "" == stem;
    ReplaceBySelf(path, stem);
  }
}
