/** The parts of Python's `posixpath` the batch runner uses to name its CSV files:
    `basename`, `dirname`, the root half of `splitext`, and `join` of two parts. */
module Paths {
  import opened Strings

  /** `os.path.basename(p)`: the text after the last '/'. */
  function Basename(p: string): string {
    AfterLast(p, '/')
  }

  /** A base name holds no '/'. */
  lemma BasenameNoSlash(p: string)
    ensures NoChar(Basename(p), '/')
  {
    AfterLastNoSep(p, '/');
  }

  /** `p[:p.rfind('/') + 1]`: everything up to and including the last '/'. */
  function Head(p: string): string {
    p[..LastIndex(p, '/') + 1]
  }

  /** A path is its head followed by its base name. */
  lemma HeadBasename(p: string)
    ensures Head(p) + Basename(p) == p
  {
    var i := LastIndex(p, '/') + 1;
    assert p[..i] + p[i..] == p;
  }

  /** Every character is a '/'. */
  predicate AllSlashes(s: string) {
    forall k :: 0 <= k < |s| ==> s[k] == '/'
  }

  /** The length of the first `n` characters of `s` once trailing '/' are stripped. */
  function TrimmedLength(s: string, n: nat): (m: nat)
    requires n <= |s|
    ensures m <= n
    ensures m > 0 ==> s[m - 1] != '/'
    ensures forall k :: m <= k < n ==> s[k] == '/'
  {
    if n > 0 && s[n - 1] == '/' then TrimmedLength(s, n - 1) else n
  }

  /** `os.path.dirname(p)`: the head with its trailing '/' stripped, unless the head consists
      of slashes only ("/" or "//" stay as they are). */
  function Dirname(p: string): (r: string)
    ensures |r| <= |Head(p)| && p[..|r|] == r
    ensures forall k :: |r| <= k < |Head(p)| ==> p[k] == '/'
    ensures |r| > 0 && r[|r| - 1] == '/' ==> AllSlashes(r)
  {
    var head := Head(p);
    if |head| > 0 && !AllSlashes(head) then head[..TrimmedLength(head, |head|)] else head
  }

  /** `os.path.join(a, b)`: an absolute `b` replaces `a`; otherwise a '/' is put between them
      unless `a` is empty or already ends with one. */
  function JoinPath(a: string, b: string): string {
    if |b| > 0 && b[0] == '/' then b
    else if a == [] || a[|a| - 1] == '/' then a + b
    else a + "/" + b
  }

  /** A join ends with its second part, and is that part alone when it is absolute. */
  lemma JoinEndsWith(a: string, b: string)
    ensures EndsWith(JoinPath(a, b), b)
    ensures StartsWith(b, "/") ==> JoinPath(a, b) == b
  {
    var r := JoinPath(a, b);
    if StartsWith(b, "/") {
      assert b[0] == b[..1][0];
    }
    assert r[|r| - |b|..] == b;
  }

  /** The base name of a join is the joined part when that part has no '/'. */
  lemma BasenameOfJoin(a: string, b: string)
    requires NoChar(b, '/')
    ensures Basename(JoinPath(a, b)) == b
  {
    var r := JoinPath(a, b);
    if a == [] {
      assert r == b;
    } else if a[|a| - 1] == '/' {
      assert r == a + b && r[|a| - 1] == '/';
      assert r[|a|..] == b;
      AfterLastSkipsPrefix(r, '/', |a| - 1);
    } else {
      assert r == a + "/" + b && r[|a|] == '/';
      assert r[|a| + 1..] == b;
      AfterLastSkipsPrefix(r, '/', |a|);
    }
    AfterLastWithoutSep(b, '/');
  }

  /** When the last '/' follows some other character, the directory name is everything before
      that '/'. */
  lemma DirnameAtLastSlash(p: string)
    requires LastIndex(p, '/') > 0 && p[LastIndex(p, '/') - 1] != '/'
    ensures Dirname(p) == p[..LastIndex(p, '/')]
  {
    var i := LastIndex(p, '/');
    var head := Head(p);
    assert head[i] == '/' && head[i - 1] != '/';
    assert TrimmedLength(head, |head|) == i;
  }

  /** A path whose last '/' follows a character other than '/' is the join of its directory
      name and its base name. */
  lemma DirnameBasenameJoin(p: string)
    requires LastIndex(p, '/') != 0
    requires LastIndex(p, '/') > 0 ==> p[LastIndex(p, '/') - 1] != '/'
    ensures JoinPath(Dirname(p), Basename(p)) == p
  {
    var i := LastIndex(p, '/');
    var base := Basename(p);
    HeadBasename(p);
    BasenameNoSlash(p);
    if i == -1 {
      assert Dirname(p) == [];
    } else {
      DirnameAtLastSlash(p);
      var dir := p[..i];
      assert Head(p) == dir + "/";
    }
  }

  /** The index of the first character at or after `from` that is not `c`, or `|s|`. */
  function FirstOther(s: string, c: char, from: nat): (r: nat)
    requires from <= |s|
    ensures from <= r <= |s|
    ensures r < |s| ==> s[r] != c
    ensures forall j :: from <= j < r ==> s[j] == c
    decreases |s| - from
  {
    if from == |s| || s[from] != c then from else FirstOther(s, c, from + 1)
  }

  /** Where `os.path.splitext(p)` cuts `p`: at the last '.' of the base name, provided some
      character other than '.' precedes it in the base name; otherwise at the end. */
  function ExtStart(p: string): (r: nat)
    ensures r <= |p|
    ensures r < |p| ==> p[r] == '.'
  {
    var sepIndex := LastIndex(p, '/');
    var dotIndex := LastIndex(p, '.');
    if dotIndex > sepIndex && FirstOther(p, '.', sepIndex + 1) < dotIndex then dotIndex else |p|
  }

  /** `os.path.splitext(p)[0]`. */
  function Root(p: string): (r: string)
    ensures |r| <= |p| && p[..|r|] == r
  {
    p[..ExtStart(p)]
  }

  /** `os.path.splitext(p)[1]`; the root and the extension make up the path. */
  function Ext(p: string): (r: string)
    ensures Root(p) + r == p
  {
    var i := ExtStart(p);
    assert p[..i] + p[i..] == p;
    p[i..]
  }

  /** An extension is empty, or one '.' followed by characters that are neither '.' nor '/'. */
  lemma ExtShape(p: string)
    ensures var e := Ext(p); e == [] || (e[0] == '.' && NoChar(e[1..], '.') && NoChar(e, '/'))
  {
    LastIndexIsLast(p, '.');
    LastIndexIsLast(p, '/');
    var i := ExtStart(p);
    var e := Ext(p);
    forall k | 0 <= k < |e|
      ensures e[k] == p[i + k]
    {
    }
  }

  /** A base name without '.' has no extension. */
  lemma RootWithoutDot(p: string)
    requires NoChar(p, '.')
    ensures Root(p) == p
  {
  }

  /** A base name made of dots and then a name without dots (".bashrc", "..x") has no extension. */
  lemma RootLeadingDots(dots: string, name: string)
    requires forall k :: 0 <= k < |dots| ==> dots[k] == '.'
    requires NoChar(name, '.') && NoChar(name, '/')
    ensures Root(dots + name) == dots + name
  {
    var p := dots + name;
    assert NoChar(p, '/');
    LastIndexUnique(p, '/', -1);
    assert LastIndex(p, '.') < |dots|;
  }

  /** A base name with a non-dot character before its last '.' loses exactly the extension. */
  lemma RootCutsExtension(stem: string, ext: string)
    requires |stem| > 0 && stem[0] != '.' && NoChar(stem, '/')
    requires NoChar(ext, '.') && NoChar(ext, '/')
    ensures Root(stem + "." + ext) == stem
  {
    var p := stem + "." + ext;
    assert p[|stem|] == '.';
    forall j | |stem| < j < |p|
      ensures p[j] != '.' && p[j] != '/'
    {
      assert p[j] == ext[j - |stem| - 1];
    }
    forall j | 0 <= j < |p|
      ensures p[j] != '/'
    {
      if j < |stem| {
        assert p[j] == stem[j];
      }
    }
    LastIndexUnique(p, '/', -1);
    LastIndexUnique(p, '.', |stem|);
    assert p[0] == stem[0];
    assert FirstOther(p, '.', 0) == 0;
  }

  /** The file name part of a scene path without its extension. */
  function Stem(p: string): string {
    Root(Basename(p))
  }

  /** A stem holds no '/'. */
  lemma StemNoSlash(p: string)
    ensures NoChar(Stem(p), '/')
  {
    var base := Basename(p);
    BasenameNoSlash(p);
    NoCharPrefix(base, ExtStart(base), '/');
  }

  /** The suffix every result file name carries. */
  const CsvSuffix: string := "_check_results.csv"

  /** `f"{scene_name}_check_results.csv"`. */
  function CsvName(stem: string): (r: string)
    ensures EndsWith(r, CsvSuffix)
  {
    var r := stem + CsvSuffix;
    assert r[|stem|..] == CsvSuffix;
    r
  }

  /** The suffix holds no '/'. */
  lemma CsvSuffixNoSlash()
    ensures NoChar(CsvSuffix, '/')
  {
    forall k | 0 <= k < |CsvSuffix|
      ensures CsvSuffix[k] != '/'
    {
    }
  }

  /** A result file name built from a stem without '/' holds no '/'. */
  lemma CsvNameNoSlash(stem: string)
    requires NoChar(stem, '/')
    ensures NoChar(CsvName(stem), '/')
  {
    CsvSuffixNoSlash();
    NoCharConcat(stem, CsvSuffix, '/');
  }

  /** `run_batch_check`'s output name when none is given: named after the open scene, or
      "untitled" when the scene has no name yet. */
  function DefaultCsvName(currentScene: string): string {
    if currentScene != [] then CsvName(Stem(currentScene)) else CsvName("untitled")
  }

  /** The default output is a result file name without a directory part. */
  lemma DefaultCsvNameIsLocal(currentScene: string)
    ensures NoChar(DefaultCsvName(currentScene), '/')
    ensures EndsWith(DefaultCsvName(currentScene), CsvSuffix)
  {
    if currentScene != [] {
      StemNoSlash(currentScene);
      CsvNameNoSlash(Stem(currentScene));
    } else {
      var untitled := "untitled";
      forall k | 0 <= k < |untitled|
        ensures untitled[k] != '/'
      {
      }
      CsvNameNoSlash(untitled);
    }
  }

  /** `batch_check_multiple_files`' output path for one scene: in `outputDir` when one is given
      (an empty string counts as none), else beside the scene. */
  function OutputPath(outputDir: string, sceneFile: string): string {
    var dir := if outputDir != [] then outputDir else Dirname(sceneFile);
    JoinPath(dir, CsvName(Stem(sceneFile)))
  }

  /** Wherever it goes, the output file is named after the scene's file name. */
  lemma OutputPathBasename(outputDir: string, sceneFile: string)
    ensures Basename(OutputPath(outputDir, sceneFile)) == CsvName(Stem(sceneFile))
  {
    var dir := if outputDir != [] then outputDir else Dirname(sceneFile);
    StemNoSlash(sceneFile);
    CsvNameNoSlash(Stem(sceneFile));
    BasenameOfJoin(dir, CsvName(Stem(sceneFile)));
  }

  /** The directory name of "dir/name" is "dir" when `dir` does not end with '/'. */
  lemma DirnameOfJoin(dir: string, name: string)
    requires |dir| > 0 && dir[|dir| - 1] != '/' && NoChar(name, '/')
    ensures Dirname(dir + "/" + name) == dir
  {
    var p := dir + "/" + name;
    forall j | |dir| < j < |p|
      ensures p[j] != '/'
    {
      assert p[j] == name[j - |dir| - 1];
    }
    LastIndexUnique(p, '/', |dir|);
    var head := Head(p);
    assert head == dir + "/";
    assert head[|dir| - 1] == dir[|dir| - 1];
    assert !AllSlashes(head);
    assert TrimmedLength(head, |head|) == |dir|;
  }

  /** The stem of "dir/name" is the root of "name". */
  lemma StemOfJoin(dir: string, name: string)
    requires NoChar(name, '/')
    ensures Stem(dir + "/" + name) == Root(name)
  {
    var p := dir + "/" + name;
    assert p[|dir|] == '/' && p[|dir| + 1..] == name;
    AfterLastSkipsPrefix(p, '/', |dir|);
    AfterLastWithoutSep(name, '/');
  }

  /** Joining a relative name to a directory that does not end with '/' inserts one '/'. */
  lemma JoinInsertsSlash(dir: string, name: string)
    requires |dir| > 0 && dir[|dir| - 1] != '/' && NoChar(name, '/')
    ensures JoinPath(dir, name) == dir + "/" + name
  {
  }

  /** Without an output directory, the result file of a scene "dir/name" goes beside it, in
      "dir", named after the root of "name". */
  lemma OutputBesideScene(dir: string, name: string)
    requires |dir| > 0 && dir[|dir| - 1] != '/' && NoChar(name, '/')
    ensures OutputPath([], dir + "/" + name) == dir + "/" + CsvName(Root(name))
  {
    DirnameOfJoin(dir, name);
    StemOfJoin(dir, name);
    NoCharPrefix(name, ExtStart(name), '/');
    CsvNameNoSlash(Root(name));
    JoinInsertsSlash(dir, CsvName(Root(name)));
  }
}
