/** String derivations from the scene file's path: the directory it lives in
    (with backslashes turned into forward slashes) and its lower-cased
    extension. Each is written as the chain of string operations the
    visualizer applies: replace, split, slice, join, lower-case. */
module ScenePath {

  /** Every occurrence of `from` replaced by `to`, as a global replace does. */
  function ReplaceAll(s: string, from: char, to: char): (r: string)
    ensures |r| == |s|
    ensures forall i :: 0 <= i < |s| ==> r[i] == (if s[i] == from then to else s[i])
  {
    if s == [] then []
    else [if s[0] == from then to else s[0]] + ReplaceAll(s[1..], from, to)
  }

  /** The pieces of `s` between occurrences of `sep`, left to right; an empty
      string gives one empty piece. */
  function Split(s: string, sep: char): (parts: seq<string>)
    ensures |parts| >= 1
    ensures forall k :: 0 <= k < |parts| ==> sep !in parts[k]
  {
    if s == [] then [""]
    else if s[0] == sep then [""] + Split(s[1..], sep)
    else
      var rest := Split(s[1..], sep);
      [[s[0]] + rest[0]] + rest[1..]
  }

  /** The pieces glued together with `sep` between neighbours. */
  function Join(parts: seq<string>, sep: char): string {
    if |parts| == 0 then ""
    else if |parts| == 1 then parts[0]
    else parts[0] + [sep] + Join(parts[1..], sep)
  }

  /** The index of the last `c` in `s`, or -1 when there is none. */
  function LastIndexOf(s: string, c: char): (k: int)
    ensures -1 <= k < |s|
    ensures k >= 0 ==> s[k] == c && c !in s[k + 1..]
    ensures k < 0 ==> c !in s
  {
    if s == [] then -1
    else if s[|s| - 1] == c then |s| - 1
    else LastIndexOf(s[..|s| - 1], c)
  }

  /** ASCII lower-casing of one character. */
  function LowerChar(c: char): char {
    if 'A' <= c <= 'Z' then (c as int + 32) as char else c
  }

  function ToLower(s: string): (r: string)
    ensures |r| == |s|
    ensures forall i :: 0 <= i < |s| ==> r[i] == LowerChar(s[i])
  {
    if s == [] then [] else [LowerChar(s[0])] + ToLower(s[1..])
  }

  /** The path with every backslash turned into a forward slash. */
  function NormalizeSlashes(path: string): string {
    ReplaceAll(path, '\\', '/')
  }

  /** Directory of the scene file: normalise the slashes, split on `/`, drop
      the last piece, join with `/` and append `/`. */
  function BasePath(path: string): string {
    var parts := Split(NormalizeSlashes(path), '/');
    Join(parts[..|parts| - 1], '/') + "/"
  }

  /** Extension of the scene file: the last piece after splitting on `.`,
      lower-cased. */
  function FileExtension(path: string): string {
    var parts := Split(path, '.');
    ToLower(parts[|parts| - 1])
  }

  /** Joining the pieces of a split gives back the string. */
  lemma {:induction false} JoinSplit(s: string, sep: char)
    ensures Join(Split(s, sep), sep) == s
  {
    if s == [] {
    } else if s[0] == sep {
      JoinSplit(s[1..], sep);
    } else {
      var rest := Split(s[1..], sep);
      JoinSplit(s[1..], sep);
      if |rest| > 1 {
        assert Join(rest, sep) == rest[0] + [sep] + Join(rest[1..], sep);
        assert [s[0]] + s[1..] == s;
      } else {
        assert [s[0]] + s[1..] == s;
      }
    }
  }

  /** A string without `sep` splits into itself alone. */
  lemma {:induction false} SplitWithoutSep(s: string, sep: char)
    requires sep !in s
    ensures Split(s, sep) == [s]
  {
    if s != [] {
      SplitWithoutSep(s[1..], sep);
      assert [s[0]] + s[1..] == s;
    }
  }

  /** Splitting at the last `sep`: the pieces of what comes before it, then
      everything after it. */
  lemma {:induction false} SplitAtLast(s: string, sep: char, k: nat)
    requires k < |s| && s[k] == sep && sep !in s[k + 1..]
    ensures Split(s, sep) == Split(s[..k], sep) + [s[k + 1..]]
  {
    if k == 0 {
      SplitWithoutSep(s[1..], sep);
    } else {
      assert s[1..][..k - 1] == s[..k][1..];
      assert s[1..][k - 1 + 1..] == s[k + 1..];
      SplitAtLast(s[1..], sep, k - 1);
      assert s[..k][0] == s[0];
    }
  }

  /** The base path is the slash-normalised path up to and including its last
      `/`, or just "/" when the path has no separator at all. */
  lemma BasePathIsDirectoryPrefix(path: string)
    ensures var n := NormalizeSlashes(path);
            var k := LastIndexOf(n, '/');
            BasePath(path) == if k < 0 then "/" else n[..k + 1]
  {
    var n := NormalizeSlashes(path);
    var k := LastIndexOf(n, '/');
    var parts := Split(n, '/');
    if k < 0 {
      SplitWithoutSep(n, '/');
    } else {
      SplitAtLast(n, '/', k);
      assert parts[..|parts| - 1] == Split(n[..k], '/');
      JoinSplit(n[..k], '/');
      assert n[..k] + "/" == n[..k + 1];
    }
  }

  /** The base path holds no backslash and ends with `/`. */
  lemma BasePathShape(path: string)
    ensures '\\' !in BasePath(path)
    ensures |BasePath(path)| > 0 && BasePath(path)[|BasePath(path)| - 1] == '/'
  {
    BasePathIsDirectoryPrefix(path);
    var n := NormalizeSlashes(path);
    var k := LastIndexOf(n, '/');
    assert '\\' !in n;
    if k >= 0 {
      assert forall i :: 0 <= i < k + 1 ==> n[..k + 1][i] == n[i];
    }
  }

  /** The extension is the lower-cased text after the last `.`, or the whole
      lower-cased path when there is no `.`. */
  lemma FileExtensionIsLowerSuffix(path: string)
    ensures var k := LastIndexOf(path, '.');
            FileExtension(path) == ToLower(if k < 0 then path else path[k + 1..])
  {
    var k := LastIndexOf(path, '.');
    if k < 0 {
      SplitWithoutSep(path, '.');
    } else {
      SplitAtLast(path, '.', k);
    }
  }

  /** The extension holds no `.` and no upper-case ASCII letter. */
  lemma FileExtensionShape(path: string)
    ensures '.' !in FileExtension(path)
    ensures forall i :: 0 <= i < |FileExtension(path)| ==> !('A' <= FileExtension(path)[i] <= 'Z')
  {
  }

  /** The last `c` of a string is found wherever the string says it is. */
  lemma LastIndexOfAt(s: string, c: char, k: nat)
    requires k < |s| && s[k] == c && c !in s[k + 1..]
    ensures LastIndexOf(s, c) == k
  {
  }

  /** A Windows-style path keeps its directory with forward slashes. */
  lemma ScenarioWindowsBasePath(p: string)
    requires p == "C:\\sim\\out\\scene.json"
    ensures BasePath(p) == "C:/sim/out/"
  {
    NormalizedWindowsPath(p);
    BasePathIsDirectoryPrefix(p);
    LastSlashOfWindowsPath(NormalizeSlashes(p));
  }

  lemma NormalizedWindowsPath(p: string)
    requires p == "C:\\sim\\out\\scene.json"
    ensures NormalizeSlashes(p) == "C:/sim/out/scene.json"
  {
  }

  lemma LastSlashOfWindowsPath(n: string)
    requires n == "C:/sim/out/scene.json"
    ensures LastIndexOf(n, '/') == 10 && n[..11] == "C:/sim/out/"
  {
  }

  /** A path without any separator has the base path "/". */
  lemma ScenarioBareFileName(p: string)
    requires p == "scene.json"
    ensures BasePath(p) == "/"
  {
    BasePathIsDirectoryPrefix(p);
    assert '/' !in NormalizeSlashes(p);
  }

  /** The extension is lower-cased. */
  lemma ScenarioUpperExtension(p: string)
    requires p == "scene.JSON"
    ensures FileExtension(p) == "json"
  {
    FileExtensionIsLowerSuffix(p);
    LastIndexOfAt(p, '.', 5);
    assert p[6..] == "JSON";
  }
}
