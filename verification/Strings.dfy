/** The string helpers the labels are built from: code-unit order, last positions, and path parts. */
module Strings {

  /** Lexicographic order by code unit. */
  predicate Less(a: string, b: string) {
    b != [] && (a == [] || a[0] < b[0] || (a[0] == b[0] && Less(a[1..], b[1..])))
  }

  lemma {:induction false} LessTotal(a: string, b: string)
    ensures a == b || Less(a, b) || Less(b, a)
    ensures !(Less(a, b) && Less(b, a))
  {
    if a != [] && b != [] {
      LessTotal(a[1..], b[1..]);
      assert a == [a[0]] + a[1..] && b == [b[0]] + b[1..];
    }
  }

  lemma {:induction false} LessTrans(a: string, b: string, c: string)
    requires Less(a, b) && Less(b, c)
    ensures Less(a, c)
  {
    if a != [] && a[0] == b[0] && b[0] == c[0] {
      LessTrans(a[1..], b[1..], c[1..]);
    }
  }

  /** The last position of a character, or -1. */
  function LastIndex(s: string, c: char): (i: int)
    ensures -1 <= i < |s| && (i >= 0 ==> s[i] == c) && forall k :: i < k < |s| ==> s[k] != c
  {
    if s == [] || s[|s| - 1] == c then |s| - 1 else LastIndex(s[..|s| - 1], c)
  }

  predicate OccursAt(s: string, part: string, i: nat) {
    i <= |s| - |part| && s[i..i + |part|] == part
  }

  predicate Includes(s: string, part: string) {
    exists i: nat | i <= |s| :: OccursAt(s, part, i)
  }

  /** Everything before the last slash; nothing for a bare file name. */
  function DirectoryOf(filePath: string): string {
    var slash := LastIndex(filePath, '/');
    if slash == -1 then "" else filePath[..slash]
  }

  /** Everything after the last slash. */
  function LastSegment(path: string): string {
    path[LastIndex(path, '/') + 1..]
  }

  /** The file name without its extension; a leading dot starts no extension. */
  function BaseName(filePath: string): string {
    var fileName := LastSegment(filePath);
    var dot := LastIndex(fileName, '.');
    if dot <= 0 then fileName else fileName[..dot]
  }

  // ---------------------------------------------------------------- what the helpers yield

  /** Position `k` is the first where the texts differ, and there `a` has the smaller code unit. */
  ghost predicate FirstLess(a: string, b: string, k: nat) {
    k < |a| && k < |b| && a[k] < b[k] && forall j :: 0 <= j < k ==> a[j] == b[j]
  }

  /** One text precedes another at the first place where they differ, or by being a proper prefix of it. */
  lemma {:induction false} LessIff(a: string, b: string)
    ensures Less(a, b) <==> a < b || exists k: nat :: FirstLess(a, b, k)
  {
    if a == [] || b == [] {
    } else if a[0] != b[0] {
      assert a[0] < b[0] ==> FirstLess(a, b, 0);
    } else {
      LessIff(a[1..], b[1..]);
      PrefixTail(a, b);
      forall k: nat
        ensures FirstLess(a[1..], b[1..], k) <==> FirstLess(a, b, k + 1)
      {
        FirstLessTail(a, b, k);
      }
      if k: nat :| FirstLess(a, b, k) {
        assert k > 0;
        assert FirstLess(a[1..], b[1..], k - 1);
      }
    }
  }

  lemma PrefixTail(a: string, b: string)
    requires a != [] && b != [] && a[0] == b[0]
    ensures a < b <==> a[1..] < b[1..]
  {
    assert a == [a[0]] + a[1..] && b == [b[0]] + b[1..];
  }

  lemma FirstLessTail(a: string, b: string, k: nat)
    requires a != [] && b != [] && a[0] == b[0]
    ensures FirstLess(a[1..], b[1..], k) <==> FirstLess(a, b, k + 1)
  {
    if FirstLess(a[1..], b[1..], k) {
      forall j | 0 <= j < k + 1
        ensures a[j] == b[j]
      {
        assert j > 0 ==> a[1..][j - 1] == b[1..][j - 1];
      }
    }
  }

  /** The last occurrence in a text that ends in the character stays the last when none is appended. */
  lemma LastAt(head: string, tail: string, c: char)
    requires head != "" && head[|head| - 1] == c && c !in tail
    ensures LastIndex(head + tail, c) == |head| - 1
  {
    hide LastIndex;
    var s := head + tail;
    assert s[|head| - 1] == c;
    forall k | |head| <= k < |s|
      ensures s[k] != c
    {
      assert s[k] == tail[k - |head|];
    }
  }

  lemma NoneAt(s: string, c: char)
    requires c !in s
    ensures LastIndex(s, c) == -1
  {
    hide LastIndex;
  }

  lemma SplitAt(head: string, tail: string)
    ensures (head + tail)[..|head|] == head && (head + tail)[|head|..] == tail
  {
  }

  /** The parts of a file name under a directory, and of a bare one. */
  lemma PathParts(directory: string, name: string)
    requires '/' !in name
    ensures DirectoryOf(directory + "/" + name) == directory && LastSegment(directory + "/" + name) == name
    ensures DirectoryOf(name) == "" && LastSegment(name) == name
  {
    hide LastIndex;
    LastAt(directory + "/", name, '/');
    NoneAt(name, '/');
    SplitAt(directory + "/", name);
    SplitAt(directory, "/");
    assert (directory + "/" + name)[..|directory|] == (directory + "/")[..|directory|];
  }

  /** The base name depends on the last part of the path only. */
  lemma BaseNameOf(path: string, fileName: string)
    requires LastSegment(path) == fileName
    ensures BaseName(path) == if LastIndex(fileName, '.') <= 0 then fileName else fileName[..LastIndex(fileName, '.')]
  {
    hide LastIndex, LastSegment;
  }

  /** With an extension, the base name is what precedes the last dot. */
  lemma BaseNameOfStem(directory: string, stem: string, extension: string)
    requires '/' !in stem && '/' !in extension && '.' !in extension && stem != ""
    ensures BaseName(directory + "/" + (stem + "." + extension)) == stem && BaseName(stem + "." + extension) == stem
  {
    var fileName := stem + "." + extension;
    LastAt(stem + ".", extension, '.');
    SplitAt(stem, ".");
    SplitAt(stem + ".", extension);
    assert fileName[..|stem|] == (stem + ".")[..|stem|];
    assert '/' !in stem + ".";
    assert '/' !in fileName;
    PathParts(directory, fileName);
    hide *;
    BaseNameOf(directory + "/" + fileName, fileName);
    BaseNameOf(fileName, fileName);
  }

  /** Without a dot, or with a leading one only, it is the whole file name. */
  lemma BaseNameOfPlain(directory: string, name: string)
    requires '/' !in name && '.' !in name
    ensures BaseName(directory + "/" + name) == name && BaseName(name) == name
    ensures BaseName(directory + "/" + ("." + name)) == "." + name
  {
    PathParts(directory, name);
    PathParts(directory, "." + name);
    NoneAt(name, '.');
    LastAt(".", name, '.');
    hide *;
    BaseNameOf(directory + "/" + name, name);
    BaseNameOf(name, name);
    BaseNameOf(directory + "/" + ("." + name), "." + name);
  }

  /** The path is empty or ends in a slash. */
  predicate NamesNoFile(path: string) {
    path == "" || path[|path| - 1] == '/'
  }

  lemma BaseNameOfNone(path: string)
    requires NamesNoFile(path)
    ensures BaseName(path) == ""
  {
    if path == "" {
      NoneAt(path, '/');
    } else {
      LastAt(path, "", '/');
      assert path + "" == path;
    }
    NoneAt("", '.');
    hide LastIndex;
    assert LastSegment(path) == "";
    BaseNameOf(path, "");
  }

  /** Every path is a bare name or a name under a directory. */
  lemma PathSplits(path: string) returns (directory: string, name: string)
    ensures '/' !in name && directory == DirectoryOf(path) && name == LastSegment(path)
    ensures path == directory + "/" + name || (directory == "" && path == name)
  {
    hide *;
    var slash := LastIndex(path, '/');
    PathAt(path);
    directory, name := DirectoryOf(path), LastSegment(path);
    NotAfter(path, slash + 1, '/');
    if slash >= 0 {
      SplitBy(path, slash, '/');
    }
  }

  lemma PathAt(path: string)
    ensures var slash := LastIndex(path, '/');
      DirectoryOf(path) == (if slash == -1 then "" else path[..slash]) && LastSegment(path) == path[slash + 1..]
  {
    hide LastIndex;
  }

  lemma SplitBy(s: string, i: nat, c: char)
    requires i < |s| && s[i] == c
    ensures s == s[..i] + [c] + s[i + 1..]
  {
  }

  lemma NotAfter(s: string, from: nat, c: char)
    requires from <= |s| && forall k :: from <= k < |s| ==> s[k] != c
    ensures c !in s[from..]
  {
  }
}
