/** The string operations the front end relies on: `endsWith` and `split(...).pop()`. */
module Strings {

  /** JavaScript's `s.endsWith(suffix)`: the string is some prefix followed
      by the suffix. */
  predicate EndsWith(s: string, suffix: string)
    ensures EndsWith(s, suffix) <==> exists p :: s == p + suffix
  {
    assert |suffix| <= |s| ==> s == s[..|s| - |suffix|] + s[|s| - |suffix|..];
    assert forall p :: s == p + suffix ==> s[|p|..] == suffix;
    |suffix| <= |s| && s[|s| - |suffix|..] == suffix
  }

  /** The script extension that marks runnable files and checkable keys. */
  const PyExtension: string := ".py"

  predicate IsPy(s: string) {
    EndsWith(s, PyExtension)
  }

  /** JavaScript's `s.split(sep)` for a one-character separator: the maximal
      separator-free pieces, empty ones included, never an empty array. */
  function Split(s: string, sep: char): (parts: seq<string>)
    ensures |parts| >= 1
    ensures forall i :: 0 <= i < |parts| ==> sep !in parts[i]
  {
    if s == [] then [[]]
    else
      var rest := Split(s[1..], sep);
      if s[0] == sep then [[]] + rest
      else [[s[0]] + rest[0]] + rest[1..]
  }

  /** JavaScript's `parts.join(sep)`; the reference Split is checked against. */
  function Join(parts: seq<string>, sep: char): string
  {
    if parts == [] then []
    else if |parts| == 1 then parts[0]
    else parts[0] + [sep] + Join(parts[1..], sep)
  }

  /** Joining the pieces of a split gives back the original string. */
  lemma {:induction false} JoinSplit(s: string, sep: char)
    ensures Join(Split(s, sep), sep) == s
  {
    if s != [] {
      var rest := Split(s[1..], sep);
      JoinSplit(s[1..], sep);
      if s[0] == sep {
        assert Split(s, sep) == [[]] + rest;
      } else {
        var parts := [[s[0]] + rest[0]] + rest[1..];
        assert Split(s, sep) == parts;
        if |rest| == 1 {
          assert Join(parts, sep) == [s[0]] + rest[0];
        } else {
          assert parts[1..] == rest[1..];
          calc {
            Join(parts, sep);
            ([s[0]] + rest[0]) + [sep] + Join(rest[1..], sep);
            [s[0]] + (rest[0] + [sep] + Join(rest[1..], sep));
            [s[0]] + Join(rest, sep);
          }
        }
      }
    }
  }

  /** Joining peels off the last piece after the last separator. */
  lemma {:induction false} JoinLast(parts: seq<string>, sep: char)
    requires |parts| >= 2
    ensures Join(parts, sep) == Join(parts[..|parts| - 1], sep) + [sep] + parts[|parts| - 1]
  {
    if |parts| > 2 {
      JoinLast(parts[1..], sep);
      assert parts[1..][..|parts| - 2] == parts[..|parts| - 1][1..];
    }
  }

  /** `path.split("/").pop()`: the last piece of the split, which always exists. */
  function Basename(path: string): (name: string)
    ensures '/' !in name
  {
    var parts := Split(path, '/');
    parts[|parts| - 1]
  }

  /** The basename is the longest suffix of the path that holds no '/': it is a
      suffix, it has no '/', and it is either the whole path or preceded by '/'. */
  lemma BasenameIsLastSegment(path: string)
    ensures '/' !in Basename(path)
    ensures |Basename(path)| <= |path|
    ensures path[|path| - |Basename(path)|..] == Basename(path)
    ensures |Basename(path)| < |path| ==> path[|path| - |Basename(path)| - 1] == '/'
  {
    var parts := Split(path, '/');
    var b := parts[|parts| - 1];
    JoinSplit(path, '/');
    if |parts| >= 2 {
      JoinLast(parts, '/');
      var pre := Join(parts[..|parts| - 1], '/') + ['/'];
      assert path == pre + b;
      assert path[|path| - |b|..] == b;
      assert path[|path| - |b| - 1] == pre[|pre| - 1];
    }
  }

  /** A path without '/' is its own basename, and only such a path is. */
  lemma BasenameWhole(path: string)
    ensures Basename(path) == path <==> '/' !in path
  {
    var parts := Split(path, '/');
    JoinSplit(path, '/');
    if |parts| >= 2 {
      JoinLast(parts, '/');
      var pre := Join(parts[..|parts| - 1], '/') + ['/'];
      assert path == pre + parts[|parts| - 1];
      assert path[|pre| - 1] == '/';
    }
  }
}
