/** 'has_suffix' and the choice of decompressor it drives. */
module Suffix {

  /** 'strcmp (a, b) == 0' on two strings without NUL characters, compared
      character by character from the front until a difference or the end
      of either string. */
  predicate Same(a: string, b: string)
    decreases |a|
  {
    if |a| == 0 || |b| == 0 then |a| == |b|
    else a[0] == b[0] && Same(a[1..], b[1..])
  }

  /** 'has_suffix': str is at least as long as suffix and its last
      strlen (suffix) characters compare equal to suffix. */
  predicate HasSuffix(str: string, suffix: string) {
    |str| >= |suffix| && Same(str[|str| - |suffix|..], suffix)
  }

  /** The character-by-character comparison is string equality. */
  lemma {:induction false} SameIsEqual(a: string, b: string)
    ensures Same(a, b) <==> a == b
    decreases |a|
  {
    if |a| > 0 && |b| > 0 {
      SameIsEqual(a[1..], b[1..]);
      if a[1..] == b[1..] && a[0] == b[0] {
        assert a == [a[0]] + a[1..] && b == [b[0]] + b[1..];
      }
    }
  }

  /** has_suffix holds exactly when suffix is no longer than str and equals
      its last |suffix| characters. */
  lemma HasSuffixIff(str: string, suffix: string)
    ensures HasSuffix(str, suffix) <==> |suffix| <= |str| && str[|str| - |suffix|..] == suffix
  {
    if |suffix| <= |str| {
      SameIsEqual(str[|str| - |suffix|..], suffix);
    }
  }

  /** A string ends with whatever was appended last, and with nothing. */
  lemma SuffixOfAppend(prefix: string, suffix: string)
    ensures HasSuffix(prefix + suffix, suffix) && HasSuffix(prefix, "")
  {
    assert (prefix + suffix)[|prefix|..] == suffix;
    HasSuffixIff(prefix + suffix, suffix);
    HasSuffixIff(prefix, "");
  }

  /** How an input file is opened: through a decompressing pipe chosen by
      its extension, or directly. */
  datatype Opener = Gzip | Bzip2 | Xz | Plain

  /** The dispatch on the path's extension, tried in the order ".gz",
      ".bz2", ".xz". */
  function OpenerOf(path: string): (o: Opener)
    ensures o == Plain <==> !HasSuffix(path, ".gz") && !HasSuffix(path, ".bz2") && !HasSuffix(path, ".xz")
  {
    if HasSuffix(path, ".gz") then Gzip
    else if HasSuffix(path, ".bz2") then Bzip2
    else if HasSuffix(path, ".xz") then Xz
    else Plain
  }

  /** The decompressor is the one whose extension the path ends with: at
      most one of the three extensions can end a path. */
  lemma OpenerOfExtension(name: string)
    ensures OpenerOf(name + ".gz") == Gzip
    ensures OpenerOf(name + ".bz2") == Bzip2
    ensures OpenerOf(name + ".xz") == Xz
  {
    SuffixOfAppend(name, ".gz");
    SuffixOfAppend(name, ".bz2");
    SuffixOfAppend(name, ".xz");
    HasSuffixIff(name + ".bz2", ".gz");
    HasSuffixIff(name + ".xz", ".gz");
    HasSuffixIff(name + ".xz", ".bz2");
    assert (name + ".bz2")[|name| + 1..] != ".gz";
    assert (name + ".xz")[|name|..] != ".gz";
    if |name| >= 1 {
      assert (name + ".xz")[|name| - 1..][1] == '.';
    }
  }
}
