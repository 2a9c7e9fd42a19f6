/** Paths and directory entries, as the File Manager builds and sorts them. */
module Paths {

  const MAX_PATH_LEN := 64

  /** A directory's own entry, or its parent's. */
  predicate Dot(name: string) {
    name == "." || name == ".."
  }

  /** The path of an entry, as the operating system sees it. */
  function PathOf(dir: string, name: string): string {
    if dir != "" && dir[|dir| - 1] == '/' then dir + name else dir + "/" + name
  }

  /** What the separator helper makes of a directory name in a buffer of the given size. */
  function WithSeparator(dir: string, bufferSize: nat): string {
    if dir != "" && dir[|dir| - 1] != '/' && |dir| + 1 < bufferSize then dir + "/" else dir
  }

  /** The separator is left out for want of room only if no entry fits behind it: every path the
      command builds and finds short enough is the entry's own path.
   */
  lemma BuiltPathIsPath(dir: string, name: string)
    requires dir != "" && |dir| < MAX_PATH_LEN && name != ""
    ensures var path := WithSeparator(dir, MAX_PATH_LEN) + name;
            && (|path| < MAX_PATH_LEN <==> |PathOf(dir, name)| < MAX_PATH_LEN)
            && (|path| < MAX_PATH_LEN ==> path == PathOf(dir, name))
  {
    assert dir + "/" + name == (dir + "/") + name;
  }

  lemma PathsDiffer(dir: string, a: string, b: string)
    requires a != b
    ensures PathOf(dir, a) != PathOf(dir, b)
  {
    var base := if dir != "" && dir[|dir| - 1] == '/' then dir else dir + "/";
    assert PathOf(dir, a) == base + a && PathOf(dir, b) == base + b;
    assert (base + a)[|base|..] == a && (base + b)[|base|..] == b;
  }
}
