/** The pure parts of `HookManager.import_hooks`: which walked files are hook
    files, the dotted module name derived from a file's relative path, and
    which of the derived names a scan imports for the first time.

    The directory walk itself is an input: one `WalkedDir` per directory
    that `os.walk` visits, in the order it visits them. */
module Discovery {

  /** One step of `os.walk`: the directory, as its path segments relative
      to the root (the root itself is `[]`), and the names of its files. */
  datatype WalkedDir = WalkedDir(path: seq<string>, files: seq<string>)

  /** `os.sep` on a POSIX host. */
  const Sep: char := '/'

  /** The module-name delimiter that replaces `os.sep`. */
  const Dot: char := '.'

  predicate EndsWith(s: string, t: string) {
    |t| <= |s| && s[|s| - |t|..] == t
  }

  /** The file-name test of `import_hooks`: `file.endswith(suffix + ".py")`. */
  predicate FileMatches(file: string, suffix: string) {
    EndsWith(file, suffix + ".py")
  }

  /** Path segments joined by `sep`, as `os.path.join` and
      `os.path.relpath` spell a relative path. */
  function Join(segs: seq<string>, sep: char): string {
    if segs == [] then ""
    else if |segs| == 1 then segs[0]
    else segs[0] + [sep] + Join(segs[1..], sep)
  }

  /** `.replace(os.sep, '.')`. */
  function ReplaceSep(s: string): (r: string)
    ensures |r| == |s|
    ensures forall i :: 0 <= i < |s| ==> r[i] == if s[i] == Sep then Dot else s[i]
  {
    if s == [] then [] else [if s[0] == Sep then Dot else s[0]] + ReplaceSep(s[1..])
  }

  /** Python's `s[:-3]`: the last three characters dropped, or the empty
      string when there are fewer than three. */
  function DropLast3(s: string): (r: string)
    ensures |s| >= 3 ==> r + s[|s| - 3..] == s
    ensures |s| < 3 ==> r == ""
  {
    if |s| >= 3 then s[..|s| - 3] else ""
  }

  /** The file's path relative to the walk root. */
  function RelPath(path: seq<string>, file: string): string {
    Join(path + [file], Sep)
  }

  /** The module name `import_hooks` derives for `file` in directory `path`. */
  function ModuleName(path: seq<string>, file: string): string {
    DropLast3(ReplaceSep(RelPath(path, file)))
  }

  /** The names of all hook files among `files`, in order. */
  function FileCandidates(path: seq<string>, files: seq<string>, suffix: string): (r: seq<string>)
    ensures forall n :: n in r ==> exists f :: f in files && FileMatches(f, suffix) && n == ModuleName(path, f)
    ensures forall f :: f in files && FileMatches(f, suffix) ==> ModuleName(path, f) in r
    decreases |files|
  {
    if files == [] then []
    else
      var last := files[|files| - 1];
      var prev := FileCandidates(path, files[..|files| - 1], suffix);
      assert files == files[..|files| - 1] + [last];
      prev + if FileMatches(last, suffix) then [ModuleName(path, last)] else []
  }

  /** The names of all hook files in the walk, in walk order. */
  function Candidates(walk: seq<WalkedDir>, suffix: string): (r: seq<string>)
    ensures forall n :: n in r <==> exists d :: d in walk && n in FileCandidates(d.path, d.files, suffix)
    decreases |walk|
  {
    if walk == [] then []
    else
      var last := walk[|walk| - 1];
      assert walk == walk[..|walk| - 1] + [last];
      Candidates(walk[..|walk| - 1], suffix) + FileCandidates(last.path, last.files, suffix)
  }

  lemma FileCandidatesSnoc(path: seq<string>, files: seq<string>, k: nat, suffix: string)
    requires k < |files|
    ensures FileCandidates(path, files[..k + 1], suffix) ==
      FileCandidates(path, files[..k], suffix) + if FileMatches(files[k], suffix) then [ModuleName(path, files[k])] else []
  {
    assert files[..k + 1][..k] == files[..k];
  }

  lemma CandidatesSnoc(walk: seq<WalkedDir>, d: nat, suffix: string)
    requires d < |walk|
    ensures Candidates(walk[..d + 1], suffix) ==
      Candidates(walk[..d], suffix) + FileCandidates(walk[d].path, walk[d].files, suffix)
  {
    assert walk[..d + 1][..d] == walk[..d];
  }

  function SetOf(names: seq<string>): set<string> {
    set n | n in names
  }

  ghost predicate NoDuplicates(s: seq<string>) {
    forall i, j :: 0 <= i < j < |s| ==> s[i] != s[j]
  }

  /** The names that a scan meeting `names` in this order imports, given
      that `seen` were imported before: each name not yet imported, once,
      at its first occurrence. */
  function FreshImports(names: seq<string>, seen: set<string>): (r: seq<string>)
    ensures forall n :: n in r <==> n in names && n !in seen
    ensures NoDuplicates(r)
    decreases |names|
  {
    if names == [] then []
    else
      var prev := names[..|names| - 1];
      var last := names[|names| - 1];
      assert names == prev + [last];
      if last in seen || last in prev then FreshImports(prev, seen)
      else FreshImports(prev, seen) + [last]
  }

  /** A second scan over the same files imports nothing: every name it
      meets was recorded by the first. */
  lemma {:induction false} RescanImportsNothing(names: seq<string>, seen: set<string>)
    requires SetOf(names) <= seen
    ensures FreshImports(names, seen) == []
    decreases |names|
  {
    if names != [] {
      var prev := names[..|names| - 1];
      assert names[|names| - 1] in seen;
      assert SetOf(prev) <= seen;
      RescanImportsNothing(prev, seen);
    }
  }

  /** The set of names a scan records equals the set it imports plus the
      ones already recorded: every fresh import adds exactly one name. */
  lemma FreshImportsGrowSeenByOne(names: seq<string>, seen: set<string>)
    ensures seen + SetOf(names) == seen + SetOf(FreshImports(names, seen))
    ensures |seen + SetOf(names)| == |seen| + |FreshImports(names, seen)|
  {
    var r := FreshImports(names, seen);
    assert seen + SetOf(names) == seen + SetOf(r);
    FreshCount(r, seen);
  }

  lemma {:induction false} FreshCount(r: seq<string>, seen: set<string>)
    requires NoDuplicates(r)
    requires forall n :: n in r ==> n !in seen
    ensures |seen + SetOf(r)| == |seen| + |r|
  {
    if r != [] {
      var prev := r[..|r| - 1];
      var last := r[|r| - 1];
      assert r == prev + [last];
      assert NoDuplicates(prev);
      FreshCount(prev, seen);
      assert SetOf(r) == SetOf(prev) + {last};
      assert last !in seen + SetOf(prev);
    }
  }

  lemma {:induction false} AppendLast(segs: seq<string>, a: string, b: string, sep: char)
    ensures Join(segs + [a + b], sep) == Join(segs + [a], sep) + b
    decreases |segs|
  {
    if segs == [] {
    } else {
      assert (segs + [a + b])[1..] == segs[1..] + [a + b];
      assert (segs + [a])[1..] == segs[1..] + [a];
      AppendLast(segs[1..], a, b, sep);
    }
  }

  lemma {:induction false} ReplaceSepAppend(s: string, t: string)
    ensures ReplaceSep(s + t) == ReplaceSep(s) + ReplaceSep(t)
  {
  }

  lemma {:induction false} ReplaceSepOfJoin(segs: seq<string>)
    requires forall seg :: seg in segs ==> Sep !in seg
    ensures ReplaceSep(Join(segs, Sep)) == Join(segs, Dot)
    decreases |segs|
  {
    if segs != [] {
      assert segs[0] in segs;
      assert ReplaceSep(segs[0]) == segs[0];
    }
    if |segs| > 1 {
      ReplaceSepOfJoin(segs[1..]);
      ReplaceSepAppend(segs[0] + [Sep], Join(segs[1..], Sep));
      ReplaceSepAppend(segs[0], [Sep]);
      assert ReplaceSep([Sep]) == [Dot];
    }
  }

  /** A hook file's module name is its directory segments and its file name
      without `.py`, joined by dots; appending `.py` gives back the relative
      path with separators replaced. */
  lemma ModuleNameIsDottedPath(path: seq<string>, file: string, suffix: string)
    requires FileMatches(file, suffix)
    requires forall seg :: seg in path + [file] ==> Sep !in seg
    ensures ModuleName(path, file) == Join(path + [file[..|file| - 3]], Dot)
    ensures ModuleName(path, file) + ".py" == ReplaceSep(RelPath(path, file))
  {
    var stem := file[..|file| - 3];
    assert file == stem + ".py";
    AppendLast(path, stem, ".py", Sep);
    ReplaceSepOfJoin(path + [file]);
    AppendLast(path, stem, ".py", Dot);
    var dotted := ReplaceSep(RelPath(path, file));
    assert dotted == Join(path + [stem], Dot) + ".py";
    assert dotted[..|dotted| - 3] == Join(path + [stem], Dot);
  }

  /** A file is a hook file exactly when its name is some stem followed by
      the suffix and `.py`. */
  lemma FileMatchesIff(file: string, suffix: string)
    ensures FileMatches(file, suffix) <==>
      |file| >= |suffix| + 3 && file == file[..|file| - |suffix| - 3] + suffix + ".py"
  {
    if FileMatches(file, suffix) {
      assert file == file[..|file| - |suffix| - 3] + file[|file| - |suffix| - 3..];
    }
  }
}
