/**
 * extract_prog_name: the name of the running program, for log files. The
 * stem of the path it was started by (fs::basename), without the "lt-"
 * that libtool's wrapper scripts put in front of the real executable.
 */
module ProgramName {
  import opened Text
  import opened Extensions

  const LibtoolPrefix: string := "lt-"

  /** The stem of the path is the name, after the "lt-" when it has one. */
  function ExtractProgName(progStr: string): (name: string)
    ensures Stem(progStr) == (if StartsWith(Stem(progStr), LibtoolPrefix) then LibtoolPrefix else "") + name
  {
    var stem := Stem(progStr);
    if |stem| >= |LibtoolPrefix| && stem[..|LibtoolPrefix|] == LibtoolPrefix then
      stem[|LibtoolPrefix|..]
    else
      stem
  }

  /**
   * The name has no directory part, and it is the last component of the
   * path without its extension and without the "lt-" it started with.
   */
  lemma ProgNameParts(progStr: string)
    ensures Lacks(ExtractProgName(progStr), '/')
    ensures Filename(progStr)
         == (if StartsWith(Stem(progStr), LibtoolPrefix) then LibtoolPrefix else "")
            + ExtractProgName(progStr) + GetExtension(progStr)
  {
    var stem, ext := Stem(progStr), GetExtension(progStr);
    var name := ExtractProgName(progStr);
    assert Filename(progStr) == stem + ext;
    StemLacksSlash(progStr);
    if StartsWith(stem, LibtoolPrefix) {
      DropPrefix(stem, LibtoolPrefix);
      assert name == stem[|LibtoolPrefix|..];
      assert Filename(progStr) == LibtoolPrefix + name + ext;
    } else {
      assert name == stem;
      assert Filename(progStr) == "" + name + ext;
    }
  }

  /** Removing a prefix of a string without '/' leaves the rest, without '/'. */
  lemma DropPrefix(s: string, prefix: string)
    requires Lacks(s, '/') && StartsWith(s, prefix)
    ensures s == prefix + s[|prefix|..]
    ensures Lacks(s[|prefix|..], '/')
  {
    LacksFrom(s, |prefix|, '/');
  }

  lemma StemLacksSlash(p: string)
    ensures Lacks(Stem(p), '/')
  {
    var f, s := Filename(p), Stem(p);
    assert f == s + GetExtension(p);
    assert forall i :: 0 <= i < |s| ==> s[i] == f[i];
  }

  /** A path without '/' is its own last component. */
  lemma FilenameOfPlain(p: string)
    requires Lacks(p, '/')
    ensures Filename(p) == p
  {
    LastIndexOfAppendLacking([], p, '/');
    assert [] + p == p;
  }

  /** The directory part of the path does not matter. */
  lemma DirectoryIgnored(dir: string, prog: string)
    requires Lacks(prog, '/')
    ensures ExtractProgName(dir + "/" + prog) == ExtractProgName(prog)
  {
    assert Filename(dir + "/" + prog) == Filename(prog) by {
      FilenameAfterSlash(dir, prog);
      FilenameOfPlain(prog);
    }
    SameFilenameSameName(dir + "/" + prog, prog);
  }

  /** What follows the last '/' is the last component. */
  lemma FilenameAfterSlash(dir: string, prog: string)
    requires Lacks(prog, '/')
    ensures Filename(dir + "/" + prog) == prog
  {
    var p := dir + "/" + prog;
    assert p == dir + ['/'] + prog;
    LastIndexOfAppendLeading(dir, prog, '/');
    assert p[|dir| + 1..] == prog;
  }

  /** The name depends on the last component only. */
  lemma SameFilenameSameName(p: string, q: string)
    requires Filename(p) == Filename(q)
    ensures ExtractProgName(p) == ExtractProgName(q)
  {
    assert GetExtension(p) == GetExtension(q);
    assert Stem(p) == Stem(q);
  }

  /** A libtool wrapper's target is named without its "lt-". */
  lemma LibtoolNameStripped(base: string)
    requires Lacks(base, '/') && Lacks(base, '.')
    ensures ExtractProgName("lt-" + base) == base
  {
    var p := "lt-" + base;
    assert Lacks(p, '/') && Lacks(p, '.') by {
      assert forall i :: 3 <= i < |p| ==> p[i] == base[i - 3];
    }
    FilenameOfPlain(p);
    NoDotNoExtension(p);
    assert Stem(p) == p;
    assert p[..3] == LibtoolPrefix;
  }
}
