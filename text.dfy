/**
 * String helpers the command-line layer relies on: ASCII case folding
 * (boost::to_lower_copy, boost::iends_with in the "C" locale), the parts of
 * a path (boost::filesystem filename, extension and stem, which is what
 * get_extension and fs::basename return), boost::split with token
 * compression, boost::algorithm::join, and the whitespace tokenization of
 * an input string stream.
 */
module Text {
  import opened Seqs

  // ---------------------------------------------------------------------
  // Case folding and affixes
  // ---------------------------------------------------------------------

  /** ASCII lower-casing of one character. */
  function LowerChar(c: char): char {
    if 'A' <= c <= 'Z' then (c as int - 'A' as int + 'a' as int) as char else c
  }

  /** boost::to_lower_copy in the "C" locale. */
  function Lower(s: string): (r: string)
    ensures |r| == |s|
    ensures forall i :: 0 <= i < |s| ==> r[i] == LowerChar(s[i])
  {
    seq(|s|, i requires 0 <= i < |s| => LowerChar(s[i]))
  }

  /** c does not occur in s. */
  predicate Lacks(s: string, c: char) {
    c !in s
  }

  predicate StartsWith(s: string, prefix: string) {
    |prefix| <= |s| && s[..|prefix|] == prefix
  }

  predicate EndsWith(s: string, suffix: string) {
    |suffix| <= |s| && s[|s| - |suffix|..] == suffix
  }

  /** boost::iends_with: the tail of s equals suffix up to letter case. */
  predicate IEndsWith(s: string, suffix: string) {
    && |suffix| <= |s|
    && forall i :: 0 <= i < |suffix| ==> LowerChar(s[|s| - |suffix| + i]) == LowerChar(suffix[i])
  }

  /**
   * Case-insensitive ends-with on an already lower-cased string is plain
   * ends-with against the lower-cased suffix.
   */
  lemma IEndsWithLowered(s: string, suffix: string)
    ensures IEndsWith(Lower(s), suffix) <==> EndsWith(Lower(s), Lower(suffix))
  {
    var l, m := Lower(s), Lower(suffix);
    if |suffix| <= |l| {
      var t := l[|l| - |suffix|..];
      assert |t| == |m|;
      forall i | 0 <= i < |suffix|
        ensures t[i] == l[|l| - |suffix| + i]
        ensures LowerChar(t[i]) == t[i]
        ensures m[i] == LowerChar(suffix[i])
      {
        LowerCharIdempotent(s[|s| - |suffix| + i]);
      }
      if IEndsWith(l, suffix) {
        assert t == m;
      }
    }
  }

  lemma LowerCharIdempotent(c: char)
    ensures LowerChar(LowerChar(c)) == LowerChar(c)
  {
  }

  // ---------------------------------------------------------------------
  // Paths
  // ---------------------------------------------------------------------

  /** Index of the last occurrence of c in s, or -1. */
  function LastIndexOf(s: string, c: char): (r: int)
    ensures -1 <= r < |s|
    ensures r >= 0 ==> s[r] == c
    ensures forall j :: r < j < |s| ==> s[j] != c
  {
    if s == [] then -1
    else if s[|s| - 1] == c then |s| - 1
    else LastIndexOf(s[..|s| - 1], c)
  }

  /** The last component of a path: what follows its last '/'. */
  function Filename(p: string): (f: string)
    ensures EndsWith(p, f)
    ensures Lacks(f, '/')
  {
    var k := LastIndexOf(p, '/');
    p[k + 1..]
  }

  /** A suffix of s none of whose characters is c. */
  lemma LacksFrom(s: string, k: nat, c: char)
    requires k <= |s|
    requires forall j :: k <= j < |s| ==> s[j] != c
    ensures Lacks(s[k..], c)
  {
    var t := s[k..];
    forall j | 0 <= j < |t| ensures t[j] != c {
      assert t[j] == s[k + j];
    }
  }

  /**
   * Where the extension of a last component f begins, as
   * boost::filesystem::path::extension finds it: at the last '.', or at
   * the end (no extension) when f has no '.' or is "." or "..".
   */
  function ExtensionStart(f: string): (k: nat)
    ensures k <= |f|
    ensures k < |f| ==> f[k] == '.' && Lacks(f[k + 1..], '.')
    ensures Lacks(f, '.') ==> k == |f|
  {
    if f == "." || f == ".." then |f|
    else
      var i := LastIndexOf(f, '.');
      if i < 0 then |f|
      else
        LacksFrom(f, i + 1, '.');
        i
  }

  /**
   * The extension of a path: the part of its last component from the last
   * '.', or "" when the component has no '.' or is "." or "..".
   */
  function GetExtension(p: string): (ext: string)
    ensures ext == [] || (ext[0] == '.' && Lacks(ext[1..], '.'))
    ensures Lacks(ext, '/')
    ensures EndsWith(p, ext)
  {
    var f := Filename(p);
    var k := ExtensionStart(f);
    assert k < |f| ==> f[k..][1..] == f[k + 1..];
    LacksFrom(f, k, '/');
    assert p[|p| - |f|..] == f;
    assert p[|p| - |f| + k..] == f[k..];
    f[k..]
  }

  /**
   * The stem of a path (fs::basename): its last component without the
   * extension.
   */
  function Stem(p: string): (s: string)
    ensures s + GetExtension(p) == Filename(p)
  {
    var f := Filename(p);
    assert f[..ExtensionStart(f)] + f[ExtensionStart(f)..] == f;
    f[..ExtensionStart(f)]
  }

  // ---------------------------------------------------------------------
  // Splitting and joining
  // ---------------------------------------------------------------------

  /** The characters an input stream treats as white space. */
  predicate IsSpace(c: char) {
    c == ' ' || '\t' <= c <= '\r'
  }

  /** The delimiter set of is_any_of(", "). */
  predicate IsCommaOrSpace(c: char) {
    c == ',' || c == ' '
  }

  predicate NoneIn(s: string, delim: char -> bool) {
    forall i :: 0 <= i < |s| ==> !delim(s[i])
  }

  /** Index of the first delimiter of s, or |s| when there is none. */
  function FirstIndex(s: string, delim: char -> bool): (i: nat)
    ensures i <= |s|
    ensures NoneIn(s[..i], delim)
    ensures i < |s| ==> delim(s[i])
  {
    if s == [] then 0
    else if delim(s[0]) then 0
    else
      var k := FirstIndex(s[1..], delim);
      assert s[..k + 1] == [s[0]] + s[1..][..k];
      1 + k
  }

  /** s without its leading run of delimiters. */
  function SkipRun(s: string, delim: char -> bool): (r: string)
    ensures EndsWith(s, r)
    ensures r == [] || !delim(r[0])
    ensures All(s[..|s| - |r|], delim)
    ensures s != [] && delim(s[0]) ==> |r| < |s|
  {
    if s != [] && delim(s[0]) then
      var t := s[1..];
      var r := SkipRun(t, delim);
      var n := |t| - |r|;
      assert t[n..] == r;
      assert s[n + 1..] == t[n..];
      assert All(s[..n + 1], delim) by {
        assert s[..n + 1] == [s[0]] + t[..n];
      }
      r
    else
      assert s[..0] == [];
      s
  }

  /**
   * boost::split with token_compress_on: the pieces between maximal runs
   * of delimiters. A leading or trailing run still yields an empty piece,
   * and "" yields one empty piece.
   */
  function Split(s: string, delim: char -> bool): (parts: seq<string>)
    ensures |parts| >= 1
    ensures forall k :: 0 <= k < |parts| ==> NoneIn(parts[k], delim)
    decreases |s|
  {
    var i := FirstIndex(s, delim);
    if i == |s| then
      assert s[..i] == s;
      [s]
    else
      [s[..i]] + Split(SkipRun(s[i..], delim), delim)
  }

  /** boost::algorithm::join: the parts separated by sep. */
  function Join(parts: seq<string>, sep: string): string
    decreases |parts|
  {
    if parts == [] then ""
    else if |parts| == 1 then parts[0]
    else parts[0] + sep + Join(parts[1..], sep)
  }

  /** The non-empty strings of parts, in order. */
  function NonEmpty(parts: seq<string>): (r: seq<string>)
    ensures forall k :: 0 <= k < |r| ==> r[k] != []
    ensures forall x :: x in r <==> x in parts && x != []
  {
    if parts == [] then []
    else if parts[0] == [] then NonEmpty(parts[1..])
    else [parts[0]] + NonEmpty(parts[1..])
  }

  /**
   * The words an input stream extracts from s with operator>>: the
   * non-empty pieces between delimiter runs.
   */
  function Words(s: string, delim: char -> bool): (w: seq<string>)
    ensures forall k :: 0 <= k < |w| ==> w[k] != [] && NoneIn(w[k], delim)
  {
    var parts := Split(s, delim);
    var w := NonEmpty(parts);
    assert forall k :: 0 <= k < |w| ==> w[k] in parts;
    w
  }

  /** boost::replace_all of one character by another. */
  function ReplaceChar(s: string, from: char, to: char): (r: string)
    ensures |r| == |s|
    ensures forall i :: 0 <= i < |s| ==> r[i] == if s[i] == from then to else s[i]
  {
    seq(|s|, i requires 0 <= i < |s| => if s[i] == from then to else s[i])
  }

  // ---------------------------------------------------------------------
  // Splitting undoes joining
  // ---------------------------------------------------------------------

  lemma FirstIndexAfterWord(a: string, b: string, delim: char -> bool)
    requires NoneIn(a, delim)
    requires b != [] && delim(b[0])
    ensures FirstIndex(a + b, delim) == |a|
  {
    var s := a + b;
    var i := FirstIndex(s, delim);
    assert s[|a|] == b[0];
  }

  lemma {:induction false} SkipRunBeforeWord(run: string, b: string, delim: char -> bool)
    requires All(run, delim)
    requires b == [] || !delim(b[0])
    ensures SkipRun(run + b, delim) == b
    decreases |run|
  {
    if run == [] {
      assert run + b == b;
    } else {
      assert (run + b)[1..] == run[1..] + b;
      SkipRunBeforeWord(run[1..], b, delim);
    }
  }

  /** Splitting a word, a delimiter run and a remainder peels off the word. */
  lemma SplitCons(head: string, run: string, rest: string, delim: char -> bool)
    requires NoneIn(head, delim)
    requires run != [] && All(run, delim)
    requires rest == [] || !delim(rest[0])
    ensures Split(head + run + rest, delim) == [head] + Split(rest, delim)
  {
    var tail := run + rest;
    var s := head + tail;
    assert head + run + rest == s;
    FirstIndexAfterWord(head, tail, delim);
    assert s[..|head|] == head;
    assert s[|head|..] == tail;
    SkipRunBeforeWord(run, rest, delim);
  }

  /** The parts with seps[k] between parts[k] and parts[k + 1]. */
  function JoinWith(parts: seq<string>, seps: seq<string>): string
    requires |parts| == |seps| + 1
    decreases |seps|
  {
    if seps == [] then parts[0] else parts[0] + seps[0] + JoinWith(parts[1..], seps[1..])
  }

  /**
   * Joining non-empty, delimiter-free pieces with a non-empty run of
   * delimiters in every gap, each gap its own run, and splitting the
   * result gives the pieces back: "1,2 3" splits into ["1", "2", "3"].
   */
  lemma {:induction false} SplitJoinWith(parts: seq<string>, seps: seq<string>, delim: char -> bool)
    requires |parts| == |seps| + 1
    requires forall k :: 0 <= k < |parts| ==> parts[k] != [] && NoneIn(parts[k], delim)
    requires forall k :: 0 <= k < |seps| ==> seps[k] != [] && All(seps[k], delim)
    ensures Split(JoinWith(parts, seps), delim) == parts
    decreases |seps|
  {
    if seps == [] {
      assert FirstIndex(parts[0], delim) == |parts[0]|;
    } else {
      var rest, more := parts[1..], seps[1..];
      var joined := JoinWith(rest, more);
      assert forall k :: 0 <= k < |rest| ==> rest[k] != [] && NoneIn(rest[k], delim) by {
        assert forall k :: 0 <= k < |rest| ==> rest[k] == parts[k + 1];
      }
      assert forall k :: 0 <= k < |more| ==> more[k] != [] && All(more[k], delim) by {
        assert forall k :: 0 <= k < |more| ==> more[k] == seps[k + 1];
      }
      assert joined == [] || !delim(joined[0]) by {
        JoinWithStartsWithFirst(rest, more);
      }
      assert Split(JoinWith(parts, seps), delim) == [parts[0]] + Split(joined, delim) by {
        SplitCons(parts[0], seps[0], joined, delim);
      }
      assert Split(joined, delim) == rest by {
        SplitJoinWith(rest, more, delim);
      }
      HeadTail(parts);
    }
  }

  lemma HeadTail(s: seq<string>)
    requires s != []
    ensures [s[0]] + s[1..] == s
  {
  }

  lemma {:induction false} JoinWithStartsWithFirst(parts: seq<string>, seps: seq<string>)
    requires |parts| == |seps| + 1 && parts[0] != []
    ensures JoinWith(parts, seps) != [] && JoinWith(parts, seps)[0] == parts[0][0]
  {
    if seps != [] {
      assert JoinWith(parts, seps) == parts[0] + (seps[0] + JoinWith(parts[1..], seps[1..]));
    }
  }

  /** Two joined runs of parts, with sep in the gap between them, are one run. */
  lemma {:induction false} JoinWithAppend(a: seq<string>, sa: seq<string>, sep: string,
                                          b: seq<string>, sb: seq<string>)
    requires |a| == |sa| + 1 && |b| == |sb| + 1
    ensures JoinWith(a + b, sa + [sep] + sb) == JoinWith(a, sa) + sep + JoinWith(b, sb)
    decreases |sa|
  {
    var ab, s := a + b, sa + [sep] + sb;
    if sa == [] {
      assert ab[0] == a[0] && ab[1..] == b;
      assert s[0] == sep && s[1..] == sb;
    } else {
      assert ab[0] == a[0] && ab[1..] == a[1..] + b;
      assert s[0] == sa[0] && s[1..] == sa[1..] + [sep] + sb;
      JoinWithAppend(a[1..], sa[1..], sep, b, sb);
      var tail := JoinWith(a[1..], sa[1..]);
      assert JoinWith(ab, s) == a[0] + sa[0] + (tail + sep + JoinWith(b, sb));
      assert JoinWith(a, sa) == a[0] + sa[0] + tail;
    }
  }

  /** n copies of sep. */
  function Repeat(sep: string, n: nat): (r: seq<string>)
    ensures |r| == n && forall k :: 0 <= k < n ==> r[k] == sep
  {
    seq(n, _ => sep)
  }

  /** Joining with one separator is joining with that separator in every gap. */
  lemma {:induction false} JoinUniform(parts: seq<string>, sep: string)
    requires |parts| >= 1
    ensures Join(parts, sep) == JoinWith(parts, Repeat(sep, |parts| - 1))
    decreases |parts|
  {
    if |parts| > 1 {
      JoinUniform(parts[1..], sep);
      assert Repeat(sep, |parts| - 1)[1..] == Repeat(sep, |parts| - 2);
    }
  }

  /**
   * Joining non-empty, delimiter-free pieces with any non-empty run of
   * delimiters and splitting the result gives the pieces back: "1,2",
   * "1 2" and "1, 2" all split into ["1", "2"].
   */
  lemma SplitJoin(parts: seq<string>, sep: string, delim: char -> bool)
    requires |parts| >= 1
    requires forall k :: 0 <= k < |parts| ==> parts[k] != [] && NoneIn(parts[k], delim)
    requires sep != [] && All(sep, delim)
    ensures Split(Join(parts, sep), delim) == parts
  {
    JoinUniform(parts, sep);
    SplitJoinWith(parts, Repeat(sep, |parts| - 1), delim);
  }

  /** Words keeps every piece when none is empty. */
  lemma {:induction false} NonEmptyKeepsAll(parts: seq<string>)
    requires forall k :: 0 <= k < |parts| ==> parts[k] != []
    ensures NonEmpty(parts) == parts
  {
    if parts != [] {
      NonEmptyKeepsAll(parts[1..]);
    }
  }

  /** Words of a joined sequence of non-empty, delimiter-free words. */
  lemma WordsJoin(words: seq<string>, sep: string, delim: char -> bool)
    requires forall k :: 0 <= k < |words| ==> words[k] != [] && NoneIn(words[k], delim)
    requires sep != [] && All(sep, delim)
    ensures Words(Join(words, sep), delim) == words
  {
    if words == [] {
      assert Join(words, sep) == "";
      assert FirstIndex("", delim) == 0;
      assert Split("", delim) == [""];
      assert NonEmpty([""]) == NonEmpty([""][1..]) == [];
    } else {
      SplitJoin(words, sep, delim);
      NonEmptyKeepsAll(words);
    }
  }
}
