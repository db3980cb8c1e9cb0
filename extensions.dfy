/**
 * Classification of command-line paths by their extension, and the
 * case-insensitive suffix filters over lists of paths.
 */
module Extensions {
  import opened Text
  import opened Seqs

  // ---------------------------------------------------------------------
  // The extension tables
  // ---------------------------------------------------------------------

  const PinholeExtensions: set<string> :=
    {".cahvor", ".cahv", ".pin", ".pinhole", ".tsai", ".cmod", ".cahvore"}

  /** Camera extensions besides the pinhole ones; ".cub" is also an image. */
  const OtherCameraExtensions: set<string> :=
    {".cub", ".xml", ".dim", ".rpb", ".json", ".isd"}

  const CameraExtensions: set<string> := PinholeExtensions + OtherCameraExtensions

  const ImageExtensions: set<string> :=
    {".tif", ".tiff", ".ntf", ".png", ".jpeg", ".jpg", ".jp2", ".img", ".cub", ".bip", ".bil", ".bsq"}

  // ---------------------------------------------------------------------
  // The predicates. The source compares the extension with each entry of
  // a table in turn; here that chain is membership in the table, and the
  // contracts say how the tables overlap.
  // ---------------------------------------------------------------------

  /** A pinhole camera model file; none of these is also an image. */
  predicate HasPinholeExtension(input: string): (r: bool)
    ensures r ==> GetExtension(input) in CameraExtensions && GetExtension(input) !in ImageExtensions
  {
    PinholeIsNoImage(GetExtension(input));
    GetExtension(input) in PinholeExtensions
  }

  /** A camera file of any kind: the two camera tables together. */
  predicate HasCamExtension(input: string): (r: bool)
    ensures r <==> GetExtension(input) in CameraExtensions
    ensures HasPinholeExtension(input) ==> r
  {
    HasPinholeExtension(input) || GetExtension(input) in OtherCameraExtensions
  }

  /** An image file; ".cub" is the one extension that is also a camera. */
  predicate HasImageExtension(input: string): (r: bool)
    ensures r && GetExtension(input) in CameraExtensions <==> GetExtension(input) == ".cub"
  {
    ImageAndCameraOnlyCub(GetExtension(input));
    GetExtension(input) in ImageExtensions
  }

  /** A GeoTiff or NITF file; both are images and neither is a camera. */
  predicate HasTifOrNtfExtension(input: string): (r: bool)
    ensures r ==> GetExtension(input) in ImageExtensions && GetExtension(input) !in CameraExtensions
  {
    TifOrNtfNoCamera(GetExtension(input));
    GetExtension(input) in {".tif", ".ntf"}
  }

  /** A shapefile: in none of the tables, neither an image nor a camera. */
  predicate HasShpExtension(input: string): (r: bool)
    ensures r ==> GetExtension(input) !in ImageExtensions && GetExtension(input) !in CameraExtensions
  {
    ShpInNoTable();
    GetExtension(input) == ".shp"
  }

  // How the tables overlap, extension by extension.

  lemma PinholeIsNoImage(ext: string)
    ensures ext in PinholeExtensions ==> ext in CameraExtensions && ext !in ImageExtensions
  {
  }

  lemma ImageAndCameraOnlyCub(ext: string)
    ensures ext in ImageExtensions && ext in CameraExtensions <==> ext == ".cub"
  {
  }

  lemma TifOrNtfNoCamera(ext: string)
    ensures ext in {".tif", ".ntf"} ==> ext in ImageExtensions && ext !in CameraExtensions
  {
  }

  lemma ShpInNoTable()
    ensures ".shp" !in ImageExtensions && ".shp" !in CameraExtensions
  {
  }

  /** ".cub" satisfies both the image and the camera predicate. */
  lemma CubIsImageAndCamera(input: string)
    requires GetExtension(input) == ".cub"
    ensures HasImageExtension(input) && HasCamExtension(input)
  {
  }

  // ---------------------------------------------------------------------
  // Extensions of concrete names
  // ---------------------------------------------------------------------

  /** Appending characters other than c does not move the last c. */
  lemma {:induction false} LastIndexOfAppendLacking(a: string, b: string, c: char)
    requires Lacks(b, c)
    ensures LastIndexOf(a + b, c) == LastIndexOf(a, c)
    decreases |b|
  {
    if b != [] {
      var init := b[..|b| - 1];
      assert (a + b)[..|a + b| - 1] == a + init;
      assert (a + b)[|a + b| - 1] == b[|b| - 1];
      assert Lacks(init, c) by {
        forall k | 0 <= k < |init| ensures init[k] != c {
          assert init[k] == b[k];
        }
      }
      LastIndexOfAppendLacking(a, init, c);
      assert b[|b| - 1] != c;
      assert LastIndexOf(a + b, c) == LastIndexOf(a + init, c);
    } else {
      assert a + b == a;
    }
  }

  /** The last c of a + [c] + rest is the one just after a, if rest has none. */
  lemma LastIndexOfAppendLeading(a: string, rest: string, c: char)
    requires Lacks(rest, c)
    ensures LastIndexOf(a + [c] + rest, c) == |a|
  {
    LastIndexOfAppendLacking(a + [c], rest, c);
    assert (a + [c])[|a|] == c;
  }

  /** The last c of a + b is the first character of b, when b has no other. */
  lemma {:induction false} LastIndexOfStartOf(a: string, b: string, c: char)
    requires |b| >= 1 && b[0] == c && Lacks(b[1..], c)
    ensures LastIndexOf(a + b, c) == |a|
    decreases |b|
  {
    if |b| > 1 {
      var init := b[..|b| - 1];
      assert (a + b)[..|a + b| - 1] == a + init;
      assert b[|b| - 1] == b[1..][|b| - 2];
      assert Lacks(init[1..], c) by {
        forall k | 0 <= k < |init| - 1 ensures init[1..][k] != c {
          assert init[1..][k] == b[1..][k];
        }
      }
      LastIndexOfStartOf(a, init, c);
    }
  }

  /**
   * A path that ends in a '.' followed by at least one character, with no
   * further '.' or '/', has exactly that suffix as its extension.
   */
  lemma ExtensionOf(base: string, ext: string)
    requires |ext| >= 2 && ext[0] == '.'
    requires Lacks(ext[1..], '.') && Lacks(ext, '/')
    ensures GetExtension(base + ext) == ext
  {
    var f := Filename(base + ext);
    var dirless := base[LastIndexOf(base, '/') + 1..];
    assert f == dirless + ext by {
      LastIndexOfAppendLacking(base, ext, '/');
      assert (base + ext)[LastIndexOf(base, '/') + 1..] == dirless + ext;
    }
    assert ExtensionStart(f) == |dirless| by {
      LastIndexOfStartOf(dirless, ext, '.');
      assert f != "." && f != ".." by {
        if |f| == 2 { assert f[1] == ext[1]; }
      }
    }
    assert f[|dirless|..] == ext;
  }

  /** A last component without '.' has no extension. */
  lemma NoDotNoExtension(p: string)
    requires Lacks(Filename(p), '.')
    ensures GetExtension(p) == ""
  {
  }

  // ---------------------------------------------------------------------
  // Case-insensitive suffix filters
  // ---------------------------------------------------------------------

  /** A file matches ext when its lower-cased name ends with ext, ignoring case. */
  predicate Matches(file: string, ext: string) {
    IEndsWith(Lower(file), ext)
  }

  function MatchesExt(ext: string): string -> bool {
    file => Matches(file, ext)
  }

  /** Matching is plain ends-with once both sides are lower-cased. */
  lemma MatchesLowered(file: string, ext: string)
    ensures Matches(file, ext) <==> EndsWith(Lower(file), Lower(ext))
  {
    IEndsWithLowered(file, ext);
  }

  /** all_files_have_extension: every file matches ext. */
  method AllFilesHaveExtension(files: seq<string>, ext: string) returns (r: bool)
    ensures r <==> forall i :: 0 <= i < |files| ==> Matches(files[i], ext)
  {
    for i := 0 to |files|
      invariant forall j :: 0 <= j < i ==> Matches(files[j], ext)
    {
      if !IEndsWith(Lower(files[i]), ext) {
        return false;
      }
    }
    return true;
  }

  /** All files match exactly when the matching files are the whole list. */
  lemma AllMatchIffNothingFiltered(files: seq<string>, ext: string)
    ensures (forall i :: 0 <= i < |files| ==> Matches(files[i], ext))
        <==> Filter(files, MatchesExt(ext)) == files
  {
    FilterKeepsAll(files, MatchesExt(ext));
  }

  /**
   * get_files_with_ext: the files that match ext, in order. The caller's
   * list is passed in and its new value returned: with pruneInputList the
   * matches are erased from it one by one, otherwise it is left as it was.
   */
  method GetFilesWithExt(files: seq<string>, ext: string, pruneInputList: bool)
    returns (matchFiles: seq<string>, filesAfter: seq<string>)
    ensures matchFiles == Filter(files, MatchesExt(ext))
    ensures filesAfter == if pruneInputList then Reject(files, MatchesExt(ext)) else files
  {
    var p := MatchesExt(ext);
    matchFiles := [];
    filesAfter := files;
    var it := 0;
    ghost var done := 0;
    while it < |filesAfter|
      invariant 0 <= done <= |files|
      invariant matchFiles == Filter(files[..done], p)
      invariant it == |Kept(files[..done], p, pruneInputList)|
      invariant filesAfter == Kept(files[..done], p, pruneInputList) + files[done..]
      decreases |filesAfter| - it
    {
      LoopStep(files, done, p, pruneInputList, filesAfter, it);
      if Matches(filesAfter[it], ext) {
        matchFiles := matchFiles + [filesAfter[it]];
        if pruneInputList {
          filesAfter := filesAfter[..it] + filesAfter[it + 1..];
        } else {
          it := it + 1;
        }
      } else {
        it := it + 1;
      }
      done := done + 1;
    }
    assert files[..done] == files;
  }

  /** The examined part of the caller's list as the loop leaves it. */
  ghost function Kept(examined: seq<string>, p: string -> bool, prune: bool): seq<string> {
    if prune then Reject(examined, p) else examined
  }

  /** One iteration of the erase loop in GetFilesWithExt. */
  lemma LoopStep(files: seq<string>, done: nat, p: string -> bool, prune: bool,
                 filesAfter: seq<string>, it: nat)
    requires done < |files|
    requires it == |Kept(files[..done], p, prune)|
    requires filesAfter == Kept(files[..done], p, prune) + files[done..]
    ensures it < |filesAfter| && filesAfter[it] == files[done]
    ensures Filter(files[..done + 1], p) == Filter(files[..done], p) + (if p(files[done]) then [files[done]] else [])
    ensures p(files[done]) && prune ==>
      && it == |Kept(files[..done + 1], p, prune)|
      && filesAfter[..it] + filesAfter[it + 1..] == Kept(files[..done + 1], p, prune) + files[done + 1..]
    ensures !(p(files[done]) && prune) ==>
      && it + 1 == |Kept(files[..done + 1], p, prune)|
      && filesAfter == Kept(files[..done + 1], p, prune) + files[done + 1..]
  {
    var kept := Kept(files[..done], p, prune);
    var x := files[done];
    assert files[..done + 1] == files[..done] + [x];
    assert files[..done + 1][..done] == files[..done];
    assert files[done..] == [x] + files[done + 1..];
    assert filesAfter == kept + [x] + files[done + 1..];
    assert filesAfter[..it] == kept;
    assert filesAfter[it + 1..] == files[done + 1..];
  }

  /**
   * What get_files_with_ext returns and what it leaves in a pruned list
   * are together a rearrangement of the input.
   */
  lemma PrunedListPartition(files: seq<string>, ext: string)
    ensures multiset(Filter(files, MatchesExt(ext))) + multiset(Reject(files, MatchesExt(ext))) == multiset(files)
  {
    FilterRejectPartition(files, MatchesExt(ext));
  }
}
