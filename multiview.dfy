/**
 * parse_multiview_cmd_files: reading the positional arguments of a stereo
 * tool,
 *
 *   <images> [<cameras>] <output prefix> [<input DEM>]
 *
 * The last token is the DEM when it loads as a georeferenced raster; the
 * next one back is the output prefix, which may be neither empty nor an
 * image or camera; the rest is split by separate_images_from_cameras, and
 * every image and camera must exist on disk.
 *
 * Reading a georeference and asking the file system whether a path exists
 * are left to the caller, as the predicates loadsAsGeoref and pathExists.
 */
module Multiview {
  import opened Wrappers
  import opened ArgErrors
  import opened Text
  import opened Seqs
  import opened Extensions
  import opened Separation

  /** What a successful parse hands back. */
  datatype Positional = Positional(
    images: seq<string>,
    cameras: seq<string>,
    prefix: string,
    demPath: string,     // "" when no DEM was given
    prefixExists: bool)  // the output prefix already exists: a warning only

  // ---------------------------------------------------------------------
  // Specification
  // ---------------------------------------------------------------------

  /**
   * The last token is taken as the DEM when it loads as a georeferenced
   * raster. (With no token at all the source reads past the end of the
   * list; here there is then no DEM.)
   */
  predicate HasDem(filesIn: seq<string>, loadsAsGeoref: string -> bool) {
    |filesIn| > 0 && loadsAsGeoref(filesIn[|filesIn| - 1])
  }

  /** The tokens left once the DEM, if any, is removed. */
  function WithoutDem(filesIn: seq<string>, loadsAsGeoref: string -> bool): (files: seq<string>)
    ensures |files| == |filesIn| - (if HasDem(filesIn, loadsAsGeoref) then 1 else 0)
    ensures files == filesIn[..|files|]
  {
    if HasDem(filesIn, loadsAsGeoref) then filesIn[..|filesIn| - 1] else filesIn
  }

  function DemPath(filesIn: seq<string>, loadsAsGeoref: string -> bool): string {
    if HasDem(filesIn, loadsAsGeoref) then filesIn[|filesIn| - 1] else ""
  }

  /** An output prefix may be neither empty, nor an image, nor a camera. */
  predicate BadPrefix(c: Classifier, prefix: string) {
    c.isImage(prefix) || c.isCamera(prefix) || prefix == ""
  }

  /** The existence checks on a separation, images first. */
  function CheckExistence(s: Separated, prefix: string, demPath: string, pathExists: string -> bool)
    : Result<Positional, ArgError>
  {
    var i := FirstFailure(s.images, pathExists);
    var j := FirstFailure(s.cameras, pathExists);
    if i < |s.images| then Failure(MissingImage(s.images[i]))
    else if j < |s.cameras| then Failure(MissingCamera(s.cameras[j]))
    else Success(Positional(s.images, s.cameras, prefix, demPath, pathExists(prefix)))
  }

  /**
   * What parse_multiview_cmd_files produces, or the error it throws. Too
   * few inputs is reported exactly when fewer than three tokens precede
   * the DEM. After a success the prefix is neither empty, nor an image,
   * nor a camera; every image is an image and every camera a camera, and
   * all of them exist; the warning flag says whether the prefix exists.
   */
  function ParseMultiview(c: Classifier, filesIn: seq<string>,
                          loadsAsGeoref: string -> bool, pathExists: string -> bool)
    : (r: Result<Positional, ArgError>)
    ensures r == Failure(TooFewInputs) <==> |WithoutDem(filesIn, loadsAsGeoref)| < 3
    ensures r.Success? ==>
      && r.value.prefix != "" && !c.isImage(r.value.prefix) && !c.isCamera(r.value.prefix)
      && (forall k :: 0 <= k < |r.value.images| ==> c.isImage(r.value.images[k]) && pathExists(r.value.images[k]))
      && (forall k :: 0 <= k < |r.value.cameras| ==> c.isCamera(r.value.cameras[k]) && pathExists(r.value.cameras[k]))
      && r.value.prefixExists == pathExists(r.value.prefix)
  {
    var files := WithoutDem(filesIn, loadsAsGeoref);
    if |files| < 3 then Failure(TooFewInputs)
    else
      var prefix := files[|files| - 1];
      if BadPrefix(c, prefix) then Failure(InvalidPrefix(prefix))
      else
        match Separate(c, files[..|files| - 1], false)
        case Failure(e) => Failure(e)
        case Success(s) => CheckExistence(s, prefix, DemPath(filesIn, loadsAsGeoref), pathExists)
  }

  // ---------------------------------------------------------------------
  // The operation
  // ---------------------------------------------------------------------

  /** parse_multiview_cmd_files, with the program's extension tests. */
  method ParseMultiviewCmdFiles(filesIn: seq<string>, loadsAsGeoref: string -> bool, pathExists: string -> bool)
    returns (r: Result<Positional, ArgError>)
    ensures r == ParseMultiview(ExtensionClassifier(), filesIn, loadsAsGeoref, pathExists)
  {
    r := ParseMultiviewWith(ExtensionClassifier(), filesIn, loadsAsGeoref, pathExists);
  }

  /** The body of parse_multiview_cmd_files, for any classifier. */
  method ParseMultiviewWith(c: Classifier, filesIn: seq<string>,
                            loadsAsGeoref: string -> bool, pathExists: string -> bool)
    returns (r: Result<Positional, ArgError>)
    ensures r == ParseMultiview(c, filesIn, loadsAsGeoref, pathExists)
  {
    var files := filesIn;
    var demPath := "";
    if |files| > 0 && loadsAsGeoref(files[|files| - 1]) {
      demPath := files[|files| - 1];
      files := files[..|files| - 1];
    }
    assert files == WithoutDem(filesIn, loadsAsGeoref) && demPath == DemPath(filesIn, loadsAsGeoref);
    if |files| < 3 {
      return Failure(TooFewInputs);
    }
    var prefix := files[|files| - 1];
    if c.isImage(prefix) || c.isCamera(prefix) || prefix == "" {
      return Failure(InvalidPrefix(prefix));
    }
    files := files[..|files| - 1];

    var separated := SeparateWith(c, files, false);
    if separated.Failure? {
      return Failure(separated.error);
    }
    assert ParseMultiview(c, filesIn, loadsAsGeoref, pathExists)
        == CheckExistence(separated.value, prefix, demPath, pathExists);
    r := VerifyPathsExist(separated.value, prefix, demPath, pathExists);
  }

  /**
   * The verifications at the end of parse_multiview_cmd_files: the warning
   * flag for an existing prefix, then every image and every camera must
   * exist.
   */
  method VerifyPathsExist(s: Separated, prefix: string, demPath: string, pathExists: string -> bool)
    returns (r: Result<Positional, ArgError>)
    ensures r == CheckExistence(s, prefix, demPath, pathExists)
  {
    var images, cameras := s.images, s.cameras;
    var prefixExists := pathExists(prefix);
    for i := 0 to |images|
      invariant forall j :: 0 <= j < i ==> pathExists(images[j])
    {
      if !pathExists(images[i]) {
        FirstFailureAt(images, pathExists, i);
        return Failure(MissingImage(images[i]));
      }
    }
    FirstFailureNone(images, pathExists);
    for i := 0 to |cameras|
      invariant forall j :: 0 <= j < i ==> pathExists(cameras[j])
    {
      if !pathExists(cameras[i]) {
        FirstFailureAt(cameras, pathExists, i);
        return Failure(MissingCamera(cameras[i]));
      }
    }
    FirstFailureNone(cameras, pathExists);
    return Success(Positional(images, cameras, prefix, demPath, prefixExists));
  }

  // ---------------------------------------------------------------------
  // Properties
  // ---------------------------------------------------------------------

  /**
   * A successful parse: the DEM is the last token exactly when that token
   * loads as a georeference; the prefix is the token before it and is
   * neither empty nor an image nor a camera; the images and cameras are
   * what the separator makes of the tokens before the prefix, and they
   * all exist; the warning flag says whether the prefix exists.
   */
  lemma ParsedShape(c: Classifier, filesIn: seq<string>,
                    loadsAsGeoref: string -> bool, pathExists: string -> bool)
    requires ParseMultiview(c, filesIn, loadsAsGeoref, pathExists).Success?
    ensures var p := ParseMultiview(c, filesIn, loadsAsGeoref, pathExists).value;
      var n := |filesIn| - (if HasDem(filesIn, loadsAsGeoref) then 1 else 0);
      && 3 <= n <= |filesIn|
      && (HasDem(filesIn, loadsAsGeoref) ==> p.demPath == filesIn[n] && loadsAsGeoref(p.demPath))
      && (!HasDem(filesIn, loadsAsGeoref) ==> p.demPath == "")
      && p.prefix == filesIn[n - 1]
      && p.prefix != "" && !c.isImage(p.prefix) && !c.isCamera(p.prefix)
      && Separate(c, filesIn[..n - 1], false) == Success(Separated(p.images, p.cameras))
      && (forall k :: 0 <= k < |p.images| ==> pathExists(p.images[k]))
      && (forall k :: 0 <= k < |p.cameras| ==> pathExists(p.cameras[k]))
      && p.prefixExists == pathExists(p.prefix)
  {
    var files := WithoutDem(filesIn, loadsAsGeoref);
    var rest := files[..|files| - 1];
    assert rest == filesIn[..|files| - 1];
    var s := Separate(c, rest, false).value;
    FirstFailureNone(s.images, pathExists);
  }

  /**
   * A parse succeeds exactly when there are three tokens
   * before the DEM, the prefix is acceptable, the separation succeeds and
   * every image and camera exists.
   */
  lemma SuccessIff(c: Classifier, filesIn: seq<string>,
                   loadsAsGeoref: string -> bool, pathExists: string -> bool)
    ensures var files := WithoutDem(filesIn, loadsAsGeoref);
      ParseMultiview(c, filesIn, loadsAsGeoref, pathExists).Success? <==>
        && |files| >= 3
        && !BadPrefix(c, files[|files| - 1])
        && Separate(c, files[..|files| - 1], false).Success?
        && var s := Separate(c, files[..|files| - 1], false).value;
          && (forall k :: 0 <= k < |s.images| ==> pathExists(s.images[k]))
          && (forall k :: 0 <= k < |s.cameras| ==> pathExists(s.cameras[k]))
  {
    var files := WithoutDem(filesIn, loadsAsGeoref);
    if |files| >= 3 && !BadPrefix(c, files[|files| - 1]) && Separate(c, files[..|files| - 1], false).Success? {
      var s := Separate(c, files[..|files| - 1], false).value;
      if (forall k :: 0 <= k < |s.images| ==> pathExists(s.images[k]))
         && (forall k :: 0 <= k < |s.cameras| ==> pathExists(s.cameras[k])) {
        FirstFailureNone(s.images, pathExists);
        FirstFailureNone(s.cameras, pathExists);
      }
    }
  }

  /**
   * Every token is accounted for: the tokens are the images and cameras in
   * some order, then the prefix, then the DEM if there is one.
   */
  lemma TokensAccountedFor(c: Classifier, filesIn: seq<string>,
                           loadsAsGeoref: string -> bool, pathExists: string -> bool, p: Positional)
    requires ParseMultiview(c, filesIn, loadsAsGeoref, pathExists) == Success(p)
    ensures var dem := if HasDem(filesIn, loadsAsGeoref) then [p.demPath] else [];
      multiset(p.images + p.cameras) + multiset([p.prefix] + dem) == multiset(filesIn)
  {
    var n := |filesIn| - (if HasDem(filesIn, loadsAsGeoref) then 1 else 0);
    var rest := filesIn[..n - 1];
    var dem := if HasDem(filesIn, loadsAsGeoref) then [p.demPath] else [];
    assert 3 <= n && p.prefix == filesIn[n - 1] && dem == filesIn[n..]
        && Separate(c, rest, false) == Success(Separated(p.images, p.cameras)) by {
      ParsedShape(c, filesIn, loadsAsGeoref, pathExists);
    }
    assert multiset(p.images + p.cameras) == multiset(rest) by {
      SeparatedCoverInputs(c, rest);
    }
    assert multiset(filesIn) == multiset(rest) + multiset([p.prefix] + dem) by {
      TailParts(filesIn, n, dem);
    }
  }

  /** A list cut before its last one or two entries. */
  lemma TailParts(files: seq<string>, n: nat, dem: seq<string>)
    requires 1 <= n <= |files| && |files| == n + |dem|
    requires dem == files[n..]
    ensures multiset(files) == multiset(files[..n - 1]) + multiset([files[n - 1]] + dem)
  {
    assert files == files[..n - 1] + ([files[n - 1]] + dem);
  }

  /**
   * The converse: a command line made of inputs the separator accepts, an
   * acceptable prefix and, optionally, a DEM that loads as a georeference
   * (with none, the prefix must not load as one), all of whose images and
   * cameras exist, parses into exactly those parts.
   */
  lemma ParseWellFormed(c: Classifier, inputs: seq<string>, prefix: string, dem: seq<string>,
                        loadsAsGeoref: string -> bool, pathExists: string -> bool)
    requires |inputs| >= 2 && !BadPrefix(c, prefix)
    requires |dem| <= 1
    requires dem == [] ==> !loadsAsGeoref(prefix)
    requires dem != [] ==> loadsAsGeoref(dem[0])
    requires Separate(c, inputs, false).Success?
    requires var s := Separate(c, inputs, false).value;
      && (forall k :: 0 <= k < |s.images| ==> pathExists(s.images[k]))
      && (forall k :: 0 <= k < |s.cameras| ==> pathExists(s.cameras[k]))
    ensures var s := Separate(c, inputs, false).value;
      ParseMultiview(c, inputs + [prefix] + dem, loadsAsGeoref, pathExists)
        == Success(Positional(s.images, s.cameras, prefix, if dem == [] then "" else dem[0], pathExists(prefix)))
  {
    var files := inputs + [prefix] + dem;
    var s := Separate(c, inputs, false).value;
    if dem == [] {
      assert files == inputs + [prefix];
    } else {
      assert files[..|files| - 1] == inputs + [prefix];
    }
    assert WithoutDem(files, loadsAsGeoref) == inputs + [prefix];
    assert (inputs + [prefix])[..|inputs|] == inputs;
    FirstFailureNone(s.images, pathExists);
    FirstFailureNone(s.cameras, pathExists);
  }

  // ---------------------------------------------------------------------
  // End-to-end examples with the program's extension tests
  // ---------------------------------------------------------------------

  function Always(path: string): bool { true }
  function Never(path: string): bool { false }

  /** "out/run" has no extension. */
  lemma OutRunHasNoExtension()
    ensures GetExtension("out/run") == ""
  {
    assert "out/run" == "out" + ['/'] + "run";
    LastIndexOfAppendLeading("out", "run", '/');
    assert Filename("out/run") == "run";
    NoDotNoExtension("out/run");
  }

  // The extensions of the example file names, one name at a time: each
  // proof about a literal name is costly enough to stand alone.

  lemma ATifExtension()
    ensures GetExtension("a.tif") == ".tif"
  {
    assert "a.tif" == "a" + ".tif";
    ExtensionOf("a", ".tif");
  }

  lemma BTifExtension()
    ensures GetExtension("b.tif") == ".tif"
  {
    assert "b.tif" == "b" + ".tif";
    ExtensionOf("b", ".tif");
  }

  lemma ATsaiExtension()
    ensures GetExtension("a.tsai") == ".tsai"
  {
    assert "a.tsai" == "a" + ".tsai";
    ExtensionOf("a", ".tsai");
  }

  lemma BTsaiExtension()
    ensures GetExtension("b.tsai") == ".tsai"
  {
    assert "b.tsai" == "b" + ".tsai";
    ExtensionOf("b", ".tsai");
  }

  lemma ACubExtension()
    ensures GetExtension("a.cub") == ".cub"
  {
    assert "a.cub" == "a" + ".cub";
    ExtensionOf("a", ".cub");
  }

  lemma BCubExtension()
    ensures GetExtension("b.cub") == ".cub"
  {
    assert "b.cub" == "b" + ".cub";
    ExtensionOf("b", ".cub");
  }

  // How the example extensions classify.

  lemma TifClass(name: string)
    requires GetExtension(name) == ".tif"
    ensures HasImageExtension(name) && !HasCamExtension(name)
  {
  }

  lemma TsaiClass(name: string)
    requires GetExtension(name) == ".tsai"
    ensures !HasImageExtension(name) && HasCamExtension(name) && !IsCube(name)
  {
  }

  lemma NoExtensionClass(name: string)
    requires GetExtension(name) == ""
    ensures !HasImageExtension(name) && !HasCamExtension(name)
  {
  }

  /** Two images, taken as images only: both cubes, or neither a camera. */
  lemma TwoImages(c: Classifier, a: string, b: string)
    requires c.isImage(a) && c.isImage(b)
    requires (c.isCube(a) && c.isCube(b)) || (!c.isCamera(a) && !c.isCamera(b))
    ensures Separate(c, [a, b], false) == Success(Separated([a, b], []))
  {
    if c.isCube(a) && c.isCube(b) {
      AllCubesScenario(c, [a, b]);
    } else {
      NoCameraInputs(c, [a, b]);
    }
  }

  /** Two images and two cameras that are not images or cubes. */
  lemma TwoImagesTwoCameras(c: Classifier, a: string, b: string, ca: string, cb: string)
    requires c.isImage(a) && c.isImage(b)
    requires !c.isImage(ca) && c.isCamera(ca) && !c.isCube(ca)
    requires !c.isImage(cb) && c.isCamera(cb)
    ensures Separate(c, [a, b, ca, cb], false) == Success(Separated([a, b], [ca, cb]))
  {
    assert [a, b, ca, cb] == [a, b] + [ca, cb];
    PairedInputs(c, [a, b], [ca, cb]);
  }

  lemma OutRunIsAPrefix()
    ensures !BadPrefix(ExtensionClassifier(), "out/run")
  {
    OutRunHasNoExtension();
    NoExtensionClass("out/run");
  }

  lemma TifPairSeparates()
    ensures Separate(ExtensionClassifier(), ["a.tif", "b.tif"], false) == Success(Separated(["a.tif", "b.tif"], []))
  {
    var c := ExtensionClassifier();
    assert c.isImage("a.tif") && !c.isCamera("a.tif") by { ATifExtension(); TifClass("a.tif"); }
    assert c.isImage("b.tif") && !c.isCamera("b.tif") by { BTifExtension(); TifClass("b.tif"); }
    TwoImages(c, "a.tif", "b.tif");
  }

  lemma CubPairSeparates()
    ensures Separate(ExtensionClassifier(), ["a.cub", "b.cub"], false) == Success(Separated(["a.cub", "b.cub"], []))
  {
    var c := ExtensionClassifier();
    assert c.isImage("a.cub") && c.isCube("a.cub") by { ACubExtension(); CubIsImageAndCamera("a.cub"); }
    assert c.isImage("b.cub") && c.isCube("b.cub") by { BCubExtension(); CubIsImageAndCamera("b.cub"); }
    TwoImages(c, "a.cub", "b.cub");
  }

  lemma TifTsaiSeparates()
    ensures Separate(ExtensionClassifier(), ["a.tif", "b.tif", "a.tsai", "b.tsai"], false)
         == Success(Separated(["a.tif", "b.tif"], ["a.tsai", "b.tsai"]))
  {
    var c := ExtensionClassifier();
    assert c.isImage("a.tif") by { ATifExtension(); TifClass("a.tif"); }
    assert c.isImage("b.tif") by { BTifExtension(); TifClass("b.tif"); }
    assert !c.isImage("a.tsai") && c.isCamera("a.tsai") && !c.isCube("a.tsai") by {
      ATsaiExtension();
      TsaiClass("a.tsai");
    }
    assert !c.isImage("b.tsai") && c.isCamera("b.tsai") by { BTsaiExtension(); TsaiClass("b.tsai"); }
    TwoImagesTwoCameras(c, "a.tif", "b.tif", "a.tsai", "b.tsai");
  }

  /** Two images, their two pinhole cameras, then a prefix. */
  lemma ImagesCamerasAndPrefix()
    ensures ParseMultiview(ExtensionClassifier(), ["a.tif", "b.tif", "a.tsai", "b.tsai"] + ["out/run"], Never, Always)
         == Success(Positional(["a.tif", "b.tif"], ["a.tsai", "b.tsai"], "out/run", "", true))
  {
    var inputs := ["a.tif", "b.tif", "a.tsai", "b.tsai"];
    TifTsaiSeparates();
    OutRunIsAPrefix();
    ParseWellFormed(ExtensionClassifier(), inputs, "out/run", [], Never, Always);
    assert inputs + ["out/run"] + [] == inputs + ["out/run"];
  }

  /** Two cubes, then a prefix: the cubes are images, there is no camera. */
  lemma CubesAndPrefix()
    ensures ParseMultiview(ExtensionClassifier(), ["a.cub", "b.cub"] + ["out/run"], Never, Always)
         == Success(Positional(["a.cub", "b.cub"], [], "out/run", "", true))
  {
    var inputs := ["a.cub", "b.cub"];
    CubPairSeparates();
    OutRunIsAPrefix();
    ParseWellFormed(ExtensionClassifier(), inputs, "out/run", [], Never, Always);
    assert inputs + ["out/run"] + [] == inputs + ["out/run"];
  }

  /** Two images, then a prefix, then a georeferenced DEM. */
  lemma ImagesPrefixAndDem(loadsAsGeoref: string -> bool)
    requires loadsAsGeoref("terrain.tif")
    ensures ParseMultiview(ExtensionClassifier(), ["a.tif", "b.tif"] + ["out/run"] + ["terrain.tif"], loadsAsGeoref, Always)
         == Success(Positional(["a.tif", "b.tif"], [], "out/run", "terrain.tif", true))
  {
    TifPairSeparates();
    OutRunIsAPrefix();
    ParseWellFormed(ExtensionClassifier(), ["a.tif", "b.tif"], "out/run", ["terrain.tif"], loadsAsGeoref, Always);
  }

  /** A camera where the prefix should be is rejected. */
  lemma CameraAsPrefix()
    ensures ParseMultiview(ExtensionClassifier(), ["a.tif", "a.tsai", "b.tsai"], Never, Always)
         == Failure(InvalidPrefix("b.tsai"))
  {
    var files := ["a.tif", "a.tsai", "b.tsai"];
    assert files[2] == "b.tsai";
    assert BadPrefix(ExtensionClassifier(), "b.tsai") by { BTsaiExtension(); TsaiClass("b.tsai"); }
    PrefixRejected(ExtensionClassifier(), files, Always);
  }

  /** With no DEM, a bad last token is rejected as the prefix, whatever precedes it. */
  lemma PrefixRejected(c: Classifier, files: seq<string>, pathExists: string -> bool)
    requires |files| >= 3 && BadPrefix(c, files[|files| - 1])
    ensures ParseMultiview(c, files, Never, pathExists) == Failure(InvalidPrefix(files[|files| - 1]))
  {
    assert WithoutDem(files, Never) == files;
  }
}
