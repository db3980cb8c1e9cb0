/**
 * separate_images_from_cameras: splitting a flat list of positional paths
 * into images and cameras.
 *
 * The list is first reordered so that the images come first. Then either
 * every entry is an image (only ISIS cubes, or no camera file at all), or
 * the list is cut exactly in half, images before cameras. Both halves are
 * checked against the extension tables, and the cameras may be padded with
 * empty names up to the number of images.
 *
 * The separator only ever asks three questions of a path: is it an image,
 * is it a camera, is it a cube. It is defined and proved for any answers to
 * them (a Classifier); the program's own answers, the extension predicates,
 * are ExtensionClassifier().
 */
module Separation {
  import opened Wrappers
  import opened ArgErrors
  import opened Text
  import opened Seqs
  import opened Extensions

  datatype Separated = Separated(images: seq<string>, cameras: seq<string>)

  /** The three tests the separator makes on a path. */
  datatype Classifier = Classifier(
    isImage: string -> bool,   // has_image_extension
    isCamera: string -> bool,  // has_cam_extension
    isCube: string -> bool)    // get_extension(path) == ".cub"

  predicate IsCube(path: string) {
    GetExtension(path) == ".cub"
  }

  /** The program's classifier: its extension predicates. */
  function ExtensionClassifier(): Classifier {
    Classifier(HasImageExtension, HasCamExtension, IsCube)
  }

  // ---------------------------------------------------------------------
  // Specification
  // ---------------------------------------------------------------------

  /** The inputs reordered: images first, then the rest, each in input order. */
  function ImagesFirst(c: Classifier, inputs: seq<string>): seq<string> {
    Filter(inputs, c.isImage) + Reject(inputs, c.isImage)
  }

  /**
   * The images-only scenario: some entry is a cube and all are (has_cub and
   * not has_nocub), or no entry is a camera (not has_cam).
   */
  predicate ImagesOnly(c: Classifier, r: seq<string>) {
    (Any(r, c.isCube) && All(r, c.isCube)) || !Any(r, c.isCamera)
  }

  /** n empty camera names. */
  function Blanks(n: nat): (b: seq<string>)
    ensures |b| == n
    ensures forall k :: 0 <= k < n ==> b[k] == ""
  {
    seq(n, _ => "")
  }

  /**
   * How the reordered list r is cut: all images in the images-only
   * scenario, otherwise the first half images and the second half cameras.
   */
  function Cut(c: Classifier, r: seq<string>): Separated {
    if ImagesOnly(c, r) then Separated(r, [])
    else Separated(r[..|r| / 2], r[|r| / 2..])
  }

  /**
   * What a successful separation guarantees: every image passes the image
   * test; without padding every camera passes the camera test and the
   * cameras are none or as many as the images; with padding they are as
   * many as the images, each a camera or an empty name.
   */
  predicate WellSeparated(c: Classifier, s: Separated, padded: bool) {
    && (forall k :: 0 <= k < |s.images| ==> c.isImage(s.images[k]))
    && if padded then
         && |s.cameras| == |s.images|
         && (forall k :: 0 <= k < |s.cameras| ==> c.isCamera(s.cameras[k]) || s.cameras[k] == "")
       else
         && (forall k :: 0 <= k < |s.cameras| ==> c.isCamera(s.cameras[k]))
         && (s.cameras == [] || |s.cameras| == |s.images|)
  }

  /**
   * The checks on a cut: the first entry that is not an image, then the
   * first camera that is not a camera, then the count; and the padding.
   */
  function Verdict(c: Classifier, s: Separated, ensureEqualSizes: bool): (r: Result<Separated, ArgError>)
    ensures r.Success? ==> WellSeparated(c, r.value, ensureEqualSizes)
    ensures r.Failure? ==> r.error.NotAnImage? || r.error.NotACamera? || r.error == CountMismatch
    ensures r == Failure(CountMismatch) ==> s.cameras != [] && |s.cameras| != |s.images|
  {
    var i := FirstFailure(s.images, c.isImage);
    var j := FirstFailure(s.cameras, c.isCamera);
    if i < |s.images| then Failure(NotAnImage(s.images[i]))
    else if j < |s.cameras| then Failure(NotACamera(s.cameras[j]))
    else if |s.images| != |s.cameras| && s.cameras != [] then Failure(CountMismatch)
    else if ensureEqualSizes then Success(Separated(s.images, s.cameras + Blanks(|s.images| - |s.cameras|)))
    else Success(s)
  }

  /**
   * What separate_images_from_cameras produces, or the error it throws: a
   * well-separated list, or one of three errors. The check that the two
   * counts agree never fires, as both scenarios already guarantee it.
   */
  function Separate(c: Classifier, inputs: seq<string>, ensureEqualSizes: bool): (r: Result<Separated, ArgError>)
    ensures r.Success? ==> WellSeparated(c, r.value, ensureEqualSizes)
    ensures r.Failure? ==> r.error.UnevenImagesCameras? || r.error.NotAnImage? || r.error.NotACamera?
  {
    SeparateOrdered(c, ImagesFirst(c, inputs), ensureEqualSizes)
  }

  /** The separation of an already reordered list r. */
  function SeparateOrdered(c: Classifier, r: seq<string>, ensureEqualSizes: bool): (res: Result<Separated, ArgError>)
    ensures res.Success? ==> WellSeparated(c, res.value, ensureEqualSizes)
    ensures res.Failure? ==> res.error.UnevenImagesCameras? || res.error.NotAnImage? || res.error.NotACamera?
  {
    if !ImagesOnly(c, r) && |r| % 2 != 0 then Failure(UnevenImagesCameras)
    else
      var cut := Cut(c, r);
      assert cut.cameras == [] || |cut.cameras| == |cut.images|;
      Verdict(c, cut, ensureEqualSizes)
  }

  // ---------------------------------------------------------------------
  // The operation
  // ---------------------------------------------------------------------

  /** separate_images_from_cameras, with the program's extension tests. */
  method SeparateImagesFromCameras(inputs: seq<string>, ensureEqualSizes: bool)
    returns (r: Result<Separated, ArgError>)
    ensures r == Separate(ExtensionClassifier(), inputs, ensureEqualSizes)
  {
    r := SeparateWith(ExtensionClassifier(), inputs, ensureEqualSizes);
  }

  /** The body of separate_images_from_cameras, for any classifier. */
  method SeparateWith(c: Classifier, inputs: seq<string>, ensureEqualSizes: bool)
    returns (r: Result<Separated, ArgError>)
    ensures r == Separate(c, inputs, ensureEqualSizes)
  {
    // Reorder so that the images come first.
    var images: seq<string> := [];
    var cameras: seq<string> := [];
    for i := 0 to |inputs|
      invariant images == Filter(inputs[..i], c.isImage)
      invariant cameras == Reject(inputs[..i], c.isImage)
    {
      PrefixStep(inputs, i, c.isImage);
      if c.isImage(inputs[i]) {
        images := images + [inputs[i]];
      } else {
        cameras := cameras + [inputs[i]];
      }
    }
    assert inputs[..|inputs|] == inputs;
    var inputs2 := images + cameras;
    images, cameras := [], [];

    var hasCub, hasNoCub, hasCam := false, false, false;
    for i := 0 to |inputs2|
      invariant hasCub <==> Any(inputs2[..i], c.isCube)
      invariant hasNoCub <==> !All(inputs2[..i], c.isCube)
      invariant hasCam <==> Any(inputs2[..i], c.isCamera)
    {
      FlagStep(inputs2, i, c.isCube);
      FlagStep(inputs2, i, c.isCamera);
      if c.isCube(inputs2[i]) { hasCub := true; }
      if !c.isCube(inputs2[i]) { hasNoCub := true; }
      if c.isCamera(inputs2[i]) { hasCam := true; }
    }
    assert inputs2[..|inputs2|] == inputs2;

    assert (hasCub && !hasNoCub) || !hasCam <==> ImagesOnly(c, inputs2);
    if (hasCub && !hasNoCub) || !hasCam {
      // Only cubes, or no cameras: everything is an image.
      images := inputs2;
    } else {
      // Images and then as many cameras (the cameras may be cubes).
      if |inputs2| % 2 != 0 {
        return Failure(UnevenImagesCameras);
      }
      var half := |inputs2| / 2;
      images := inputs2[..half];
      cameras := inputs2[half..2 * half];
    }
    assert Separated(images, cameras) == Cut(c, inputs2);
    r := CheckAndPad(c, images, cameras, ensureEqualSizes);
  }

  /**
   * The second half of separate_images_from_cameras: the extension checks
   * on the cut, the count check and the padding.
   */
  method CheckAndPad(c: Classifier, images: seq<string>, cameras: seq<string>, ensureEqualSizes: bool)
    returns (r: Result<Separated, ArgError>)
    ensures r == Verdict(c, Separated(images, cameras), ensureEqualSizes)
  {
    for i := 0 to |images|
      invariant forall j :: 0 <= j < i ==> c.isImage(images[j])
    {
      if !c.isImage(images[i]) {
        FirstFailureAt(images, c.isImage, i);
        return Failure(NotAnImage(images[i]));
      }
    }
    FirstFailureNone(images, c.isImage);
    for i := 0 to |cameras|
      invariant forall j :: 0 <= j < i ==> c.isCamera(cameras[j])
    {
      if !c.isCamera(cameras[i]) {
        FirstFailureAt(cameras, c.isCamera, i);
        return Failure(NotACamera(cameras[i]));
      }
    }
    FirstFailureNone(cameras, c.isCamera);
    if |images| != |cameras| && |cameras| != 0 {
      return Failure(CountMismatch);
    }

    var padded := cameras;
    if ensureEqualSizes {
      while |padded| < |images|
        invariant |cameras| <= |padded| <= |images|
        invariant padded == cameras + Blanks(|padded| - |cameras|)
        decreases |images| - |padded|
      {
        padded := padded + [""];
      }
    }
    return Success(Separated(images, padded));
  }

  /** One step of the loop that computes the flags. */
  lemma FlagStep(r: seq<string>, i: nat, p: string -> bool)
    requires i < |r|
    ensures Any(r[..i + 1], p) <==> Any(r[..i], p) || p(r[i])
    ensures All(r[..i + 1], p) <==> All(r[..i], p) && p(r[i])
  {
    var s := r[..i + 1];
    assert s[i] == r[i];
    assert forall k :: 0 <= k < i ==> s[k] == r[..i][k];
  }

  // ---------------------------------------------------------------------
  // Properties
  // ---------------------------------------------------------------------

  /**
   * The reordering is a stable partition: the images keep their order and
   * come first, the rest keep theirs and follow, and nothing is lost.
   */
  lemma ImagesFirstIsStablePartition(c: Classifier, inputs: seq<string>)
    ensures multiset(ImagesFirst(c, inputs)) == multiset(inputs)
    ensures |ImagesFirst(c, inputs)| == |inputs|
    ensures var n := |Filter(inputs, c.isImage)|;
      && (forall k :: 0 <= k < n ==> c.isImage(ImagesFirst(c, inputs)[k]))
      && (forall k :: n <= k < |inputs| ==> !c.isImage(ImagesFirst(c, inputs)[k]))
  {
    var f, g := Filter(inputs, c.isImage), Reject(inputs, c.isImage);
    FilterRejectPartition(inputs, c.isImage);
    assert forall k :: |f| <= k < |f + g| ==> (f + g)[k] == g[k - |f|];
  }

  /** Asking for equal sizes only pads the cameras with empty names. */
  lemma EqualSizesOnlyPads(c: Classifier, inputs: seq<string>)
    ensures Separate(c, inputs, true) ==
      match Separate(c, inputs, false)
      case Success(s) => Success(Separated(s.images, s.cameras + Blanks(|s.images| - |s.cameras|)))
      case Failure(e) => Failure(e)
  {
  }

  /**
   * The images and cameras together are the reordered input: nothing is
   * dropped or duplicated.
   */
  lemma SeparatedCoverInputs(c: Classifier, inputs: seq<string>)
    requires Separate(c, inputs, false).Success?
    ensures var s := Separate(c, inputs, false).value;
      && s.images + s.cameras == ImagesFirst(c, inputs)
      && multiset(s.images + s.cameras) == multiset(inputs)
  {
    var r := ImagesFirst(c, inputs);
    ImagesFirstIsStablePartition(c, inputs);
    if !ImagesOnly(c, r) {
      assert r[..|r| / 2] + r[|r| / 2..] == r;
    } else {
      assert r + [] == r;
    }
  }

  /**
   * Scenario A: when the reordered input is only cubes or has no camera,
   * it succeeds exactly when every entry is an image, and then holds all
   * of it as images and no camera.
   */
  lemma ImagesOnlyScenario(c: Classifier, inputs: seq<string>)
    requires ImagesOnly(c, ImagesFirst(c, inputs))
    ensures var r := ImagesFirst(c, inputs);
      (Separate(c, inputs, false).Success? <==> forall k :: 0 <= k < |r| ==> c.isImage(r[k]))
    ensures Separate(c, inputs, false).Success? ==>
      Separate(c, inputs, false).value == Separated(ImagesFirst(c, inputs), [])
  {
  }

  /**
   * Scenario B: otherwise an odd count is rejected, and a successful
   * result is the first half as images and the second half as cameras.
   */
  lemma PairedScenario(c: Classifier, inputs: seq<string>)
    requires !ImagesOnly(c, ImagesFirst(c, inputs))
    ensures var r := ImagesFirst(c, inputs);
      |r| % 2 != 0 ==> Separate(c, inputs, false) == Failure(UnevenImagesCameras)
    ensures var r := ImagesFirst(c, inputs);
      Separate(c, inputs, false).Success? ==>
        && Separate(c, inputs, false).value == Separated(r[..|r| / 2], r[|r| / 2..])
        && |r| >= 2
  {
    var r := ImagesFirst(c, inputs);
    assert Any(r, c.isCamera);
  }

  /** The cameras are empty exactly in the images-only scenario. */
  lemma NoCamerasIffImagesOnly(c: Classifier, inputs: seq<string>)
    requires Separate(c, inputs, false).Success?
    ensures Separate(c, inputs, false).value.cameras == [] <==> ImagesOnly(c, ImagesFirst(c, inputs))
  {
    if !ImagesOnly(c, ImagesFirst(c, inputs)) {
      PairedScenario(c, inputs);
    }
  }

  /**
   * An odd number of inputs one of which is a camera but not a cube is
   * always rejected as unpaired.
   */
  lemma OddWithCameraIsRejected(c: Classifier, inputs: seq<string>, ensureEqualSizes: bool, k: nat)
    requires k < |inputs| && c.isCamera(inputs[k]) && !c.isCube(inputs[k])
    requires |inputs| % 2 != 0
    ensures Separate(c, inputs, ensureEqualSizes) == Failure(UnevenImagesCameras)
  {
    var r := ImagesFirst(c, inputs);
    ImagesFirstIsStablePartition(c, inputs);
    assert inputs[k] in multiset(r) by {
      assert inputs[k] in multiset(inputs);
    }
    var j :| 0 <= j < |r| && r[j] == inputs[k];
    assert !c.isCube(r[j]) && c.isCamera(r[j]);
  }

  /** Separating an images-only result again gives the same result. */
  lemma SeparateIdempotent(c: Classifier, inputs: seq<string>, images: seq<string>)
    requires Separate(c, inputs, false) == Success(Separated(images, []))
    ensures Separate(c, images, false) == Success(Separated(images, []))
  {
    ImagesOnlyResult(c, inputs, images);
    SeparateImagesOnly(c, images);
  }

  /** An images-only result is the reordered input, all images. */
  lemma ImagesOnlyResult(c: Classifier, inputs: seq<string>, images: seq<string>)
    requires Separate(c, inputs, false) == Success(Separated(images, []))
    ensures images == ImagesFirst(c, inputs) && ImagesOnly(c, images)
    ensures forall k :: 0 <= k < |images| ==> c.isImage(images[k])
  {
    NoCamerasIffImagesOnly(c, inputs);
    ImagesOnlyScenario(c, inputs);
  }

  /** A list of images in the images-only scenario separates as itself. */
  lemma SeparateImagesOnly(c: Classifier, images: seq<string>)
    requires ImagesOnly(c, images)
    requires forall k :: 0 <= k < |images| ==> c.isImage(images[k])
    ensures Separate(c, images, false) == Success(Separated(images, []))
  {
    assert ImagesFirst(c, images) == images by {
      FilterKeepsAll(images, c.isImage);
    }
    FirstFailureNone(images, c.isImage);
  }

  /**
   * Interleaving images and cameras does not matter: any list whose images
   * and non-images, each in order, are imgs and cams separates like
   * imgs + cams.
   */
  lemma InterleavingDoesNotMatter(c: Classifier, inputs: seq<string>, imgs: seq<string>, cams: seq<string>,
                                  ensureEqualSizes: bool)
    requires Filter(inputs, c.isImage) == imgs
    requires Reject(inputs, c.isImage) == cams
    ensures Separate(c, inputs, ensureEqualSizes) == Separate(c, imgs + cams, ensureEqualSizes)
  {
    AlreadyOrdered(c, imgs, cams);
  }

  /** A list whose images all come before its other entries is left as it is. */
  lemma AlreadyOrdered(c: Classifier, imgs: seq<string>, cams: seq<string>)
    requires forall k :: 0 <= k < |imgs| ==> c.isImage(imgs[k])
    requires forall k :: 0 <= k < |cams| ==> !c.isImage(cams[k])
    ensures ImagesFirst(c, imgs + cams) == imgs + cams
  {
    FilterAppend(imgs, cams, c.isImage);
    FilterKeepsAll(imgs, c.isImage);
    RejectKeepsNone(cams, c.isImage);
    assert Filter(imgs + cams, c.isImage) == imgs by {
      assert imgs + [] == imgs;
    }
    assert Reject(imgs + cams, c.isImage) == cams by {
      assert [] + cams == cams;
    }
  }

  lemma {:induction false} RejectKeepsNone(s: seq<string>, p: string -> bool)
    requires forall k :: 0 <= k < |s| ==> !p(s[k])
    ensures Reject(s, p) == s
    ensures Filter(s, p) == []
    decreases |s|
  {
    if s != [] {
      var init := s[..|s| - 1];
      RejectKeepsNone(init, p);
      assert s == init + [s[|s| - 1]];
    }
  }

  // ---------------------------------------------------------------------
  // The program's classifier
  // ---------------------------------------------------------------------

  /**
   * Images followed by as many cameras that are not images, one of them
   * not a cube, are paired positionally.
   */
  lemma PairedInputs(c: Classifier, imgs: seq<string>, cams: seq<string>)
    requires |imgs| == |cams| && cams != []
    requires forall k :: 0 <= k < |imgs| ==> c.isImage(imgs[k])
    requires forall k :: 0 <= k < |cams| ==> !c.isImage(cams[k]) && c.isCamera(cams[k])
    requires !c.isCube(cams[0])
    ensures Separate(c, imgs + cams, false) == Success(Separated(imgs, cams))
  {
    var r := imgs + cams;
    AlreadyOrdered(c, imgs, cams);
    assert !ImagesOnly(c, r) by {
      assert r[|imgs|] == cams[0];
    }
    assert Cut(c, r) == Separated(imgs, cams) by {
      assert r[..|r| / 2] == imgs && r[|r| / 2..] == cams;
    }
    FirstFailureNone(imgs, c.isImage);
    FirstFailureNone(cams, c.isCamera);
    assert Verdict(c, Separated(imgs, cams), false) == Success(Separated(imgs, cams));
  }

  /** Images none of which is a camera are taken whole, with no camera. */
  lemma NoCameraInputs(c: Classifier, imgs: seq<string>)
    requires forall k :: 0 <= k < |imgs| ==> c.isImage(imgs[k]) && !c.isCamera(imgs[k])
    ensures Separate(c, imgs, false) == Success(Separated(imgs, []))
  {
    FilterKeepsAll(imgs, c.isImage);
    assert ImagesFirst(c, imgs) == imgs;
    assert ImagesOnly(c, imgs);
    FirstFailureNone(imgs, c.isImage);
  }

  /**
   * A list of cubes that all pass the image test is taken whole as images,
   * with no camera (an empty list has no camera either).
   */
  lemma AllCubesScenario(c: Classifier, inputs: seq<string>)
    requires forall k :: 0 <= k < |inputs| ==> c.isCube(inputs[k]) && c.isImage(inputs[k])
    ensures Separate(c, inputs, false) == Success(Separated(inputs, []))
  {
    assert ImagesFirst(c, inputs) == inputs by {
      FilterKeepsAll(inputs, c.isImage);
    }
    assert ImagesOnly(c, inputs) by {
      if inputs != [] {
        assert c.isCube(inputs[0]);
      }
    }
    assert Cut(c, inputs) == Separated(inputs, []);
    FirstFailureNone(inputs, c.isImage);
    assert Verdict(c, Separated(inputs, []), false) == Success(Separated(inputs, []));
  }

  /** With the extension tests, a list of cubes is all images and no camera. */
  lemma AllCubesAreImages(inputs: seq<string>)
    requires forall k :: 0 <= k < |inputs| ==> IsCube(inputs[k])
    ensures Separate(ExtensionClassifier(), inputs, false) == Success(Separated(inputs, []))
  {
    forall k | 0 <= k < |inputs| ensures HasImageExtension(inputs[k]) {
      CubIsImageAndCamera(inputs[k]);
    }
    AllCubesScenario(ExtensionClassifier(), inputs);
  }
}
