# Command-line input classification of the Ames Stereo Pipeline, in Dafny

This project models the layer of `src/asp/Core/Common.cc` that the stereo
tools use to make sense of their positional arguments and of their
structured option values, and proves what that layer promises.

- **Extension tables** (`Extensions`). The five predicates
  `has_cam_extension`, `has_pinhole_extension`, `has_image_extension`,
  `has_tif_or_ntf_extension` and `has_shp_extension`, each a membership
  test on the extension of a path. `.cub` is both an image and a camera.
- **Suffix filters** (`Extensions`). `all_files_have_extension` and
  `get_files_with_ext` compare case-insensitive suffixes. The second one
  may erase its matches from the caller's list one by one.
- **`separate_images_from_cameras`** (`Separation`). This is the loop that
  reorders the list so the images come first. A second loop computes the
  three flags. Then comes one of two cuts:
  - all images, when the list is only cubes or has no camera;
  - first half images and second half cameras otherwise.

  After the cut come the checks of both halves, the count check and the
  optional padding with `""`. The separator is written and proved for any
  answers to its three questions (is an image, is a camera, is a cube). The
  program's answers are `Separation.ExtensionClassifier()`.
- **`parse_multiview_cmd_files`** (`Multiview`). It reads
  `<images> [<cameras>] <output prefix> [<DEM>]`. It takes off the DEM,
  requires three tokens, takes off and checks the prefix, separates the
  rest, and checks that every image and camera exists.
- **`parse_append_metadata`** (`Metadata`). It reads `VAR=VAL` tokens into a
  keyword map that may already hold entries.
- **`extract_prog_name`** (`ProgramName`). It returns the stem of the program
  path without libtool's `lt-`.
- **`BitChecker`** (`Bits`). This is a class with two 32-bit bitsets. A
  bitset is modelled as the set of its on-bits.
- **The option values** (`OptionValues`). This covers the five `validate`
  specialisations for Vector2i, Vector2, BBox2i, BBox2 and BBox3, and the
  `value()` factories that declare how many tokens each ingests.
  - `lexical_cast<int32>` is modelled concretely: an optional sign, then at
    least one decimal digit, within 32 bits.
  - `lexical_cast<double>` is a parameter.

The string helpers the source relies on are in `Text`:
- `boost::to_lower_copy` and `boost::iends_with`;
- boost filesystem's last component, extension and stem;
- `boost::split` with token compression and `boost::algorithm::join`;
- the white-space tokenisation of an input stream.

Reading a georeference (`read_georeference`) and asking the file system
whether a path exists (`fs::exists`) are parameters of the model
(`loadsAsGeoref`, `pathExists`).

The imperative parts are methods with loops, and each is proved equal to a
specification function:
- `Separation.SeparateWith` and `Separation.CheckAndPad`;
- `Extensions.GetFilesWithExt`, whose erase loop is kept, and
  `Extensions.AllFilesHaveExtension`;
- `Multiview.ParseMultiviewWith` and `Multiview.VerifyPathsExist`;
- `Metadata.ParseAppendMetadata`;
- the `Bits.BitChecker` class.

The properties are then proved about those functions.

The check at `src/asp/Core/Common.cc:214-216` can never fire: "Expecting the
number of images and cameras to agree". Both cuts already make the counts
agree. The contract of `Separation.Separate` states this.

## Model

| member | source | states |
|---|---|---|
| Extensions.HasCamExtension | src/asp/Core/Common.cc:67-74 | a path is a camera exactly when its extension is in the pinhole table or the other camera table; every pinhole path is a camera |
| Extensions.HasPinholeExtension | src/asp/Core/Common.cc:76-84 | a pinhole path is a camera and never an image |
| Extensions.HasImageExtension | src/asp/Core/Common.cc:86-95 | an image path is also a camera exactly when its extension is `.cub` |
| Extensions.HasTifOrNtfExtension | src/asp/Core/Common.cc:97-102 | a `.tif` or `.ntf` path is an image and not a camera |
| Extensions.HasShpExtension | src/asp/Core/Common.cc:104-109 | a `.shp` path is neither an image nor a camera |
| Extensions.CubIsImageAndCamera | src/asp/Core/Common.cc:67-95 | a path with extension `.cub` satisfies both the image and the camera predicate |
| Extensions.ExtensionOf | src/asp/Core/Common.cc:68 | a path ending in `.` plus at least one character, with no further `.` or `/`, has exactly that suffix as its extension |
| Extensions.NoDotNoExtension | src/asp/Core/Common.cc:68 | a last path component without `.` has no extension |
| Extensions.MatchesLowered | src/asp/Core/Common.cc:113 | case-insensitive ends-with on the lower-cased name is plain ends-with once both sides are lower-cased |
| Extensions.AllFilesHaveExtension | src/asp/Core/Common.cc:111-117 | the result is true exactly when every file matches the extension |
| Extensions.AllMatchIffNothingFiltered | src/asp/Core/Common.cc:111-136 | every file matches exactly when get_files_with_ext would return the whole list |
| Extensions.GetFilesWithExt | src/asp/Core/Common.cc:120-136 | the result is the matching files in input order; a pruned list is then exactly the non-matches in order; otherwise the list is unchanged |
| Extensions.PrunedListPartition | src/asp/Core/Common.cc:120-136 | the returned matches and the pruned list together are a rearrangement of the input |
| Text.GetExtension | src/asp/Core/Common.cc:68 | the extension is empty or a `.` followed by no other `.`; it has no `/` and is a suffix of the path |
| Text.Stem | src/asp/Core/Common.cc:351 | the stem followed by the extension is the last component of the path |
| Text.IEndsWithLowered | src/asp/Core/Common.cc:113 | iends_with on a lower-cased string agrees with ends_with against the lower-cased suffix |
| Text.Split | src/asp/Core/Common.cc:820 | a compressed split yields at least one piece, and no piece holds a delimiter |
| Text.SplitJoinWith | src/asp/Core/Common.cc:816-820 | joining non-empty, delimiter-free pieces with a non-empty run of delimiters of its own in every gap and splitting again gives the pieces back |
| Text.JoinWithAppend | src/asp/Core/Common.cc:818 | two joined runs of pieces with a separator between them are one joined run |
| Text.SplitJoin | src/asp/Core/Common.cc:818-820 | joining non-empty, delimiter-free pieces with any one run of delimiters and splitting again gives the pieces back |
| Text.WordsJoin | src/asp/Core/Common.cc:304-309 | the stream's words of words joined by white space are those words |
| Separation.Separate | src/asp/Core/Common.cc:140-223 | on success every image is an image; without padding every camera is a camera and cameras are none or as many as images; with padding as many as images, each a camera or `""`; a failure is UnevenImagesCameras, NotAnImage or NotACamera, never the count mismatch |
| Separation.Verdict | src/asp/Core/Common.cc:200-221 | a success satisfies the same guarantees; a count mismatch is reported only when there are cameras and their number differs from the images' |
| Separation.SeparateOrdered | src/asp/Core/Common.cc:166-221 | on the reordered list: the same guarantees, and an uneven list in the paired scenario fails before any count check |
| Separation.SeparateImagesFromCameras | src/asp/Core/Common.cc:140-223 | the result, with the program's extension tests, is the specified separation or the error it throws |
| Separation.SeparateWith | src/asp/Core/Common.cc:154-198 | the reordering loop, the flag loop and the cut compute the specified separation for any classifier |
| Separation.CheckAndPad | src/asp/Core/Common.cc:200-221 | reports the first non-image, then the first non-camera, then a count mismatch; otherwise pads the cameras with `""` when asked |
| Separation.ImagesFirstIsStablePartition | src/asp/Core/Common.cc:154-164 | the reordering is a permutation of the inputs of the same length, all images first and all non-images after |
| Separation.ImagesOnlyScenario | src/asp/Core/Common.cc:168-185 | when only cubes or no camera: success exactly when every entry is an image, and then images is the whole reordered list and cameras is empty |
| Separation.PairedScenario | src/asp/Core/Common.cc:187-198 | otherwise an odd count fails with UnevenImagesCameras; a success is the first half as images and the second half as cameras |
| Separation.EqualSizesOnlyPads | src/asp/Core/Common.cc:218-221 | with ensure_equal_sizes the result is the one without, its cameras padded with empty names, and the errors are the same |
| Separation.SeparatedCoverInputs | src/asp/Core/Common.cc:154-198 | images followed by cameras is the reordered input, a permutation of the inputs |
| Separation.NoCamerasIffImagesOnly | src/asp/Core/Common.cc:181-198 | a successful result has no cameras exactly in the images-only scenario |
| Separation.OddWithCameraIsRejected | src/asp/Core/Common.cc:181-192 | an odd number of inputs including a camera that is not a cube fails with UnevenImagesCameras |
| Separation.SeparateIdempotent | src/asp/Core/Common.cc:140-223 | separating an images-only result again gives the same result |
| Separation.ImagesOnlyResult | src/asp/Core/Common.cc:168-185 | a result with no camera is the reordered input, in the images-only scenario, all images |
| Separation.SeparateImagesOnly | src/asp/Core/Common.cc:168-185 | a list of images in the images-only scenario separates as itself |
| Separation.InterleavingDoesNotMatter | src/asp/Core/Common.cc:152-164 | two lists with the same images and the same non-images, each in order, separate alike |
| Separation.AlreadyOrdered | src/asp/Core/Common.cc:156-164 | a list whose images all precede its non-images is not reordered |
| Separation.PairedInputs | src/asp/Core/Common.cc:187-198 | n images followed by n cameras that are not images, the first not a cube, are paired positionally |
| Separation.NoCameraInputs | src/asp/Core/Common.cc:181-185 | images none of which is a camera are taken whole, with no camera |
| Separation.AllCubesScenario | src/asp/Core/Common.cc:168-185 | a list of cubes that pass the image test is all images, no camera |
| Separation.AllCubesAreImages | src/asp/Core/Common.cc:147-185 | with the extension tests, a list of `.cub` files is all images, no camera |
| Multiview.WithoutDem | src/asp/Core/Common.cc:240-252 | the last token is dropped exactly when it loads as a georeference; the rest is kept in order |
| Multiview.ParseMultiview | src/asp/Core/Common.cc:226-297 | "too few inputs" is the result exactly when fewer than three tokens precede the DEM; on success the prefix is non-empty and neither image nor camera, every image is an image and every camera a camera, all exist, and the flag says whether the prefix exists |
| Multiview.ParseMultiviewCmdFiles | src/asp/Core/Common.cc:226-297 | the result, with the program's extension tests, is the specified parse or the error it throws |
| Multiview.ParseMultiviewWith | src/asp/Core/Common.cc:231-297 | popping the DEM, the count check, the prefix check, the separation and the existence checks compute the specified parse |
| Multiview.VerifyPathsExist | src/asp/Core/Common.cc:274-294 | reports the first missing image, then the first missing camera; otherwise succeeds, flagging whether the prefix exists |
| Multiview.ParsedShape | src/asp/Core/Common.cc:240-294 | on success: the DEM is the last token exactly when it loads as a georeference; the prefix is the token before it and acceptable; images and cameras are the separation, with ensure_equal_sizes false, of the tokens before the prefix, and all exist |
| Multiview.SuccessIff | src/asp/Core/Common.cc:240-296 | a parse succeeds exactly when three tokens precede the DEM, the prefix is acceptable, the separation succeeds and every image and camera exists |
| Multiview.TokensAccountedFor | src/asp/Core/Common.cc:237-272 | the images, cameras, prefix and DEM of a success are a rearrangement of the tokens |
| Multiview.ParseWellFormed | src/asp/Core/Common.cc:237-296 | a command line built from accepted inputs, an acceptable prefix and an optional DEM parses into exactly those parts |
| Multiview.TifClass | src/asp/Core/Common.cc:86-95 | a `.tif` path is an image and not a camera |
| Multiview.TsaiClass | src/asp/Core/Common.cc:67-84 | a `.tsai` path is a camera, not an image and not a cube |
| Multiview.NoExtensionClass | src/asp/Core/Common.cc:67-95 | a path without extension is neither image nor camera |
| Multiview.OutRunHasNoExtension | src/asp/Core/Common.cc:263 | "out/run" has no extension |
| Multiview.ATifExtension | src/asp/Core/Common.cc:68 | the extension of "a.tif" is ".tif" |
| Multiview.BTifExtension | src/asp/Core/Common.cc:68 | the extension of "b.tif" is ".tif" |
| Multiview.ATsaiExtension | src/asp/Core/Common.cc:68 | the extension of "a.tsai" is ".tsai" |
| Multiview.BTsaiExtension | src/asp/Core/Common.cc:68 | the extension of "b.tsai" is ".tsai" |
| Multiview.ACubExtension | src/asp/Core/Common.cc:68 | the extension of "a.cub" is ".cub" |
| Multiview.BCubExtension | src/asp/Core/Common.cc:68 | the extension of "b.cub" is ".cub" |
| Multiview.TwoImages | src/asp/Core/Common.cc:181-185 | two images, both cubes or neither a camera, are taken as images only |
| Multiview.TwoImagesTwoCameras | src/asp/Core/Common.cc:187-198 | two images followed by two non-image cameras are paired in order |
| Multiview.OutRunIsAPrefix | src/asp/Core/Common.cc:262-266 | "out/run" is an acceptable output prefix |
| Multiview.TifPairSeparates | src/asp/Core/Common.cc:181-185 | two `.tif` files are two images and no camera |
| Multiview.CubPairSeparates | src/asp/Core/Common.cc:181-185 | two `.cub` files are two images and no camera |
| Multiview.TifTsaiSeparates | src/asp/Core/Common.cc:187-198 | two `.tif` and two `.tsai` files are paired in order |
| Multiview.ImagesCamerasAndPrefix | src/asp/Core/Common.cc:237-296 | images, cameras and a prefix parse into those parts with no DEM |
| Multiview.CubesAndPrefix | src/asp/Core/Common.cc:237-296 | two cubes and a prefix parse into two images and no camera |
| Multiview.ImagesPrefixAndDem | src/asp/Core/Common.cc:243-252 | a last token that loads as a georeference becomes the DEM |
| Multiview.CameraAsPrefix | src/asp/Core/Common.cc:262-266 | a camera in the prefix position is rejected as an invalid prefix |
| Multiview.PrefixRejected | src/asp/Core/Common.cc:262-266 | with no DEM, at least three tokens and a last token that is empty, an image or a camera, the parse fails with that token as the invalid prefix |
| Metadata.AppendTokens | src/asp/Core/Common.cc:306-312 | no entry of the map is removed; there is no error exactly when every token has two fields; an error is always CouldNotParse |
| Metadata.AppendMetadata | src/asp/Core/Common.cc:299-313 | no entry of the map is removed; the parse fails exactly when some word of the text lacks two fields, and then with CouldNotParse |
| Metadata.ParseAppendMetadata | src/asp/Core/Common.cc:301-313 | the map and error the token loop leaves are those of the specified parse |
| Metadata.StopsAtFirstBadToken | src/asp/Core/Common.cc:306-311 | the parse stops at the first token without two words, reporting it as rewritten; the map holds the assignments of the tokens before it; no error when every token parses |
| Metadata.NoBadToken | src/asp/Core/Common.cc:306-312 | when every token parses the map receives all their assignments and there is no error |
| Metadata.LastNaming | src/asp/Core/Common.cc:311 | the index found names the key, and no later token does |
| Metadata.LastInsertWins | src/asp/Core/Common.cc:311 | after the insertions a key holds the value of its last insertion; a key never inserted is as it was |
| Metadata.LastWriterWins | src/asp/Core/Common.cc:302-311 | after the assignments a named key holds the value of the last token naming it; other keys, present or absent, are unchanged |
| Metadata.InsertFront | src/asp/Core/Common.cc:306-311 | inserting the first pair and then the rest equals inserting them all in order |
| Metadata.TokenFields | src/asp/Core/Common.cc:307-309 | `name=value` with plain name and value parses into that name and that value |
| Metadata.RenderParses | src/asp/Core/Common.cc:299-313 | rendering plain assignments as "VAR1=VAL1 VAR2=VAL2" and parsing it inserts exactly those assignments, in order, with no error |
| ProgramName.ExtractProgName | src/asp/Core/Common.cc:348-358 | the stem of the path is the name, preceded by `lt-` exactly when the stem starts with it |
| ProgramName.ProgNameParts | src/asp/Core/Common.cc:348-358 | the name has no `/`; the last path component is the `lt-` prefix if the stem had it, then the name, then the extension |
| ProgramName.DirectoryIgnored | src/asp/Core/Common.cc:351 | the directory part of the path does not change the name |
| ProgramName.FilenameAfterSlash | src/asp/Core/Common.cc:351 | what follows the last `/` is the last component |
| ProgramName.SameFilenameSameName | src/asp/Core/Common.cc:351 | two paths with the same last component have the same name |
| ProgramName.LibtoolNameStripped | src/asp/Core/Common.cc:352-355 | "lt-" followed by a plain name gives that name |
| Bits.RangeMembers | src/asp/Core/Common.cc:755-759 | the positions set by the constructor's loop are exactly those below n |
| Bits.RangeSize | src/asp/Core/Common.cc:755-759 | n positions are set |
| Bits.BitChecker.constructor | src/asp/Core/Common.cc:749-760 | bits 0..n-1 of good are on and checksum is clear |
| Bits.NewBitChecker | src/asp/Core/Common.cc:749-753 | zero arguments and more than 32 are refused with their messages; otherwise a fresh checker expecting n arguments, none checked |
| Bits.BitChecker.CheckArgument | src/asp/Core/Common.cc:744-747 | sets bit arg of checksum when it is inside the bitset (otherwise the set throws and nothing changes); good is untouched |
| Bits.BitChecker.IsGood | src/asp/Core/Common.cc:762-765 | true exactly when every expected argument has been checked and no other |
| Bits.Checked | src/asp/Core/Common.cc:744-747 | for in-range arguments, the bits a run of checks sets are exactly the arguments named |
| Bits.GoodIffAllNamed | src/asp/Core/Common.cc:744-765 | for in-range arguments, a run of checks makes a checker for n good exactly when it names every argument below n and nothing else, in any order, with repetitions |
| Bits.RunChecks | src/asp/Core/Common.cc:744-765 | check_argument on each in-range argument in turn sets exactly the bits named, leaves good alone, and the checker is then good exactly when every expected argument was named and no other |
| Bits.TwoArgumentsInAnyOrder | src/asp/Core/Common.cc:744-765 | a checker for two is not good before any check, good after checking 1, 0, 1, and not good after also checking 5 |
| OptionValues.ParseInt32 | src/asp/Core/Common.cc:826-827 | a converted string is non-empty and all digits after an optional sign |
| OptionValues.ParseShowInt | src/asp/Core/Common.cc:826-827 | the decimal text of every 32-bit integer converts back to it |
| OptionValues.PlusSign | src/asp/Core/Common.cc:826-827 | a leading `+` does not change the converted value |
| OptionValues.ValueTokens | src/asp/Core/Common.cc:816-820 | joining and splitting an occurrence yields at least one piece, and no piece holds a comma or space |
| OptionValues.ParseAll | src/asp/Core/Common.cc:825-830 | all pieces convert exactly when each one does, and then the results are in the pieces' order |
| OptionValues.ParseFixed | src/asp/Core/Common.cc:814-830 | a second occurrence is refused; a wrong count is missing_parameter; with the right count success exactly when every piece converts, else invalid_option_value; the values follow the pieces |
| OptionValues.ValidateVector2i | src/asp/Core/Common.cc:810-832 | on success x and y are the two pieces converted as int32, in order; every failure is the common parse's error |
| OptionValues.ValidateVector2 | src/asp/Core/Common.cc:834-857 | on success x and y are the two pieces converted as reals, in order; every failure is the common parse's error |
| OptionValues.ValidateBBox2i | src/asp/Core/Common.cc:859-884 | on success the first two pieces are the first corner and the last two the second, as int32; every failure is the common parse's error |
| OptionValues.ValidateBBox2 | src/asp/Core/Common.cc:886-911 | on success the first two pieces are the first corner and the last two the second, as reals; every failure is the common parse's error |
| OptionValues.ValidateBBox3 | src/asp/Core/Common.cc:913-942 | on success the first three pieces are the first corner and the last three the second; every failure is the common parse's error |
| OptionValues.TokenCount | src/asp/Core/Common.cc:770-805 | every factory declares an even count from 2 to 6, and 2 exactly for the two point types |
| OptionValues.FactoryMatchesValidator | src/asp/Core/Common.cc:770-832 | the count each factory declares is the number of pieces the validator of its type accepts |
| OptionValues.SeparateOrJoined | src/asp/Core/Common.cc:816-820 | separate tokens and one token holding all the pieces joined by any one run of commas and spaces yield the same pieces |
| OptionValues.JoinGroups | src/asp/Core/Common.cc:818 | joining the tokens with a space is joining all their pieces at all their gaps |
| OptionValues.DelimitersInterchangeable | src/asp/Core/Common.cc:816-820 | however the pieces are grouped into tokens, and whatever runs of commas and spaces separate them inside a token, the occurrence yields exactly the pieces |
| OptionValues.MixedTokens | src/asp/Core/Common.cc:816-820 | "1,2" followed by "3" gives the pieces 1, 2, 3 |
| OptionValues.ParsesInOrder | src/asp/Core/Common.cc:822-828 | the right number of convertible pieces gives their values in order |
| OptionValues.FactoryArityAccepted | src/asp/Core/Common.cc:772-805 | exactly as many numbers as the type's factory declares are accepted, one per token or comma-joined, and give those numbers in order |
| OptionValues.WrongArityRefused | src/asp/Core/Common.cc:822-823 | any other number of pieces is refused with missing_parameter, however they are delimited |
| OptionValues.OneBadPieceRefused | src/asp/Core/Common.cc:825-830 | one unconvertible piece fails the whole occurrence with invalid_option_value |
| OptionValues.BoxCornersInOrder | src/asp/Core/Common.cc:875-880 | "a,b,c,d" gives the box with first corner (a, b) and second corner (c, d) |
| OptionValues.BoxOfNumbers | src/asp/Core/Common.cc:875-880 | a box is built from the converted numbers, first corner first |
| OptionValues.SecondOccurrenceRefused | src/asp/Core/Common.cc:918 | an option given twice is refused before anything is parsed |
| OptionValues.PointExamples | src/asp/Core/Common.cc:810-831 | "1,2" and "1" "2" both give the point (1, 2) |
| OptionValues.BoxExample | src/asp/Core/Common.cc:859-884 | "0,0,10,10" gives the box from (0, 0) to (10, 10) |
| OptionValues.TooManyExample | src/asp/Core/Common.cc:822-823 | three numbers for a point are missing_parameter |
| OptionValues.LettersExample | src/asp/Core/Common.cc:825-830 | "a,b" for a point is invalid_option_value |

## Left out

- The rest of `src/asp/Core/Common.cc` is left out. That covers environment
  set-up, shelling out and logging, `check_command_line`, `set_srs_string`,
  the clock and rounding functions, and the list and vector readers. These
  are I/O, floating point or calls into GDAL and boost.program_options.
  `src/asp/Camera/RPCModel.cc` is not part of this model.
- The extension predicates compare the extension with each entry of a list
  in turn. The model writes that chain as membership in a constant table.
  The tables hold the same strings.
- `vw::get_extension` and `fs::basename` are not part of this model. They
  are modelled as boost filesystem defines them for plain names:
  - the last component is what follows the last `/`;
  - the extension starts at its last `.`;
  - `.` and `..` have no extension.

  Trailing slashes, root names and other path syntaxes are not modelled.
- `Extensions.HasImageExtension` and the other extension predicates compare
  the extension exactly as written, so `.TIF` is not `.tif`. Whether
  `vw::get_extension` lower-cases its result is an assumption of the model.
- `Separation.Classifier`: the separator is proved for any image, camera
  and cube tests. The program's tests are one instance of them.
- Out-parameters after an error are not modelled. When the source throws,
  it may already have written `images`, `cameras`, `prefix` or
  `dem_path`. The model returns the error alone.
- `Multiview.HasDem` with no token at all: the source calls `back()` on an
  empty vector, which is undefined. The model then takes "no DEM" and
  reports too few inputs.
- `fs::exists` and `read_georeference` are predicates passed in as
  `pathExists` and `loadsAsGeoref`. Any exception `read_georeference`
  swallows counts as "does not load".
- The warning printed when the prefix exists is recorded only as the
  `prefixExists` flag of the result.
- `lexical_cast<double>` is the parameter `parseReal`. Real-number syntax
  and rounding are not modelled.
- The callers' containers are modelled as values passed in and handed back.
  For `get_files_with_ext` this is the list and for
  `parse_append_metadata` the map, each updated by reference in the
  source. Aliasing between arguments is not modelled.
- `check_first_occurrence` is modelled as "the option already holds a
  value". The `value()` factories construct `typed_N_value` objects, which
  are not part of this model. `OptionValues.TokenCount` records the N each
  factory declares.
- The BBox and Vector constructors are not part of this model. A box is
  assumed to store its two corners as given, first corner as min.
- The declaration of `BitChecker` is not part of this model. Its bitsets
  are taken to be 32 bits wide, the bound the constructor asserts.
  `std::bitset::set` throws `out_of_range` for a position past the end.
  `Bits.BitChecker.CheckArgument` reports that case as `inRange == false`.
