/** `WatermarkTool.process_images`: one pass over the image files of a directory, counting
    the images that were watermarked. The operating system and the imaging library are not
    modelled; what the pass needs from them is the `Environment` below. */
module Processing {
  import opened Wrappers
  import opened Dates
  import opened ImageFiles
  import opened Preferences

  /** The subdirectory of the input directory that receives the watermarked copies. */
  const OutputSubdirectory: string := "_watermark"

  /** What the tool learns from outside: the EXIF "DateTime" value of a file (None when the
      file cannot be opened or has none), its modification date (None when it cannot be
      read), the date the clock shows while the i-th image is processed (so a run may cross
      midnight), and whether `add_watermark(image, text, settings, output)` succeeds. */
  datatype Environment = Environment(
    exifOf: string -> Option<string>,
    mtimeOf: string -> Option<CalendarDate>,
    todayAt: nat -> CalendarDate,
    addWatermark: (string, string, Settings, string) -> bool)

  /** How a run ends: no image to process, no output directory, or a count of successes. */
  datatype Outcome = NoImages | OutputDirFailed | Done(succeeded: nat, total: nat)

  /** Where the copy of an image is saved: in the output directory, under the image's own name. */
  function OutputPath(outputDir: string, imagePath: string): (path: string)
    ensures EndsWith(path, Basename(imagePath))
    ensures Basename(path) == Basename(imagePath)
  {
    BasenameOfJoin(outputDir, Basename(imagePath));
    Join(outputDir, Basename(imagePath))
  }

  /** Whether the i-th image, `imagePath`, is watermarked: the text handed to the imaging
      library is its EXIF date when that parses, else its modification date, else the date
      the clock shows at that point of the run; the copy goes to its `OutputPath`. */
  predicate Succeeds(env: Environment, settings: Settings, outputDir: string, i: nat, imagePath: string)
    ensures ExifDate(env.exifOf(imagePath)).Some? ==>
              (Succeeds(env, settings, outputDir, i, imagePath) <==>
               env.addWatermark(imagePath, FormatDate(ExifDate(env.exifOf(imagePath)).value), settings, OutputPath(outputDir, imagePath)))
    ensures ExifDate(env.exifOf(imagePath)).None? && env.mtimeOf(imagePath).Some? ==>
              (Succeeds(env, settings, outputDir, i, imagePath) <==>
               env.addWatermark(imagePath, FormatDate(env.mtimeOf(imagePath).value), settings, OutputPath(outputDir, imagePath)))
    ensures ExifDate(env.exifOf(imagePath)).None? && env.mtimeOf(imagePath).None? ==>
              (Succeeds(env, settings, outputDir, i, imagePath) <==>
               env.addWatermark(imagePath, FormatDate(env.todayAt(i)), settings, OutputPath(outputDir, imagePath)))
  {
    var text := ResolveDate(env.exifOf(imagePath), env.mtimeOf(imagePath), env.todayAt(i));
    env.addWatermark(imagePath, text, settings, OutputPath(outputDir, imagePath))
  }

  /** The number of `true` outcomes. */
  function CountTrue(outcomes: seq<bool>): (n: nat)
    ensures n <= |outcomes|
  {
    if outcomes == [] then 0
    else CountTrue(outcomes[..|outcomes| - 1]) + (if outcomes[|outcomes| - 1] then 1 else 0)
  }

  /** Counting one more outcome adds one exactly when it is a success. */
  lemma CountTrueStep(outcomes: seq<bool>, i: nat)
    requires i <= |outcomes|
    ensures i < |outcomes| ==>
              CountTrue(outcomes[..i + 1]) == CountTrue(outcomes[..i]) + (if outcomes[i] then 1 else 0)
  {
    if i < |outcomes| {
      assert outcomes[..i + 1][..i] == outcomes[..i];
    }
  }

  /** The outcome of each of `paths` in order, the i-th being `succeeds(i, paths[i])`. */
  function OutcomesInOrder(succeeds: (nat, string) -> bool, paths: seq<string>): (outcomes: seq<bool>)
    ensures |outcomes| == |paths|
    ensures forall i :: 0 <= i < |paths| ==> outcomes[i] == succeeds(i, paths[i])
  {
    if paths == [] then []
    else
      var n := |paths| - 1;
      assert forall i :: 0 <= i < n ==> paths[..n][i] == paths[i];
      OutcomesInOrder(succeeds, paths[..n]) + [succeeds(n, paths[n])]
  }

  /** The outcomes of processing `paths` in order, one image after the other. */
  function FileOutcomes(env: Environment, settings: Settings, outputDir: string, paths: seq<string>): (outcomes: seq<bool>)
    ensures |outcomes| == |paths|
    ensures forall i :: 0 <= i < |paths| ==> outcomes[i] == Succeeds(env, settings, outputDir, i, paths[i])
  {
    OutcomesInOrder((i: nat, path: string) => Succeeds(env, settings, outputDir, i, path), paths)
  }

  /** The loop of `process_images`: resolve each image's date, watermark it, count the successes. */
  method CountWatermarked(env: Environment, settings: Settings, outputDir: string, imageFiles: seq<string>)
    returns (successCount: nat)
    ensures successCount == CountTrue(FileOutcomes(env, settings, outputDir, imageFiles))
    ensures successCount <= |imageFiles|
  {
    ghost var outcomes := FileOutcomes(env, settings, outputDir, imageFiles);
    successCount := 0;
    for i := 0 to |imageFiles|
      invariant successCount == CountTrue(outcomes[..i])
    {
      CountTrueStep(outcomes, i);
      var imagePath := imageFiles[i];
      var watermarkText := ResolveDate(env.exifOf(imagePath), env.mtimeOf(imagePath), env.todayAt(i));
      var succeeded := env.addWatermark(imagePath, watermarkText, settings, OutputPath(outputDir, imagePath));
      assert succeeded == Succeeds(env, settings, outputDir, i, imagePath);
      assert succeeded == outcomes[i];
      if succeeded {
        successCount := successCount + 1;
      }
    }
    assert outcomes[..|imageFiles|] == outcomes;
  }

  /** `process_images` given the settings the prompts produced and whether the output
      directory could be created; the per-file failures are counted, never raised. */
  method ProcessImages(directory: string, listing: Option<seq<string>>, settings: Settings,
                       outputDirCreated: bool, env: Environment) returns (outcome: Outcome)
    ensures var files := if listing.Some? then ImagePaths(directory, listing.value) else [];
            outcome == if files == [] then NoImages
                       else if !outputDirCreated then OutputDirFailed
                       else Done(CountTrue(FileOutcomes(env, settings, Join(directory, OutputSubdirectory), files)), |files|)
    ensures outcome.Done? ==> outcome.succeeded <= outcome.total
  {
    var imageFiles := GetImageFiles(directory, listing);
    if imageFiles == [] {
      return NoImages;
    }
    var outputDir := Join(directory, OutputSubdirectory);
    if !outputDirCreated {
      return OutputDirFailed;
    }
    var successCount := CountWatermarked(env, settings, outputDir, imageFiles);
    return Done(successCount, |imageFiles|);
  }

  /** The count reaches the total exactly when every image was watermarked. */
  lemma {:induction false} AllSucceeded(outcomes: seq<bool>)
    ensures CountTrue(outcomes) == |outcomes| <==> forall i :: 0 <= i < |outcomes| ==> outcomes[i]
  {
    if outcomes != [] {
      var init := outcomes[..|outcomes| - 1];
      AllSucceeded(init);
      assert forall i :: 0 <= i < |init| ==> init[i] == outcomes[i];
    }
  }

  /** The count is zero exactly when no image was watermarked. */
  lemma {:induction false} NoneSucceeded(outcomes: seq<bool>)
    ensures CountTrue(outcomes) == 0 <==> forall i :: 0 <= i < |outcomes| ==> !outcomes[i]
  {
    if outcomes != [] {
      var init := outcomes[..|outcomes| - 1];
      NoneSucceeded(init);
      assert forall i :: 0 <= i < |init| ==> init[i] == outcomes[i];
    }
  }

  /** Each image lands in the output directory under its own file name. */
  lemma OutputKeepsName(directory: string, name: string)
    requires '/' !in name
    ensures OutputPath(Join(directory, OutputSubdirectory), Join(directory, name)) ==
            Join(Join(directory, OutputSubdirectory), name)
  {
    BasenameOfJoin(directory, name);
  }
}
