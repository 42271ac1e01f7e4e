/**
 * The `IconGenerator` component as an object: its React state becomes the
 * fields of a class, and each event handler a method that updates them in
 * the order the handler does. The hidden canvas is an object of its own whose
 * width and height the resizer sets; what it draws is the `render` parameter.
 */
module IconGenerator {
  import opened Wrappers
  import opened Catalog
  import opened FileNames
  import opened DataUrl
  import opened Pipeline
  import opened Archive

  /** The toasts the component shows, by the event they report. */
  datatype Notice = ImageLoaded | GenerationSucceeded | GenerationFailed | ZipDownloaded | ZipFailed

  /** What the browser is asked to save: one PNG through a link, or the ZIP archive. */
  datatype Download =
    | FileDownload(fileName: string, url: string)
    | ZipDownload(fileName: string, entries: map<string, Blob>)

  /** The hidden canvas element. */
  class Canvas {
    var width: nat
    var height: nat
    /** Every size the canvas has been set to, in order. */
    ghost var sizes: seq<nat>

    /** A fresh canvas has the HTML default size of 300 by 150. */
    constructor ()
      ensures width == 300 && height == 150 && sizes == []
    {
      width, height := 300, 150;
      sizes := [];
    }
  }

  /** The pixel sizes the canvas is set to for a sequence of steps. */
  function RenderSizes(steps: seq<Step>): seq<nat> {
    seq(|steps|, k requires 0 <= k < |steps| => steps[k].pixelSize)
  }

  /** One more step adds its pixel size at the end. */
  lemma RenderSizesSnoc(steps: seq<Step>, s: Step)
    ensures RenderSizes(steps + [s]) == RenderSizes(steps) + [s.pixelSize]
  {
  }

  /** The downloads the "Download All" button asks for: one per icon, named by its sanitised name. */
  function FileDownloads(icons: seq<Icon>): seq<Download> {
    seq(|icons|, k requires 0 <= k < |icons| => FileDownload(Sanitize(icons[k].name) + ".png", icons[k].url))
  }

  /** The downloads of a run's icons have pairwise different file names. */
  lemma GeneratedDownloadsDistinct(render: nat -> string)
    ensures |FileDownloads(Generated(render))| == |Generated(render)|
    ensures forall i, j :: 0 <= i < j < |FileDownloads(Generated(render))| ==>
      FileDownloads(Generated(render))[i].fileName != FileDownloads(Generated(render))[j].fileName
  {
    var icons := Generated(render);
    var downloads := FileDownloads(icons);
    GeneratedDistinct(render);
    forall i, j | 0 <= i < j < |downloads|
      ensures downloads[i].fileName != downloads[j].fileName
    {
      var a, b := Sanitize(icons[i].name), Sanitize(icons[j].name);
      assert downloads[i].fileName[..|a|] == a;
      assert downloads[j].fileName[..|b|] == b;
    }
  }

  class IconGenerator {
    /** `canvasRef.current`: the canvas, or null when it is not mounted. */
    const canvas: Canvas?
    var sourceImage: Option<string>
    var isGenerating: bool
    var isDownloading: bool
    var progress: real
    var generatedIcons: seq<Icon>
    var notices: seq<Notice>
    var downloads: seq<Download>
    /** Every value given to `setProgress`, in order. */
    ghost var progressLog: seq<real>

    /** Nothing is running and no progress is shown. */
    predicate Idle()
      reads this
    {
      !isGenerating && !isDownloading && progress == 0.0
    }

    /** The state the component mounts with. */
    constructor (canvas: Canvas?)
      ensures this.canvas == canvas && Idle()
      ensures sourceImage == None && generatedIcons == [] && notices == [] && downloads == [] && progressLog == []
    {
      this.canvas := canvas;
      sourceImage := None;
      isGenerating, isDownloading := false, false;
      progress := 0.0;
      generatedIcons := [];
      notices, downloads := [], [];
      progressLog := [];
    }

    /**
     * `onDrop`: the data URL read from the first dropped file becomes the
     * source image; with no file nothing happens. The icons of an earlier run
     * are kept.
     */
    method LoadImage(file: Option<string>)
      modifies this
      ensures file.None? ==> unchanged(this)
      ensures file.Some? ==>
        && sourceImage == file && notices == old(notices) + [ImageLoaded]
        && isGenerating == old(isGenerating) && isDownloading == old(isDownloading) && progress == old(progress)
        && generatedIcons == old(generatedIcons) && downloads == old(downloads) && progressLog == old(progressLog)
    {
      if file.Some? {
        sourceImage := file;
        notices := notices + [ImageLoaded];
      }
    }

    /**
     * `resizeImage`: without a canvas the result is empty; otherwise the canvas
     * is set to size by size and its PNG data URL (empty when it has no 2d
     * context) is the result.
     */
    method ResizeImage(render: nat -> string, size: nat) returns (url: string)
      modifies canvas
      ensures canvas == null ==> url == ""
      ensures canvas != null ==>
        && url == render(size)
        && canvas.width == size && canvas.height == size && canvas.sizes == old(canvas.sizes) + [size]
    {
      if canvas == null {
        return "";
      }
      canvas.width := size;
      canvas.height := size;
      canvas.sizes := canvas.sizes + [size];
      url := render(size);
    }

    /** Only the progress and the canvas may have changed: the session state is as before. */
    twostate predicate SameSession()
      reads this
    {
      && sourceImage == old(sourceImage) && generatedIcons == old(generatedIcons)
      && isGenerating == old(isGenerating) && isDownloading == old(isDownloading)
      && notices == old(notices) && downloads == old(downloads)
    }

    /**
     * The body of the inner `for` of `generateIcons`, for one step: render
     * it, keep its icon when the render is non-empty, count it and report the
     * new progress.
     */
    method RenderStep(step: Step, render: nat -> string, total: nat, icons0: seq<Icon>, completed0: nat,
                      ghost done0: seq<Step>, ghost log0: seq<real>, ghost sizes0: seq<nat>)
      returns (icons: seq<Icon>, completed: nat)
      requires canvas != null && total > 0
      requires icons0 == Kept(done0, render) && completed0 == |done0|
      requires progressLog == log0 + ProgressTrace(completed0, total)
      requires canvas.sizes == sizes0 + RenderSizes(done0)
      modifies this, canvas
      ensures icons == Kept(done0 + [step], render) && completed == |done0 + [step]|
      ensures progress == ProgressAfter(completed, total)
      ensures progressLog == log0 + ProgressTrace(completed, total)
      ensures canvas.sizes == sizes0 + RenderSizes(done0 + [step])
      ensures SameSession()
    {
      var resizedImageUrl := ResizeImage(render, step.pixelSize);
      KeptSnoc(done0, step, render);
      RenderSizesSnoc(done0, step);
      icons := icons0;
      if resizedImageUrl != "" {
        icons := icons + [Icon(step.name, resizedImageUrl)];
      }
      completed := completed0 + 1;
      assert ProgressTrace(completed, total) == ProgressTrace(completed0, total) + [ProgressAfter(completed, total)];
      progress := ProgressAfter(completed, total);
      progressLog := progressLog + [progress];
    }

    /**
     * The inner `for` of `generateIcons`, over one row's scales: the step of
     * each scale, with its pixel size and name, is rendered in listed order.
     */
    method RenderRow(entry: IconSize, render: nat -> string, total: nat, icons0: seq<Icon>, completed0: nat,
                     ghost done0: seq<Step>, ghost log0: seq<real>, ghost sizes0: seq<nat>)
      returns (icons: seq<Icon>, completed: nat)
      requires canvas != null && total > 0
      requires icons0 == Kept(done0, render) && completed0 == |done0|
      requires progressLog == log0 + ProgressTrace(completed0, total)
      requires canvas.sizes == sizes0 + RenderSizes(done0)
      modifies this, canvas
      ensures icons == Kept(done0 + EntrySteps(entry), render)
      ensures completed == |done0 + EntrySteps(entry)|
      ensures progressLog == log0 + ProgressTrace(completed, total)
      ensures canvas.sizes == sizes0 + RenderSizes(done0 + EntrySteps(entry))
      ensures SameSession()
    {
      icons, completed := icons0, completed0;
      ghost var done := done0;
      for j := 0 to |entry.scales|
        invariant done == done0 + EntrySteps(entry)[..j]
        invariant icons == Kept(done, render) && completed == |done|
        invariant progressLog == log0 + ProgressTrace(completed, total)
        invariant canvas.sizes == sizes0 + RenderSizes(done)
        invariant SameSession()
      {
        var scale := entry.scales[j];
        var pixelSize := PixelSize(entry.halfPoints, scale);
        var iconName := IconName(entry, scale);
        icons, completed := RenderStep(Step(iconName, pixelSize), render, total, icons, completed, done, log0, sizes0);
        EntryStepsPrefix(entry, j);
        done := done + [Step(iconName, pixelSize)];
      }
      assert EntrySteps(entry)[..|entry.scales|] == EntrySteps(entry);
    }

    /**
     * The outer `for` of `generateIcons`, over the table's rows: it renders
     * every table step in order and reports progress after each one.
     */
    method RenderTable(render: nat -> string) returns (icons: seq<Icon>)
      requires canvas != null
      modifies this, canvas
      ensures icons == Kept(Steps(IOS_SIZES), render)
      ensures progressLog == old(progressLog) + ProgressTrace(15, 15)
      ensures canvas.sizes == old(canvas.sizes) + RenderSizes(Steps(IOS_SIZES))
      ensures SameSession()
    {
      icons := [];
      var completed := 0;
      var total := Total(IOS_SIZES);
      IosSizesShape();
      ghost var log0 := progressLog;
      ghost var sizes0 := canvas.sizes;
      assert IOS_SIZES[..0] == [];
      assert RenderSizes([]) == [];
      for i := 0 to |IOS_SIZES|
        invariant icons == Kept(Steps(IOS_SIZES[..i]), render) && completed == |Steps(IOS_SIZES[..i])|
        invariant progressLog == log0 + ProgressTrace(completed, total)
        invariant canvas.sizes == sizes0 + RenderSizes(Steps(IOS_SIZES[..i]))
        invariant SameSession()
      {
        StepsSnoc(IOS_SIZES, i);
        icons, completed := RenderRow(IOS_SIZES[i], render, total, icons, completed,
                                      Steps(IOS_SIZES[..i]), log0, sizes0);
      }
      assert IOS_SIZES[..|IOS_SIZES|] == IOS_SIZES;
    }

    /**
     * The two renders after the table's loop: the Android adaptive icon,
     * then the splash icon, each kept when its render is non-empty.
     */
    method RenderFixed(render: nat -> string, icons0: seq<Icon>, ghost done0: seq<Step>, ghost sizes0: seq<nat>)
      returns (icons: seq<Icon>)
      requires canvas != null
      requires icons0 == Kept(done0, render) && canvas.sizes == sizes0 + RenderSizes(done0)
      modifies canvas
      ensures icons == Kept(done0 + FIXED_STEPS, render)
      ensures canvas.sizes == sizes0 + RenderSizes(done0 + FIXED_STEPS)
      ensures canvas.width == 200 && canvas.height == 200
    {
      icons := icons0;
      var adaptiveIconUrl := ResizeImage(render, ADAPTIVE_ICON.pixelSize);
      KeptSnoc(done0, ADAPTIVE_ICON, render);
      RenderSizesSnoc(done0, ADAPTIVE_ICON);
      if adaptiveIconUrl != "" {
        icons := icons + [Icon(ADAPTIVE_ICON.name, adaptiveIconUrl)];
      }
      ghost var done := done0 + [ADAPTIVE_ICON];

      var splashIconUrl := ResizeImage(render, SPLASH_ICON.pixelSize);
      KeptSnoc(done, SPLASH_ICON, render);
      RenderSizesSnoc(done, SPLASH_ICON);
      if splashIconUrl != "" {
        icons := icons + [Icon(SPLASH_ICON.name, splashIconUrl)];
      }
      assert done + [SPLASH_ICON] == done0 + FIXED_STEPS;
    }

    /**
     * The body of `generateIcons` once the image has decoded: the table
     * steps, then the adaptive icon, then the splash icon.
     */
    method RenderRun(render: nat -> string) returns (icons: seq<Icon>)
      requires canvas != null
      modifies this, canvas
      ensures icons == Generated(render)
      ensures progressLog == old(progressLog) + ProgressTrace(15, 15)
      ensures canvas.sizes == old(canvas.sizes) + RenderSizes(RunSteps())
      ensures canvas.width == 200 && canvas.height == 200
      ensures SameSession()
    {
      ghost var sizes0 := canvas.sizes;
      icons := RenderTable(render);
      icons := RenderFixed(render, icons, Steps(IOS_SIZES), sizes0);
    }

    /**
     * `generateIcons`. Without a non-empty source image or a canvas nothing
     * changes. Otherwise the icon list is cleared and, when the image decodes,
     * filled with the run's icons; progress goes 0, then k/15 of the way after
     * the k-th table step, then back to 0; the canvas is set to every step's
     * pixel size in run order.
     */
    method GenerateIcons(decodeOk: bool, render: nat -> string)
      modifies this, canvas
      ensures old(sourceImage).None? || old(sourceImage) == Some("") || canvas == null ==>
        unchanged(this) && (canvas != null ==> unchanged(canvas))
      ensures old(sourceImage).Some? && old(sourceImage) != Some("") && canvas != null ==>
        && sourceImage == old(sourceImage) && downloads == old(downloads)
        && !isGenerating && isDownloading == old(isDownloading) && progress == 0.0
        && generatedIcons == (if decodeOk then Generated(render) else [])
        && notices == old(notices) + [if decodeOk then GenerationSucceeded else GenerationFailed]
        && progressLog == old(progressLog) + [0.0] + (if decodeOk then ProgressTrace(15, 15) else []) + [0.0]
        && canvas.sizes == old(canvas.sizes) + (if decodeOk then RenderSizes(RunSteps()) else [])
        && (decodeOk ==> canvas.width == 200 && canvas.height == 200)
        && (!decodeOk ==> canvas.width == old(canvas.width) && canvas.height == old(canvas.height))
    {
      if sourceImage.None? || sourceImage.value == "" || canvas == null {
        return;
      }
      isGenerating := true;
      progress := 0.0;
      progressLog := progressLog + [0.0];
      generatedIcons := [];

      if !decodeOk {
        notices := notices + [GenerationFailed];
      } else {
        var icons := RenderRun(render);
        generatedIcons := icons;
        notices := notices + [GenerationSucceeded];
      }
      isGenerating := false;
      progress := 0.0;
      progressLog := progressLog + [0.0];
    }

    /** `downloadIcon`: ask the browser to save the URL as `<filename>.png`. */
    method DownloadIcon(url: string, filename: string)
      modifies this
      ensures downloads == old(downloads) + [FileDownload(filename + ".png", url)]
      ensures sourceImage == old(sourceImage) && generatedIcons == old(generatedIcons) && notices == old(notices)
      ensures isGenerating == old(isGenerating) && isDownloading == old(isDownloading) && progress == old(progress)
      ensures progressLog == old(progressLog)
    {
      downloads := downloads + [FileDownload(filename + ".png", url)];
    }

    /** The per-icon "Download" button: the icon's URL under its sanitised name. */
    method DownloadOne(i: nat)
      requires i < |generatedIcons|
      modifies this
      ensures downloads == old(downloads) + [FileDownload(Sanitize(old(generatedIcons[i].name)) + ".png", old(generatedIcons[i].url))]
      ensures sourceImage == old(sourceImage) && generatedIcons == old(generatedIcons) && notices == old(notices)
      ensures isGenerating == old(isGenerating) && isDownloading == old(isDownloading) && progress == old(progress)
      ensures progressLog == old(progressLog)
    {
      DownloadIcon(generatedIcons[i].url, Sanitize(generatedIcons[i].name));
    }

    /** `downloadAllIcons`: one download per icon, in list order, each under its sanitised name. */
    method DownloadAllIcons()
      modifies this
      ensures downloads == old(downloads) + FileDownloads(old(generatedIcons))
      ensures sourceImage == old(sourceImage) && generatedIcons == old(generatedIcons) && notices == old(notices)
      ensures isGenerating == old(isGenerating) && isDownloading == old(isDownloading) && progress == old(progress)
      ensures progressLog == old(progressLog)
    {
      for k := 0 to |generatedIcons|
        invariant sourceImage == old(sourceImage) && generatedIcons == old(generatedIcons) && notices == old(notices)
        invariant downloads == old(downloads) + FileDownloads(generatedIcons[..k])
        invariant isGenerating == old(isGenerating) && isDownloading == old(isDownloading) && progress == old(progress)
        invariant progressLog == old(progressLog)
      {
        var icon := generatedIcons[k];
        var sanitizedName := Sanitize(icon.name);
        DownloadIcon(icon.url, sanitizedName);
        assert FileDownloads(generatedIcons[..k + 1]) == FileDownloads(generatedIcons[..k]) + [FileDownload(sanitizedName + ".png", icon.url)];
      }
      assert generatedIcons[..|generatedIcons|] == generatedIcons;
    }

    /**
     * `downloadAsZip`. With no icons nothing changes. Otherwise every icon is
     * added to the `app-icons` folder; the archive `app-icons.zip` is saved
     * when every URL converts and packing succeeds, and a failure toast is
     * shown otherwise; either way the busy flag ends cleared.
     */
    method DownloadAsZip(atob: string -> Option<string>, packOk: bool)
      modifies this
      ensures old(generatedIcons) == [] ==> unchanged(this)
      ensures old(generatedIcons) != [] ==>
        var archive := ArchiveOf(old(generatedIcons), atob);
        && !isDownloading
        && downloads == old(downloads) + (if archive.Ok? && packOk then [ZipDownload("app-icons.zip", archive.value)] else [])
        && notices == old(notices) + [if archive.Ok? && packOk then ZipDownloaded else ZipFailed]
        && sourceImage == old(sourceImage) && generatedIcons == old(generatedIcons)
        && isGenerating == old(isGenerating) && progress == old(progress) && progressLog == old(progressLog)
    {
      var icons := generatedIcons;
      if |icons| == 0 {
        return;
      }
      isDownloading := true;
      var entries := AddIcons(icons, atob);
      if entries.Err? || !packOk {
        notices := notices + [ZipFailed];
      } else {
        downloads := downloads + [ZipDownload("app-icons.zip", entries.value)];
        notices := notices + [ZipDownloaded];
      }
      isDownloading := false;
    }
  }
}
