/**
 * The file side of a capture: where each capture process writes, and the
 * finalizing step that concatenates the segment files of a session into one
 * stream, remuxes that stream into the delivery container and removes the
 * intermediate files once the delivery file exists.
 *
 * The file system is a set of path names (`Disk`). The external processes
 * are not modelled; each contributes at most its output file, as the
 * caller's booleans say: the concatenation when `concatWrites`, the remux
 * when `muxWrites` and its input file exists. Random file names are
 * parameters.
 */
module Finalize {
  import opened Wrappers
  import opened Text
  import opened Records

  // ================================================================ paths

  const DirSeparator: char := '/'

  /** Path.Combine(dir, name) for a name that is not rooted: the name alone
      under an empty directory, otherwise the directory and the name with
      one separator between them. */
  function Combine(dir: string, name: string): string
  {
    if dir == [] then name
    else if dir[|dir| - 1] == DirSeparator then dir + name
    else dir + [DirSeparator] + name
  }

  /** The directory part Combine puts in front of the name. */
  function DirPrefix(dir: string): string
  {
    if dir == [] then []
    else if dir[|dir| - 1] == DirSeparator then dir
    else dir + [DirSeparator]
  }

  /** A combined path is the directory part followed by the name, so two
      names under one directory give the same path exactly when they are
      the same name, and a path ends with its name. */
  lemma CombineKeepsName(dir: string, a: string, b: string)
    ensures Combine(dir, a) == DirPrefix(dir) + a
    ensures Combine(dir, a) == Combine(dir, b) <==> a == b
  {
    var p := DirPrefix(dir);
    assert Combine(dir, a) == p + a && Combine(dir, b) == p + b;
    if p + a == p + b {
      assert a == (p + a)[|p|..];
      assert b == (p + b)[|p|..];
    }
  }

  /** `path` ends with `ext`. */
  predicate HasExtension(path: string, ext: string)
  {
    |path| >= |ext| && path[|path| - |ext|..] == ext
  }

  /** A name given an extension keeps it once put under a directory. */
  lemma CombineKeepsExtension(dir: string, base: string, ext: string)
    ensures HasExtension(Combine(dir, base + ext), ext)
  {
    CombineKeepsName(dir, base + ext, base + ext);
    var p := Combine(dir, base + ext);
    assert p == (DirPrefix(dir) + base) + ext;
  }

  /** Extensions ending in different characters never end the same path. */
  lemma ExtensionsExclude(path: string, ext1: string, ext2: string)
    requires |ext1| >= 1 && |ext2| >= 1 && ext1[|ext1| - 1] != ext2[|ext2| - 1]
    requires HasExtension(path, ext1)
    ensures !HasExtension(path, ext2)
  {
    assert path[|path| - 1] == path[|path| - |ext1|..][|ext1| - 1];
    assert |path| >= |ext2| ==> path[|path| - |ext2|..][|ext2| - 1] == path[|path| - 1];
  }

  // ================================================================ the disk

  /** The files present, by path. */
  class Disk {
    var files: set<string>

    constructor(files: set<string>)
      ensures this.files == files
    {
      this.files := files;
    }

    /** File.Exists. */
    predicate Exists(path: string)
      reads this
    {
      path in files
    }

    /** File.Move of an existing file to a free name. */
    method Move(source: string, dest: string)
      requires source in files
      modifies this
      ensures files == old(files) - {source} + {dest}
    {
      files := files - {source} + {dest};
    }

    /** File.Delete: removes the file; a missing file is no error. */
    method Delete(path: string)
      modifies this
      ensures files == old(files) - {path}
    {
      files := files - {path};
    }

    /** An external process leaves its output file behind. */
    method Write(path: string)
      modifies this
      ensures files == old(files) + {path}
    {
      files := files + {path};
    }
  }

  /** The files after moving `target`, when present, to `aside`. */
  function MoveAside(files: set<string>, target: string, aside: string): set<string>
  {
    if target in files then files - {target} + {aside} else files
  }

  /** The name an existing output file is moved to: the base name, an
      underscore, a random name and the extension. */
  function AsideName(base: string, randomName: string, ext: string): string
  {
    base + "_" + randomName + ext
  }

  /** Moving an output file aside frees its name and loses nothing: the old
      file lives on under the aside name, and every other file is kept. */
  lemma MoveAsideFreesSlot(files: set<string>, dir: string, base: string, randomName: string, ext: string)
    ensures var target := Combine(dir, base + ext);
            var aside := Combine(dir, AsideName(base, randomName, ext));
            var r := MoveAside(files, target, aside);
            && target !in r
            && (target in files ==> aside in r)
            && (forall p :: p != target && p != aside ==> (p in r <==> p in files))
  {
    var target := Combine(dir, base + ext);
    var aside := Combine(dir, AsideName(base, randomName, ext));
    CombineKeepsName(dir, base + ext, AsideName(base, randomName, ext));
    assert |AsideName(base, randomName, ext)| > |base + ext|;
  }

  // ================================================================ configuration

  /** The configured output directory and command-line templates. */
  datatype Config = Config(outputPath: string, captureCmdLine: string, concatCmdLine: string, muxCmdLine: string)

  // ================================================================ capture

  /** The capture process's arguments: the template with the output path,
      the channel and the authentication token substituted, in that order. */
  function CaptureArgs(template: string, outputPath: string, channel: string, authToken: string): string
  {
    ReplaceAll(ReplaceAll(ReplaceAll(template, "[FULLOUTPUTPATH]", outputPath), "[CHANNEL]", channel),
               "[AUTHTOKEN]", authToken)
  }

  /** BuildCaptureCmdLineArgs: the process writes `fileName.ts` in the
      output directory; a file already there is first moved aside under a
      random name. */
  method BuildCaptureCmdLineArgs(disk: Disk, cfg: Config, channel: string, hashValue: string, fileName: string,
                                 randomName: string)
    returns (cmdLineArgs: string)
    modifies disk
    ensures cmdLineArgs == CaptureArgs(cfg.captureCmdLine, Combine(cfg.outputPath, fileName + ".ts"), channel, hashValue)
    ensures disk.files == MoveAside(old(disk.files), Combine(cfg.outputPath, fileName + ".ts"),
                                    Combine(cfg.outputPath, AsideName(fileName, randomName, ".ts")))
  {
    cmdLineArgs := cfg.captureCmdLine;
    var outputPath := Combine(cfg.outputPath, fileName + ".ts");
    if disk.Exists(outputPath) {
      var newFileName := Combine(cfg.outputPath, fileName + "_" + randomName + ".ts");
      disk.Move(outputPath, newFileName);
    }
    cmdLineArgs := ReplaceAll(cmdLineArgs, "[FULLOUTPUTPATH]", outputPath);
    cmdLineArgs := ReplaceAll(cmdLineArgs, "[CHANNEL]", channel);
    cmdLineArgs := ReplaceAll(cmdLineArgs, "[AUTHTOKEN]", hashValue);
  }

  // ================================================================ segment files

  /** The segment file of capture process `i`: the record's file name, the
      segment number in decimal and the stream extension. */
  function SegmentName(fileName: string, i: nat): string
  {
    fileName + NatToDecimal(i) + ".ts"
  }

  /** The paths of segments 0 to `numFiles`, in order. */
  function SegmentPaths(dir: string, fileName: string, numFiles: nat): (paths: seq<string>)
    ensures |paths| == numFiles + 1
  {
    seq(numFiles + 1, i requires 0 <= i <= numFiles => Combine(dir, SegmentName(fileName, i)))
  }

  /** Segment paths are pairwise different, different from the concatenated
      stream `fileName.ts`, and none is the delivery file. */
  lemma SegmentPathsDistinct(dir: string, fileName: string, numFiles: nat)
    ensures var paths := SegmentPaths(dir, fileName, numFiles);
            && (forall i, j :: 0 <= i < j <= numFiles ==> paths[i] != paths[j])
            && (forall i :: 0 <= i <= numFiles ==>
                  paths[i] != Combine(dir, fileName + ".ts") && paths[i] != Combine(dir, fileName + ".mp4"))
  {
    var paths := SegmentPaths(dir, fileName, numFiles);
    forall i, j | 0 <= i < j <= numFiles ensures paths[i] != paths[j] {
      SegmentNamesDiffer(dir, fileName, i, j);
    }
    forall i | 0 <= i <= numFiles
      ensures paths[i] != Combine(dir, fileName + ".ts") && paths[i] != Combine(dir, fileName + ".mp4")
    {
      CombineKeepsName(dir, SegmentName(fileName, i), fileName + ".ts");
      CombineKeepsName(dir, SegmentName(fileName, i), fileName + ".mp4");
      var n := SegmentName(fileName, i);
      assert n[|n| - 1] == 's';
      assert (fileName + ".mp4")[|fileName| + 3] == '4';
    }
  }

  /** Different segment numbers give different paths: the decimal digits
      are read back unambiguously. */
  lemma SegmentNamesDiffer(dir: string, fileName: string, i: nat, j: nat)
    requires i != j
    ensures Combine(dir, SegmentName(fileName, i)) != Combine(dir, SegmentName(fileName, j))
  {
    CombineKeepsName(dir, SegmentName(fileName, i), SegmentName(fileName, j));
    var di, dj := NatToDecimal(i), NatToDecimal(j);
    if SegmentName(fileName, i) == SegmentName(fileName, j) {
      var n := SegmentName(fileName, i);
      assert |di| == |dj|;
      assert di == n[|fileName|..|fileName| + |di|];
      assert dj == SegmentName(fileName, j)[|fileName|..|fileName| + |dj|];
      DecimalRoundTrip(i);
      DecimalRoundTrip(j);
    }
  }

  /** The concatenation's file list: the segment paths, each separated from
      the next by a bar. */
  method SegmentList(outputPath: string, fileName: string, numFiles: nat) returns (fileList: string)
    ensures fileList == Join(SegmentPaths(outputPath, fileName, numFiles), '|')
  {
    assert fileName + "0.ts" == SegmentName(fileName, 0);
    fileList := Combine(outputPath, fileName + "0.ts");
    var i := 1;
    while i <= numFiles
      invariant 1 <= i <= numFiles + 1
      invariant fileList == Join(SegmentPaths(outputPath, fileName, i - 1), '|')
    {
      var path := Combine(outputPath, fileName + NatToDecimal(i) + ".ts");
      JoinAppend(SegmentPaths(outputPath, fileName, i - 1), path, '|');
      assert SegmentPaths(outputPath, fileName, i) == SegmentPaths(outputPath, fileName, i - 1) + [path];
      fileList := fileList + "|" + path;
      i := i + 1;
    }
  }

  /** A sanitised file name never holds the bar: the bar is one of the
      stripped characters, and the starred marker has none. */
  lemma SanitizedHasNoBar(title: string, starred: bool, platformInvalid: seq<char>)
    ensures '|' !in SanitizedFileName(title, starred, UnsafeChars + platformInvalid)
  {
    var strip := UnsafeChars + platformInvalid;
    var body := StripChars(ReplaceChar(title, ' ', '_'), strip);
    assert '|' in strip by {
      assert UnsafeChars[0] == '|';
    }
    assert forall k :: 0 <= k < |body| ==> body[k] != '|';
    assert SanitizedFileName(title, starred, strip) == (if starred then StarMarker else "") + body;
  }

  /** A segment path holds no bar when its directory and file name hold none. */
  lemma SegmentPathHasNoBar(dir: string, fileName: string, i: nat)
    requires '|' !in dir && '|' !in fileName
    ensures '|' !in Combine(dir, SegmentName(fileName, i))
  {
    var d := NatToDecimal(i);
    assert forall k :: 0 <= k < |d| ==> d[k] != '|';
    CombineKeepsName(dir, SegmentName(fileName, i), SegmentName(fileName, i));
    assert Combine(dir, SegmentName(fileName, i)) == DirPrefix(dir) + (fileName + (d + ".ts"));
  }

  /** The file list of a show's recording splits back into its segment
      paths, whatever the show's title. */
  lemma SegmentListRoundTrip(dir: string, title: string, starred: bool, platformInvalid: seq<char>, numFiles: nat)
    requires '|' !in dir
    ensures var fileName := SanitizedFileName(title, starred, UnsafeChars + platformInvalid);
            var paths := SegmentPaths(dir, fileName, numFiles);
            Split(Join(paths, '|'), '|') == paths
  {
    var fileName := SanitizedFileName(title, starred, UnsafeChars + platformInvalid);
    SanitizedHasNoBar(title, starred, platformInvalid);
    var paths := SegmentPaths(dir, fileName, numFiles);
    forall i | 0 <= i < |paths| ensures '|' !in paths[i] {
      SegmentPathHasNoBar(dir, fileName, i);
    }
    SplitJoin(paths, '|');
  }

  // ================================================================ finalizing

  /** The concatenation's arguments: the file list, then the output path. */
  function ConcatArgs(template: string, fileList: string, outputFile: string): string
  {
    ReplaceAll(ReplaceAll(template, "[FILELIST]", fileList), "[FULLOUTPUTPATH]", outputFile)
  }

  /** The remux's arguments: the input file, the output path, then the
      description. */
  function MuxArgs(template: string, videoFile: string, outputFile: string, description: string): string
  {
    ReplaceAll(ReplaceAll(ReplaceAll(template, "[VIDEOFILE]", videoFile), "[FULLOUTPUTPATH]", outputFile),
               "[DESCRIPTION]", description)
  }

  /** The stream the remux reads: the single segment when there is one,
      the concatenated stream otherwise. */
  function StreamName(fileName: string, numFiles: nat): string
  {
    if numFiles > 0 then fileName + ".ts" else fileName + "0.ts"
  }

  /** Everything FixUp decides, and the files it leaves. */
  datatype FixUpResult = FixUpResult(
    concatArgs: Option<string>,
    muxArgs: string,
    removed: seq<string>,
    files: set<string>)

  /** The paths of `s` as a set. */
  function Elems(s: seq<string>): set<string>
  {
    set p | p in s
  }

  /** FixUp, for a session whose last segment number is `numFiles`: the
      segments are concatenated when there are several, an existing delivery
      file is moved aside, the stream is remuxed, and when the delivery file
      exists afterwards the stream and every segment are deleted. */
  function FixUpEffect(cfg: Config, files: set<string>, numFiles: nat, fileName: string, description: string,
                       randomName: string, concatWrites: bool, muxWrites: bool): FixUpResult
  {
    var dir := cfg.outputPath;
    var streamFile := Combine(dir, fileName + ".ts");
    var afterConcat := if numFiles > 0 && concatWrites then files + {streamFile} else files;
    var inputFile := Combine(dir, StreamName(fileName, numFiles));
    var movie := Combine(dir, fileName + ".mp4");
    var afterMove := MoveAside(afterConcat, movie, Combine(dir, AsideName(fileName, randomName, ".mp4")));
    var afterMux := if muxWrites && inputFile in afterMove then afterMove + {movie} else afterMove;
    var removed := if movie in afterMux
                   then [inputFile] + (if numFiles > 0 then SegmentPaths(dir, fileName, numFiles) else [])
                   else [];
    FixUpResult(
      if numFiles > 0 then Some(ConcatArgs(cfg.concatCmdLine, Join(SegmentPaths(dir, fileName, numFiles), '|'), streamFile))
      else None,
      MuxArgs(cfg.muxCmdLine, inputFile, movie, description),
      removed,
      afterMux - Elems(removed))
  }

  /** The source's FixUp for one record. */
  method FixUp(disk: Disk, cfg: Config, numFiles: nat, recordInfo: RecordInfo, randomName: string,
               concatWrites: bool, muxWrites: bool)
    returns (concatArgs: Option<string>, muxArgs: string, removed: seq<string>)
    modifies disk
    ensures FixUpResult(concatArgs, muxArgs, removed, disk.files)
         == FixUpEffect(cfg, old(disk.files), numFiles, recordInfo.fileName, recordInfo.description,
                        randomName, concatWrites, muxWrites)
  {
    var fileName := recordInfo.fileName;
    var outputPath := cfg.outputPath;
    var videoFileName := fileName + "0.ts";
    concatArgs := None;
    if numFiles > 0 {
      var fileList := SegmentList(outputPath, fileName, numFiles);
      var outputFile := Combine(outputPath, fileName + ".ts");
      var cmdLineArgs := cfg.concatCmdLine;
      cmdLineArgs := ReplaceAll(cmdLineArgs, "[FILELIST]", fileList);
      cmdLineArgs := ReplaceAll(cmdLineArgs, "[FULLOUTPUTPATH]", outputFile);
      concatArgs := Some(cmdLineArgs);
      if concatWrites {
        disk.Write(outputFile);
      }
      videoFileName := fileName + ".ts";
    }
    var inputFile := Combine(outputPath, videoFileName);
    var outputFile := Combine(outputPath, fileName + ".mp4");
    if disk.Exists(outputFile) {
      var newFileName := Combine(outputPath, fileName + "_" + randomName + ".mp4");
      disk.Move(outputFile, newFileName);
    }
    var cmdLineArgs := cfg.muxCmdLine;
    cmdLineArgs := ReplaceAll(cmdLineArgs, "[VIDEOFILE]", inputFile);
    cmdLineArgs := ReplaceAll(cmdLineArgs, "[FULLOUTPUTPATH]", outputFile);
    cmdLineArgs := ReplaceAll(cmdLineArgs, "[DESCRIPTION]", recordInfo.description);
    muxArgs := cmdLineArgs;
    if muxWrites && disk.Exists(inputFile) {
      disk.Write(outputFile);
    }
    removed := [];
    if disk.Exists(outputFile) {
      removed := DeleteStreams(disk, outputPath, fileName, numFiles, inputFile);
    }
  }

  /** The clean-up of FixUp: the remuxed stream, then, when there were
      several segments, every segment in order. */
  method DeleteStreams(disk: Disk, outputPath: string, fileName: string, numFiles: nat, inputFile: string)
    returns (removed: seq<string>)
    modifies disk
    ensures removed == [inputFile] + (if numFiles > 0 then SegmentPaths(outputPath, fileName, numFiles) else [])
    ensures disk.files == old(disk.files) - Elems(removed)
  {
    disk.Delete(inputFile);
    removed := [inputFile];
    if numFiles > 0 {
      var i := 0;
      while i <= numFiles
        invariant 0 <= i <= numFiles + 1
        invariant removed == [inputFile] + SegmentPaths(outputPath, fileName, numFiles)[..i]
        invariant disk.files == old(disk.files) - Elems(removed)
      {
        var path := Combine(outputPath, fileName + NatToDecimal(i) + ".ts");
        disk.Delete(path);
        assert Elems(removed + [path]) == Elems(removed) + {path};
        assert SegmentPaths(outputPath, fileName, numFiles)[..i + 1]
            == SegmentPaths(outputPath, fileName, numFiles)[..i] + [path];
        removed := removed + [path];
        i := i + 1;
      }
      assert SegmentPaths(outputPath, fileName, numFiles)[..i] == SegmentPaths(outputPath, fileName, numFiles);
    }
  }

  /** What FixUp guarantees about the files: nothing is deleted unless the
      delivery file exists afterwards, and then it is the remux's own output
      (an earlier one was moved aside first, and is kept under the aside
      name); only stream files are deleted; and when the remux writes nothing
      every file other than an earlier delivery file is kept. */
  lemma FixUpIsSafe(cfg: Config, files: set<string>, numFiles: nat, fileName: string, description: string,
                    randomName: string, concatWrites: bool, muxWrites: bool)
    ensures var r := FixUpEffect(cfg, files, numFiles, fileName, description, randomName, concatWrites, muxWrites);
            var dir := cfg.outputPath;
            var movie := Combine(dir, fileName + ".mp4");
            var aside := Combine(dir, AsideName(fileName, randomName, ".mp4"));
            && (r.removed != [] ==> movie in r.files && muxWrites)
            && (forall p :: p in r.removed ==> HasExtension(p, ".ts"))
            && (movie in files ==> aside in r.files)
            && (!muxWrites ==> r.removed == [] && forall p :: p in files && p != movie ==> p in r.files)
  {
    var dir := cfg.outputPath;
    var movie := Combine(dir, fileName + ".mp4");
    var aside := Combine(dir, AsideName(fileName, randomName, ".mp4"));
    var r := FixUpEffect(cfg, files, numFiles, fileName, description, randomName, concatWrites, muxWrites);
    MoveAsideFreesSlot(if numFiles > 0 && concatWrites then files + {Combine(dir, fileName + ".ts")} else files,
                       dir, fileName, randomName, ".mp4");
    CombineKeepsExtension(dir, fileName, ".mp4");
    CombineKeepsExtension(dir, AsideName(fileName, randomName, ".mp4")[..|AsideName(fileName, randomName, ".mp4")| - 4], ".mp4");
    assert AsideName(fileName, randomName, ".mp4")[..|AsideName(fileName, randomName, ".mp4")| - 4] + ".mp4"
        == AsideName(fileName, randomName, ".mp4");
    forall p | p in r.removed ensures HasExtension(p, ".ts") && p != movie && p != aside {
      if p == Combine(dir, StreamName(fileName, numFiles)) {
        if numFiles > 0 {
          CombineKeepsExtension(dir, fileName, ".ts");
        } else {
          CombineKeepsExtension(dir, fileName + "0", ".ts");
          assert fileName + "0" + ".ts" == fileName + "0.ts";
        }
      } else {
        var i :| 0 <= i <= numFiles && p == SegmentPaths(dir, fileName, numFiles)[i];
        CombineKeepsExtension(dir, fileName + NatToDecimal(i), ".ts");
      }
      ExtensionsExclude(p, ".ts", ".mp4");
    }
  }

  /** When the remux does write its output, FixUp deletes the stream it read
      and, after a concatenation, every segment: none of them is left, and the
      delivery file is. */
  lemma FixUpCleansUp(cfg: Config, files: set<string>, numFiles: nat, fileName: string, description: string,
                      randomName: string, concatWrites: bool, muxWrites: bool)
    requires muxWrites
    requires Combine(cfg.outputPath, StreamName(fileName, numFiles)) in files || (numFiles > 0 && concatWrites)
    ensures var r := FixUpEffect(cfg, files, numFiles, fileName, description, randomName, concatWrites, muxWrites);
            var dir := cfg.outputPath;
            && Combine(dir, fileName + ".mp4") in r.files
            && Combine(dir, StreamName(fileName, numFiles)) !in r.files
            && (numFiles > 0 ==> forall i :: 0 <= i <= numFiles ==> Combine(dir, SegmentName(fileName, i)) !in r.files)
  {
    var dir := cfg.outputPath;
    var movie := Combine(dir, fileName + ".mp4");
    var input := Combine(dir, StreamName(fileName, numFiles));
    assert input != movie by {
      CombineKeepsName(dir, StreamName(fileName, numFiles), fileName + ".mp4");
      assert StreamName(fileName, numFiles)[|StreamName(fileName, numFiles)| - 1] == 's';
      assert (fileName + ".mp4")[|fileName| + 3] == '4';
    }
    var r := FixUpEffect(cfg, files, numFiles, fileName, description, randomName, concatWrites, muxWrites);
    MoveAsideFreesSlot(if numFiles > 0 && concatWrites then files + {Combine(dir, fileName + ".ts")} else files,
                       dir, fileName, randomName, ".mp4");
    SegmentPathsDistinct(dir, fileName, numFiles);
    assert input in r.removed;
    if numFiles > 0 {
      forall i | 0 <= i <= numFiles ensures Combine(dir, SegmentName(fileName, i)) !in r.files {
        assert SegmentPaths(dir, fileName, numFiles)[i] in r.removed;
      }
    }
  }

  /** The placeholders of the mux template, and the plain text between them. */
  const ExePlaceholder: string := "[FULLFFMPEGPATH]"
  const VideoPlaceholder: string := "[VIDEOFILE]"
  const OutputPlaceholder: string := "[FULLOUTPUTPATH]"
  const DescriptionPlaceholder: string := "[DESCRIPTION]"
  const InputOption: string := " -i "
  const CopyOptions: string := " -acodec copy -vcodec copy "

  /** The mux template quoted beside the source's remux step:
      "[FULLFFMPEGPATH] -i [VIDEOFILE] -acodec copy -vcodec copy [FULLOUTPUTPATH]". */
  const QuotedMuxCmdLine: string := ExePlaceholder + InputOption + VideoPlaceholder + CopyOptions + OutputPlaceholder

  /** With the quoted template, the remux arguments keep the leading
      [FULLFFMPEGPATH] placeholder, since the executable is passed
      separately, and have the input and output paths where their
      placeholders stood. */
  lemma QuotedMuxTemplate(videoFile: string, outputFile: string, description: string)
    requires '[' !in videoFile && '[' !in outputFile
    ensures MuxArgs(QuotedMuxCmdLine, videoFile, outputFile, description)
         == ExePlaceholder + InputOption + videoFile + CopyOptions + outputFile
  {
    MuxVideoStep(videoFile);
    MuxOutputStep(videoFile, outputFile);
    MuxDescriptionStep(videoFile, outputFile, description);
  }

  /** The character facts the substitution steps rely on: every
      placeholder opens with '[' and has no other '[', the plain text has
      none, and the placeholders differ early on. */
  lemma TemplateTextFacts()
    ensures '[' !in InputOption && '[' !in CopyOptions
    ensures ExePlaceholder[0] == VideoPlaceholder[0] == OutputPlaceholder[0] == DescriptionPlaceholder[0] == '['
    ensures '[' !in ExePlaceholder[1..] && '[' !in OutputPlaceholder[1..]
    ensures ExePlaceholder[1] != VideoPlaceholder[1] && OutputPlaceholder[1] != VideoPlaceholder[1]
    ensures ExePlaceholder[5] != OutputPlaceholder[5] && ExePlaceholder[1] != DescriptionPlaceholder[1]
  {
    assert forall k :: 0 <= k < |InputOption| ==> InputOption[k] != '[';
    assert forall k :: 0 <= k < |CopyOptions| ==> CopyOptions[k] != '[';
    assert forall k :: 0 <= k < |ExePlaceholder[1..]| ==> ExePlaceholder[1..][k] != '[';
    assert forall k :: 0 <= k < |OutputPlaceholder[1..]| ==> OutputPlaceholder[1..][k] != '[';
  }

  lemma MuxVideoStep(videoFile: string)
    ensures ReplaceAll(QuotedMuxCmdLine, VideoPlaceholder, videoFile)
         == ExePlaceholder + (InputOption + (videoFile + (CopyOptions + OutputPlaceholder)))
  {
    var exe, v, o := ExePlaceholder, VideoPlaceholder, OutputPlaceholder;
    TemplateTextFacts();
    assert QuotedMuxCmdLine == exe + (InputOption + (v + (CopyOptions + o)));
    ReplaceSkipsOther(exe, InputOption + (v + (CopyOptions + o)), v, videoFile, 1);
    ReplaceSkipsPlain(InputOption, v + (CopyOptions + o), v, videoFile);
    ReplaceAtHead(CopyOptions + o, v, videoFile);
    ReplaceSkipsPlain(CopyOptions, o, v, videoFile);
    ReplaceSkipsOther(o, [], v, videoFile, 1);
    assert o + [] == o;
  }

  lemma MuxOutputStep(videoFile: string, outputFile: string)
    requires '[' !in videoFile
    ensures ReplaceAll(ExePlaceholder + (InputOption + (videoFile + (CopyOptions + OutputPlaceholder))),
                       OutputPlaceholder, outputFile)
         == ExePlaceholder + (InputOption + videoFile + CopyOptions + outputFile)
  {
    var exe, o := ExePlaceholder, OutputPlaceholder;
    TemplateTextFacts();
    var plain := InputOption + videoFile + CopyOptions;
    assert InputOption + (videoFile + (CopyOptions + o)) == plain + o;
    ReplaceSkipsOther(exe, plain + o, o, outputFile, 5);
    ReplaceSkipsPlain(plain, o, o, outputFile);
    assert o == o + [];
    ReplaceAtHead([], o, outputFile);
  }

  lemma MuxDescriptionStep(videoFile: string, outputFile: string, description: string)
    requires '[' !in videoFile && '[' !in outputFile
    ensures ReplaceAll(ExePlaceholder + (InputOption + videoFile + CopyOptions + outputFile),
                       DescriptionPlaceholder, description)
         == ExePlaceholder + InputOption + videoFile + CopyOptions + outputFile
  {
    TemplateTextFacts();
    var plain := InputOption + videoFile + CopyOptions + outputFile;
    assert '[' !in plain;
    assert ExePlaceholder + plain == ExePlaceholder + InputOption + videoFile + CopyOptions + outputFile;
    ReplaceSkipsOther(ExePlaceholder, plain, DescriptionPlaceholder, description, 1);
    ReplaceLeavesPlain(plain, DescriptionPlaceholder, description);
  }
}
