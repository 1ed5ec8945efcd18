/**
 * The configuration and save helpers (src/utils/utils.py): the upward search for
 * the project root, the choice of data root, and the format resolution, dispatch
 * and metadata of save_data.
 *
 * The file system is a pair of predicates (which directories list config.yaml,
 * which paths exist); the writes themselves, the YAML configuration file and the
 * metadata timestamp are not modelled.
 */
module Utils {
  import opened Wrappers
  import opened Text
  import PosixPath

  // ---------------------------------------------------------------------------
  // find_project_root
  // ---------------------------------------------------------------------------

  const ProjectDirName: string := "smallholder-irrigation-dataset"

  /** A directory is the project root when it lists config.yaml and has the project's name. */
  predicate IsProjectRoot(p: string, hasConfig: string -> bool) {
    hasConfig(p) && PosixPath.Basename(p) == ProjectDirName
  }

  /**
   * The directories the search tests, in order: the start path and its successive
   * dirnames, stopping before the first path that is its own dirname.
   */
  function Ancestors(p: string): (chain: seq<string>)
    ensures forall a <- chain :: a != PosixPath.Dirname(a)
    decreases |p|
  {
    if p == PosixPath.Dirname(p) then [] else [p] + Ancestors(PosixPath.Dirname(p))
  }

  /** The test the search applies to each directory. */
  function RootTest(hasConfig: string -> bool): string -> bool {
    p => IsProjectRoot(p, hasConfig)
  }

  /** The first directory of a chain that passes the test, if any. */
  function FirstRoot(chain: seq<string>, isRoot: string -> bool): Option<string> {
    if chain == [] then None
    else if isRoot(chain[0]) then Some(chain[0])
    else FirstRoot(chain[1..], isRoot)
  }

  /**
   * The search finds a root exactly when one of the tested directories is one,
   * and then it is the first such directory.
   */
  lemma {:induction false} FirstRootSpec(chain: seq<string>, isRoot: string -> bool)
    ensures FirstRoot(chain, isRoot).None? <==> forall a <- chain :: !isRoot(a)
    ensures FirstRoot(chain, isRoot).Some? ==>
      exists k :: 0 <= k < |chain| && chain[k] == FirstRoot(chain, isRoot).value
        && isRoot(chain[k])
        && forall j :: 0 <= j < k ==> !isRoot(chain[j])
  {
    if chain != [] && !isRoot(chain[0]) {
      var rest := chain[1..];
      FirstRootSpec(rest, isRoot);
      assert forall a <- chain :: a == chain[0] || a in rest;
      if FirstRoot(chain, isRoot).Some? {
        var k :| 0 <= k < |rest| && rest[k] == FirstRoot(chain, isRoot).value
          && isRoot(rest[k])
          && forall j :: 0 <= j < k ==> !isRoot(rest[j]);
        assert forall j :: 1 <= j < k + 1 ==> chain[j] == rest[j - 1];
        assert chain[k + 1] == rest[k];
      }
    }
  }

  /** Every tested directory is a proper prefix of the one before it: the search only moves upwards. */
  lemma {:induction false} AncestorsArePrefixes(p: string)
    ensures forall k :: 0 <= k < |Ancestors(p)| ==> |Ancestors(p)[k]| <= |p| && p[..|Ancestors(p)[k]|] == Ancestors(p)[k]
    decreases |p|
  {
    if p != PosixPath.Dirname(p) {
      var d := PosixPath.Dirname(p);
      AncestorsArePrefixes(d);
      var chain := Ancestors(p);
      assert chain[1..] == Ancestors(d);
      forall k | 1 <= k < |chain|
        ensures |chain[k]| <= |p| && p[..|chain[k]|] == chain[k]
      {
        assert chain[k] == Ancestors(d)[k - 1];
        assert d[..|chain[k]|] == chain[k];
      }
    }
  }

  /** Each ancestor is strictly shorter than the one before it. */
  lemma {:induction false} AncestorsShrink(p: string)
    ensures forall k :: 0 < k < |Ancestors(p)| ==> |Ancestors(p)[k]| < |Ancestors(p)[k - 1]|
    decreases |p|
  {
    if p != PosixPath.Dirname(p) {
      var d := PosixPath.Dirname(p);
      AncestorsShrink(d);
      var chain := Ancestors(p);
      assert chain[1..] == Ancestors(d);
      assert |d| < |p| by {
        assert |d| <= |p| && d == p[..|d|];
      }
      forall k | 2 <= k < |chain|
        ensures |chain[k]| < |chain[k - 1]|
      {
        assert chain[k] == Ancestors(d)[k - 1] && chain[k - 1] == Ancestors(d)[k - 2];
      }
    }
  }

  /** From "/" or from the empty path nothing is tested, so the search always fails. */
  lemma AncestorsOfTop()
    ensures Ancestors("/") == [] && Ancestors("") == []
  {
    assert PosixPath.AllSlashes("/");
  }

  /**
   * find_project_root: walks up from `start` until a path is its own dirname.
   * None stands for the FileNotFoundError raised when no tested directory is the root.
   */
  method FindProjectRoot(start: string, hasConfig: string -> bool) returns (r: Option<string>)
    ensures r == FirstRoot(Ancestors(start), RootTest(hasConfig))
  {
    var current := start;
    while current != PosixPath.Dirname(current)
      invariant FirstRoot(Ancestors(current), RootTest(hasConfig)) == FirstRoot(Ancestors(start), RootTest(hasConfig))
      decreases |current|
    {
      if IsProjectRoot(current, hasConfig) {
        return Some(current);
      }
      current := PosixPath.Dirname(current);
    }
    r := None;
  }

  // ---------------------------------------------------------------------------
  // get_data_root
  // ---------------------------------------------------------------------------

  const ServerDataRootKey: string := "server_data_root"
  const DefaultServerRoot: string := "/home/waves/data/smallholder-irrigation-dataset/data/"

  /** The server data root of the configuration, or the built-in default. */
  function ServerRoot(config: map<string, string>): (root: string)
    ensures ServerDataRootKey in config ==> root == config[ServerDataRootKey]
    ensures ServerDataRootKey !in config ==> root == DefaultServerRoot
  {
    if ServerDataRootKey in config then config[ServerDataRootKey] else DefaultServerRoot
  }

  /**
   * get_data_root for the working directory `cwd` and the loaded configuration.
   * None stands for the FileNotFoundError of the root search, which both the
   * configuration load and the local root perform before the server root is looked at.
   */
  method GetDataRoot(cwd: string, hasConfig: string -> bool, config: map<string, string>, pathExists: string -> bool)
    returns (r: Option<string>)
    ensures r.None? <==> FirstRoot(Ancestors(cwd), RootTest(hasConfig)).None?
    ensures r.Some? && pathExists(ServerRoot(config)) ==> r.value == ServerRoot(config)
    ensures r.Some? && !pathExists(ServerRoot(config)) ==>
      && FirstRoot(Ancestors(cwd), RootTest(hasConfig)).Some?
      && r.value == PosixPath.Join(FirstRoot(Ancestors(cwd), RootTest(hasConfig)).value, "data")
  {
    var configRoot := FindProjectRoot(cwd, hasConfig);
    if configRoot.None? {
      return None;
    }
    var projectRoot := FindProjectRoot(cwd, hasConfig);
    var localRoot := PosixPath.Join(projectRoot.value, "data");
    var serverRoot := ServerRoot(config);
    if pathExists(serverRoot) {
      r := Some(serverRoot);
    } else {
      r := Some(localRoot);
    }
  }

  // ---------------------------------------------------------------------------
  // save_data
  // ---------------------------------------------------------------------------

  /** The piece after the last '.', lower-cased: what an empty format is inferred as. */
  function InferFormat(outputPath: string): (f: string)
    ensures '.' !in f
  {
    var parts := Split(outputPath, '.');
    var last := parts[|parts| - 1];
    assert last in parts;
    assert forall i :: 0 <= i < |last| ==> ToLower(last)[i] == ToLowerChar(last[i]) && last[i] in last;
    ToLower(last)
  }

  /** The inferred format is the lower-cased text after the last '.', or the whole path without one. */
  lemma InferFormatAfterLastDot(outputPath: string)
    ensures InferFormat(outputPath) == ToLower(outputPath[RFind(outputPath, '.') + 1..])
  {
    var i := RFind(outputPath, '.');
    var tail := outputPath[i + 1..];
    assert '.' !in tail by {
      assert forall k :: 0 <= k < |tail| ==> tail[k] == outputPath[i + 1 + k];
    }
    SplitNone(tail, '.');
    if i >= 0 {
      assert outputPath == outputPath[..i] + ['.'] + tail;
      SplitConcat(outputPath[..i], '.', tail);
    } else {
      assert tail == outputPath;
    }
  }

  /** A path "<stem>.<ext>" whose extension has no '.' is saved in format ext, lower-cased. */
  lemma InferFormatOfExtension(stem: string, ext: string)
    requires '.' !in ext
    ensures InferFormat(stem + "." + ext) == ToLower(ext)
  {
    SplitConcat(stem, '.', ext);
    SplitNone(ext, '.');
  }

  /** The format the dispatch receives: the given one, or the inferred one when none is given. */
  function ResolvedFormat(outputPath: string, fileFormat: string): string {
    if fileFormat == "" then InferFormat(outputPath) else fileFormat
  }

  /** The formats save_data can write. */
  predicate Supported(format: string) {
    format == "json" || format == "csv" || format == "pickle" || format == "yaml"
  }

  /** The metadata file's path, as written: everything before the last '.' of the whole path. */
  function MetadataPathAsWritten(outputPath: string): (m: string)
    ensures EndsWith(m, MetadataSuffix)
  {
    var dot := RFind(outputPath, '.');
    var stem := if dot >= 0 then outputPath[..dot] else outputPath;
    SuffixKeepsNoSlash(stem, |stem|);
    stem + MetadataSuffix
  }

  /**
   * The metadata file's path with only the last component's suffix removed, so
   * that it lands in the output file's directory: it keeps that directory
   * prefix and adds no '/' after it.
   */
  function MetadataPath(outputPath: string): (m: string)
    ensures EndsWith(m, MetadataSuffix)
    ensures StartsWith(m, outputPath[..RFind(outputPath, '/') + 1])
    ensures '/' !in m[RFind(outputPath, '/') + 1..]
  {
    var slash := RFind(outputPath, '/');
    var dot := RFind(outputPath, '.');
    var stem := if dot > slash then outputPath[..dot] else outputPath;
    var m := stem + MetadataSuffix;
    assert stem[..slash + 1] == outputPath[..slash + 1];
    assert forall k :: slash + 1 <= k < |stem| ==> stem[k] == outputPath[k];
    SuffixKeepsNoSlash(stem, slash + 1);
    m
  }

  const MetadataSuffix: string := "_metadata.json"

  /** Appending the metadata suffix adds no '/' after `from`, and keeps the prefix up to it. */
  lemma SuffixKeepsNoSlash(stem: string, from: nat)
    requires from <= |stem| && forall k :: from <= k < |stem| ==> stem[k] != '/'
    ensures '/' !in (stem + MetadataSuffix)[from..]
    ensures (stem + MetadataSuffix)[..from] == stem[..from]
    ensures EndsWith(stem + MetadataSuffix, MetadataSuffix)
  {
    var m := stem + MetadataSuffix;
    assert m[from..] == stem[from..] + MetadataSuffix;
    assert '/' !in MetadataSuffix;
    assert m[|m| - |MetadataSuffix|..] == MetadataSuffix;
  }

  /** Both agree unless the last '.' lies in a directory component. */
  lemma MetadataPathAgrees(outputPath: string)
    requires RFind(outputPath, '.') > RFind(outputPath, '/') || RFind(outputPath, '.') == -1
    ensures MetadataPath(outputPath) == MetadataPathAsWritten(outputPath)
  {
  }

  /** "<stem>.<ext>" with a plain extension gets "<stem>_metadata.json". */
  lemma MetadataPathOfExtension(stem: string, ext: string)
    requires '.' !in ext && '/' !in ext
    ensures MetadataPath(stem + "." + ext) == stem + "_metadata.json"
    ensures MetadataPathAsWritten(stem + "." + ext) == stem + "_metadata.json"
  {
    var p := stem + "." + ext;
    forall k | |stem| < k < |p|
      ensures p[k] != '.' && p[k] != '/'
    {
      assert p[k] == ext[k - |stem| - 1] && ext[k - |stem| - 1] in ext;
    }
    RFindAt(p, '.', |stem|);
    assert p[..|stem|] == stem;
  }

  /**
   * The metadata of an output path without an extension in a directory reached
   * through "..": as written it goes to "._metadata.json" in the working
   * directory instead of next to the data.
   */
  lemma MetadataPathAsWrittenLeavesDirectory()
    ensures MetadataPathAsWritten("../data/results") == "." + MetadataSuffix
    ensures MetadataPath("../data/results") == "../data/results" + MetadataSuffix
  {
    var p := "../data/results";
    RFindAt(p, '.', 1);
    assert p[..1] == ".";
    MetadataPathKeepsDirectory();
  }

  /** The corrected path of "../data/results" stays in "../data". */
  lemma MetadataPathKeepsDirectory()
    ensures MetadataPath("../data/results") == "../data/results" + MetadataSuffix
  {
    var p := "../data/results";
    RFindAt(p, '.', 1);
    RFindAt(p, '/', 7);
  }

  datatype SaveError =
    | NoDirectory            // os.makedirs('') for a path without a directory part
    | CsvNeedsDataFrame
    | UnsupportedFormat(format: string)
    | RootNotFound           // the data is written, the metadata is not

  datatype Metadata = Metadata(source: string, description: Option<string>, fileFormat: string)

  /** What a successful save writes: the data in `format`, and `metadata` at `metadataPath`. */
  datatype Saved = Saved(format: string, metadataPath: string, metadata: Metadata)

  /**
   * save_data. `isDataFrame` tells whether the data is a data frame, an empty
   * `fileFormat` stands for a missing one, and `rootFound` is the outcome of the
   * project-root search the metadata's created_by field performs.
   */
  function SaveData(isDataFrame: bool, outputPath: string, description: Option<string>, fileFormat: string, rootFound: bool)
    : (r: Result<Saved, SaveError>)
    ensures PosixPath.Dirname(outputPath) == "" <==> r == Failure(NoDirectory)
    ensures PosixPath.Dirname(outputPath) != "" ==>
      var format := ResolvedFormat(outputPath, fileFormat);
      && (r == Failure(CsvNeedsDataFrame) <==> format == "csv" && !isDataFrame)
      && (r == Failure(UnsupportedFormat(format)) <==> !Supported(format))
      && (r == Failure(RootNotFound) <==> Supported(format) && (format == "csv" ==> isDataFrame) && !rootFound)
    ensures r.Success? ==>
      && Supported(r.value.format)
      && r.value.format == ResolvedFormat(outputPath, fileFormat)
      && r.value.metadataPath == MetadataPathAsWritten(outputPath)
      && r.value.metadata == Metadata(PosixPath.Basename(outputPath), description, r.value.format)
  {
    if PosixPath.Dirname(outputPath) == "" then Failure(NoDirectory)
    else
      var format := ResolvedFormat(outputPath, fileFormat);
      if format == "json" || format == "pickle" || format == "yaml" || (format == "csv" && isDataFrame) then
        if rootFound then
          Success(Saved(format, MetadataPathAsWritten(outputPath), Metadata(PosixPath.Basename(outputPath), description, format)))
        else Failure(RootNotFound)
      else if format == "csv" then Failure(CsvNeedsDataFrame)
      else Failure(UnsupportedFormat(format))
  }

  /** "<dir>/<name>" with a directory free of '/' has that directory as its dirname. */
  lemma DirnameOfChild(dir: string, name: string)
    requires dir != [] && '/' !in dir && '/' !in name
    ensures PosixPath.Dirname(dir + "/" + name) == dir
  {
    var p := dir + "/" + name;
    forall k | |dir| < k < |p|
      ensures p[k] != '/'
    {
      assert p[k] == name[k - |dir| - 1] && name[k - |dir| - 1] in name;
    }
    RFindAt(p, '/', |dir|);
    var head := p[..|dir| + 1];
    assert head == dir + "/";
    assert dir[0] in dir && head[0] == dir[0] && head[0] in head;
    assert !PosixPath.AllSlashes(head);
    var d := PosixPath.TrimSlashesRight(head);
    assert dir[|dir| - 1] in dir;
    assert |d| == |dir|;
  }

  /** With no format given, "<dir>/<stem>.<ext>" is saved in format ext, lower-cased, when that is supported. */
  lemma SaveDataInfersFormat(isDataFrame: bool, dir: string, stem: string, ext: string, description: Option<string>)
    requires '.' !in ext && '/' !in ext && '/' !in stem && dir != [] && '/' !in dir
    requires Supported(ToLower(ext)) && (ToLower(ext) == "csv" ==> isDataFrame)
    ensures var r := SaveData(isDataFrame, dir + "/" + stem + "." + ext, description, "", true);
      && r.Success? && r.value.format == ToLower(ext) && r.value.metadata.source == stem + "." + ext
      && r.value.metadataPath == dir + "/" + stem + "_metadata.json"
  {
    var p := dir + "/" + stem + "." + ext;
    ChildPathParts(dir, stem, ext);
    SaveDataSucceeds(isDataFrame, p, description);
    assert p == (dir + "/" + stem) + "." + ext;
    MetadataPathOfExtension(dir + "/" + stem, ext);
  }

  /**
   * When the output's last '.' lies in its file name (or there is none), the
   * metadata save_data writes sits beside the data file: the written path is the
   * corrected one.
   */
  lemma SaveDataMetadataBeside(isDataFrame: bool, outputPath: string, description: Option<string>, fileFormat: string, rootFound: bool)
    requires RFind(outputPath, '.') > RFind(outputPath, '/') || RFind(outputPath, '.') == -1
    requires SaveData(isDataFrame, outputPath, description, fileFormat, rootFound).Success?
    ensures SaveData(isDataFrame, outputPath, description, fileFormat, rootFound).value.metadataPath == MetadataPath(outputPath)
    ensures StartsWith(SaveData(isDataFrame, outputPath, description, fileFormat, rootFound).value.metadataPath,
                       outputPath[..RFind(outputPath, '/') + 1])
  {
    MetadataPathAgrees(outputPath);
  }

  /** "<dir>/<stem>.<ext>": its directory, its base name and the format read off it. */
  lemma ChildPathParts(dir: string, stem: string, ext: string)
    requires '.' !in ext && '/' !in ext && '/' !in stem && dir != [] && '/' !in dir
    ensures var p := dir + "/" + stem + "." + ext;
      && PosixPath.Dirname(p) == dir
      && PosixPath.Basename(p) == stem + "." + ext
      && ResolvedFormat(p, "") == ToLower(ext)
  {
    var name := stem + "." + ext;
    assert '/' !in name;
    var p := dir + "/" + stem + "." + ext;
    assert p == dir + "/" + name;
    DirnameOfChild(dir, name);
    assert p == PosixPath.Join(dir, name) by {
      assert dir[0] in dir;
    }
    PosixPath.BasenameOfJoin(dir, name);
    assert p == (dir + "/" + stem) + "." + ext;
    InferFormatOfExtension(dir + "/" + stem, ext);
  }

  /** With a directory, a supported format (csv only for a DataFrame) and the root found, save_data succeeds. */
  lemma SaveDataSucceeds(isDataFrame: bool, outputPath: string, description: Option<string>)
    requires PosixPath.Dirname(outputPath) != ""
    requires var format := ResolvedFormat(outputPath, ""); Supported(format) && (format == "csv" ==> isDataFrame)
    ensures var r := SaveData(isDataFrame, outputPath, description, "", true);
      r.Success? && r.value.format == ResolvedFormat(outputPath, "") && r.value.metadata.source == PosixPath.Basename(outputPath)
  {
  }
}
