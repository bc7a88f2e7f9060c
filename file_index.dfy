/**
 * The episode index of utils/file.ts: `lsAllFiles` turns the paths a
 * directory listing found into (season, episode, filename) records,
 * `joinFileData` joins the episode metadata to those records on
 * (season, episode), and `findFiles` adds each joined episode's duration.
 * The listing (`glob`) is done by the caller, which passes in the paths; the
 * duration probe (`ffprobe`) is a parameter.
 */
module FileIndex {
  import opened Wrappers
  import opened StringOps
  import Paths
  import Pattern = SeasonEpisodePattern
  import EpisodeFormat
  import TaggedNames

  /** `InitialEpisodeDatum`: one entry of the episode metadata. */
  datatype InitialEpisode = InitialEpisode(season: int, episode: int, name: string, overview: string)

  /** `FileEpisodeDatum`: a video file whose name carries a season and an episode number. */
  datatype FileEpisode = FileEpisode(season: int, episode: int, filename: string)

  /** `JoinedEpisodeDatum`: a metadata entry together with its file. */
  datatype JoinedEpisode = JoinedEpisode(season: int, episode: int, name: string, overview: string, filename: string)

  /** `EpisodeDatum`: a joined entry together with the video's length in seconds. */
  datatype Episode = Episode(season: int, episode: int, name: string, overview: string, filename: string, lengthSec: real)

  /** What the index build rejects with. */
  datatype IndexError =
    | MissingEpisode(message: string)   // `new Error("Couldn't find file for S..E..")`
    | ProbeFailed(filename: string)     // a rejected duration probe

  /** A JavaScript property value, and an object as the map from its property names. */
  datatype Value = Number(n: real) | Text(t: string)

  type Object = map<string, Value>

  function FileObject(f: FileEpisode): Object
  {
    map["season" := Number(f.season as real), "episode" := Number(f.episode as real),
        "filename" := Text(f.filename)]
  }

  function InitialObject(e: InitialEpisode): Object
  {
    map["season" := Number(e.season as real), "episode" := Number(e.episode as real),
        "name" := Text(e.name), "overview" := Text(e.overview)]
  }

  function JoinedObject(j: JoinedEpisode): Object
  {
    map["season" := Number(j.season as real), "episode" := Number(j.episode as real),
        "name" := Text(j.name), "overview" := Text(j.overview), "filename" := Text(j.filename)]
  }

  function EpisodeObject(e: Episode): Object
  {
    map["season" := Number(e.season as real), "episode" := Number(e.episode as real),
        "name" := Text(e.name), "overview" := Text(e.overview), "filename" := Text(e.filename),
        "lengthSec" := Number(e.lengthSec)]
  }

  // ---------------------------------------------------------------------------
  // lsAllFiles

  /**
   * One step of `lsAllFiles`: the record for a listed path when the pattern
   * matches its base name, the digit groups read as numbers with `parseInt`.
   */
  function ParsePath(path: string): Option<FileEpisode>
  {
    match Pattern.Match(Paths.Basename(path))
    case None => None
    case Some(m) =>
      Pattern.MatchSpec(Paths.Basename(path));
      Some(FileEpisode(DigitsValue(m.season), DigitsValue(m.episode), path))
  }

  /**
   * A listed path yields a record exactly when the pattern matches its base
   * name, which then ends in `.mkv` or `.mp4`; the record keeps the whole
   * path, and its numbers are the decimal values of the season and the
   * episode part of a way of cutting the base name into the pattern's parts.
   */
  lemma ParsePathSpec(path: string)
    ensures ParsePath(path).Some? <==> Pattern.Accepts(Paths.Basename(path))
    ensures ParsePath(path).Some? ==>
      var name := Paths.Basename(path);
      ParsePath(path).value.filename == path && |name| >= 4 && Pattern.IsExtension(name[|name| - 4..])
    ensures ParsePath(path).Some? ==>
      var name := Paths.Basename(path);
      exists sp :: Pattern.ValidSplit(name, sp) &&
        IsDigits(name[sp.a..sp.b]) && ParsePath(path).value.season == DigitsValue(name[sp.a..sp.b]) &&
        IsDigits(name[sp.c..sp.d]) && ParsePath(path).value.episode == DigitsValue(name[sp.c..sp.d])
  {
    var name := Paths.Basename(path);
    Pattern.MatchSpec(name);
    if ParsePath(path).Some? {
      var m := Pattern.Match(name).value;
      var sp :| Pattern.ValidSplit(name, sp) && m == Pattern.Captures(name[sp.a..sp.b], name[sp.c..sp.d]);
      assert ParsePath(path).value == FileEpisode(DigitsValue(m.season), DigitsValue(m.episode), path);
    }
  }

  /** The records `lsAllFiles` collects from the listed paths, in listing order. */
  function ParseAll(paths: seq<string>): (files: seq<FileEpisode>)
    ensures |files| <= |paths|
  {
    if paths == [] then []
    else
      ParseAll(paths[..|paths| - 1]) +
      (match ParsePath(paths[|paths| - 1]) case Some(f) => [f] case None => [])
  }

  /**
   * The records are exactly those of the listed paths whose base name
   * matches: each comes from a listed path, and each matching path has one.
   */
  lemma {:induction false} ParseAllRecords(paths: seq<string>)
    ensures forall f :: f in ParseAll(paths) ==> f.filename in paths && ParsePath(f.filename) == Some(f)
    ensures forall i :: 0 <= i < |paths| && ParsePath(paths[i]).Some? ==> ParsePath(paths[i]).value in ParseAll(paths)
  {
    if paths != [] {
      var init := paths[..|paths| - 1];
      var last := paths[|paths| - 1];
      var tail := match ParsePath(last) case Some(f) => [f] case None => [];
      assert ParseAll(paths) == ParseAll(init) + tail;
      ParseAllRecords(init);
      forall f | f in ParseAll(paths)
        ensures f.filename in paths && ParsePath(f.filename) == Some(f)
      {
        if f in ParseAll(init) {
          assert f.filename in init;
        } else {
          assert f in tail;
        }
      }
      forall i | 0 <= i < |paths| && ParsePath(paths[i]).Some?
        ensures ParsePath(paths[i]).value in ParseAll(paths)
      {
        if i < |paths| - 1 {
          assert paths[i] == init[i];
        }
      }
    }
  }

  /** `lsAllFiles(dir)`, given the paths `glob` listed under `dir`. */
  method ListEpisodeFiles(globbed: seq<string>) returns (fileData: seq<FileEpisode>)
    ensures fileData == ParseAll(globbed)
  {
    fileData := [];
    var i := 0;
    while i < |globbed|
      invariant 0 <= i <= |globbed|
      invariant fileData == ParseAll(globbed[..i])
    {
      var filename := globbed[i];
      var m := Pattern.Match(Paths.Basename(filename));
      if m.Some? {
        Pattern.MatchSpec(Paths.Basename(filename));
        fileData := fileData + [FileEpisode(DigitsValue(m.value.season), DigitsValue(m.value.episode), filename)];
      }
      assert globbed[..i + 1][..i] == globbed[..i];
      i := i + 1;
    }
    assert globbed[..|globbed|] == globbed;
  }

  /** Listing order is kept: the records of two listings are those of each, one after the other. */
  lemma {:induction false} ParseAllAppend(a: seq<string>, b: seq<string>)
    ensures ParseAll(a + b) == ParseAll(a) + ParseAll(b)
    decreases |b|
  {
    if b == [] {
      assert a + b == a;
    } else {
      var b' := b[..|b| - 1];
      assert (a + b)[..|a + b| - 1] == a + b';
      assert (a + b)[|a + b| - 1] == b[|b| - 1];
      ParseAllAppend(a, b');
    }
  }

  /** A path whose base name does not match adds no record and no error; a matching one adds exactly its record. */
  lemma ParseAllStep(paths: seq<string>, path: string)
    ensures ParsePath(path).None? ==> ParseAll(paths + [path]) == ParseAll(paths)
    ensures ParsePath(path).Some? ==> ParseAll(paths + [path]) == ParseAll(paths) + [ParsePath(path).value]
  {
    assert (paths + [path])[..|paths|] == paths;
  }

  /** Only the base name is read: the directory part of a path changes nothing but the stored filename. */
  lemma DirectoryIgnored(dir1: string, dir2: string, name: string)
    requires name != [] && '/' !in name
    ensures ParsePath(dir1 + "/" + name).Some? == ParsePath(dir2 + "/" + name).Some?
    ensures ParsePath(dir1 + "/" + name).Some? ==>
      ParsePath(dir1 + "/" + name).value.season == ParsePath(dir2 + "/" + name).value.season &&
      ParsePath(dir1 + "/" + name).value.episode == ParsePath(dir2 + "/" + name).value.episode
  {
    Paths.BasenameOfJoin(dir1, name);
    Paths.BasenameOfJoin(dir2, name);
  }

  /**
   * Files named with the display tag are indexed under that season and
   * episode: a path "<dir>/S<ss>E<ee>.mkv" (or .mp4), with the numbers written
   * by `seasonEpisodeTag`, is parsed back to the same season and episode.
   */
  lemma TaggedFileParses(dir: string, season: nat, episode: nat, ext: string)
    requires ext == ".mkv" || ext == ".mp4"
    ensures var name := EpisodeFormat.SeasonEpisodeTag(NatToDecimal(season), NatToDecimal(episode)) + ext;
      var path := dir + "/" + name;
      ParsePath(path) == Some(FileEpisode(season, episode, path))
  {
    var ss := NatToDecimal(season);
    var es := NatToDecimal(episode);
    var name := EpisodeFormat.SeasonEpisodeTag(ss, es) + ext;
    var path := dir + "/" + name;
    TaggedNames.TaggedNameMatches(ss, es, ext);
    TaggedNames.TaggedNameHasNoSlash(ss, es, ext);
    Paths.BasenameOfJoin(dir, name);
    assert Pattern.Match(Paths.Basename(path)) == Some(Pattern.Captures(PadStartZeros(ss, 2), PadStartZeros(es, 2)));
    PadStartZerosValue(ss, 2);
    PadStartZerosValue(es, 2);
    DecimalRoundTrip(season);
    DecimalRoundTrip(episode);
  }

  // ---------------------------------------------------------------------------
  // joinFileData

  predicate SameEpisode(f: FileEpisode, season: int, episode: int)
  {
    f.season == season && f.episode == episode
  }

  /** `fileData.find(...)` for (season, episode), as the index of the first equal record. */
  function FindFile(files: seq<FileEpisode>, season: int, episode: int): (r: Option<nat>)
    ensures r.Some? ==> r.value < |files| && SameEpisode(files[r.value], season, episode)
    ensures r.Some? ==> forall j :: 0 <= j < r.value ==> !SameEpisode(files[j], season, episode)
    ensures r.None? <==> forall j :: 0 <= j < |files| ==> !SameEpisode(files[j], season, episode)
  {
    if files == [] then None
    else if SameEpisode(files[0], season, episode) then Some(0)
    else
      match FindFile(files[1..], season, episode)
      case None =>
        assert forall j :: 1 <= j < |files| ==> files[j] == files[1..][j - 1];
        None
      case Some(k) =>
        assert forall j :: 1 <= j < |files| ==> files[j] == files[1..][j - 1];
        Some(k + 1)
  }

  predicate HasFile(files: seq<FileEpisode>, e: InitialEpisode)
  {
    FindFile(files, e.season, e.episode).Some?
  }

  /** `{ ...found, ...initialData }`: the object spread, later properties winning. */
  function Merge(found: FileEpisode, initial: InitialEpisode): (r: JoinedEpisode)
    ensures JoinedObject(r) == FileObject(found) + InitialObject(initial)
  {
    JoinedEpisode(initial.season, initial.episode, initial.name, initial.overview, found.filename)
  }

  /** The joined record of a metadata entry that has a file. */
  function JoinOne(files: seq<FileEpisode>, e: InitialEpisode): (r: JoinedEpisode)
    requires HasFile(files, e)
    ensures r.season == e.season && r.episode == e.episode && r.name == e.name && r.overview == e.overview
    ensures FileEpisode(e.season, e.episode, r.filename) in files
    ensures exists i :: (0 <= i < |files| && SameEpisode(files[i], e.season, e.episode) &&
      r.filename == files[i].filename && forall j :: 0 <= j < i ==> !SameEpisode(files[j], e.season, e.episode))
  {
    Merge(files[FindFile(files, e.season, e.episode).value], e)
  }

  /** The message of the error thrown for an entry without a file. */
  function MissingMessage(e: InitialEpisode): string
  {
    "Couldn't find file for S" + IntToDecimal(e.season) + "E" + IntToDecimal(e.episode)
  }

  /** One iteration of the `forEach` in `joinFileData`, on what it has collected so far. */
  function JoinStep(filled: seq<JoinedEpisode>, e: InitialEpisode, files: seq<FileEpisode>, allowMissing: bool)
    : Result<seq<JoinedEpisode>, IndexError>
  {
    if HasFile(files, e) then Ok(filled + [JoinOne(files, e)])
    else if allowMissing then Ok(filled)
    else Err(MissingEpisode(MissingMessage(e)))
  }

  /** What `joinFileData` returns, or throws, for the metadata entries in order. */
  function Join(episodes: seq<InitialEpisode>, files: seq<FileEpisode>, allowMissing: bool)
    : (r: Result<seq<JoinedEpisode>, IndexError>)
    ensures r.Ok? ==> |r.value| <= |episodes|
    ensures allowMissing ==> r.Ok?
  {
    if episodes == [] then Ok([])
    else
      var prev := Join(episodes[..|episodes| - 1], files, allowMissing);
      if prev.Err? then prev
      else JoinStep(prev.value, episodes[|episodes| - 1], files, allowMissing)
  }

  /** Once an entry has thrown, later entries change nothing. */
  lemma {:induction false} JoinErrorStays(episodes: seq<InitialEpisode>, files: seq<FileEpisode>, allowMissing: bool, n: nat)
    requires n <= |episodes| && Join(episodes[..n], files, allowMissing).Err?
    ensures Join(episodes, files, allowMissing) == Join(episodes[..n], files, allowMissing)
    decreases |episodes| - n
  {
    if n < |episodes| {
      var init := episodes[..|episodes| - 1];
      assert init[..n] == episodes[..n];
      JoinErrorStays(init, files, allowMissing, n);
    } else {
      assert episodes[..n] == episodes;
    }
  }

  /** `joinFileData(episodeData, fileData)`, with `config.allowMissingEpisodes` as a parameter. */
  method JoinFileData(episodeData: seq<InitialEpisode>, fileData: seq<FileEpisode>, allowMissing: bool)
    returns (r: Result<seq<JoinedEpisode>, IndexError>)
    ensures r == Join(episodeData, fileData, allowMissing)
  {
    var filledData: seq<JoinedEpisode> := [];
    var i := 0;
    while i < |episodeData|
      invariant 0 <= i <= |episodeData|
      invariant Join(episodeData[..i], fileData, allowMissing) == Ok(filledData)
    {
      var initialData := episodeData[i];
      assert episodeData[..i + 1][..i] == episodeData[..i];
      var found := FindFile(fileData, initialData.season, initialData.episode);
      if found.None? {
        var errorMessage := MissingMessage(initialData);
        if !allowMissing {
          JoinErrorStays(episodeData, fileData, allowMissing, i + 1);
          return Err(MissingEpisode(errorMessage));
        }
      } else {
        filledData := filledData + [Merge(fileData[found.value], initialData)];
      }
      i := i + 1;
    }
    assert episodeData[..|episodeData|] == episodeData;
    return Ok(filledData);
  }

  /** The entries that have a file, in metadata order: an independent filter from the front. */
  function Matched(episodes: seq<InitialEpisode>, files: seq<FileEpisode>): (r: seq<InitialEpisode>)
    ensures |r| <= |episodes|
    ensures forall e :: e in r ==> e in episodes && HasFile(files, e)
    ensures forall e :: e in episodes && HasFile(files, e) ==> e in r
  {
    if episodes == [] then []
    else (if HasFile(files, episodes[0]) then [episodes[0]] else []) + Matched(episodes[1..], files)
  }

  /** Filtering keeps order: filtering two lists is filtering each, one after the other. */
  lemma {:induction false} MatchedAppend(a: seq<InitialEpisode>, b: seq<InitialEpisode>, files: seq<FileEpisode>)
    ensures Matched(a + b, files) == Matched(a, files) + Matched(b, files)
    decreases |a|
  {
    if a == [] {
      assert a + b == b;
    } else {
      assert (a + b)[1..] == a[1..] + b;
      MatchedAppend(a[1..], b, files);
    }
  }

  /** Each entry joined with its first matching file. */
  function JoinAll(es: seq<InitialEpisode>, files: seq<FileEpisode>): (r: seq<JoinedEpisode>)
    requires forall e :: e in es ==> HasFile(files, e)
    ensures |r| == |es|
    ensures forall k :: 0 <= k < |es| ==> r[k] == JoinOne(files, es[k])
  {
    seq(|es|, k requires 0 <= k < |es| => JoinOne(files, es[k]))
  }

  lemma JoinAllAppend(es: seq<InitialEpisode>, e: InitialEpisode, files: seq<FileEpisode>)
    requires forall x :: x in es ==> HasFile(files, x)
    requires HasFile(files, e)
    ensures JoinAll(es + [e], files) == JoinAll(es, files) + [JoinOne(files, e)]
  {
  }

  /**
   * With missing episodes allowed the join never fails, and it returns exactly
   * the entries that have a file, in metadata order, each joined with the
   * first file of equal season and episode.
   */
  lemma {:induction false} JoinAllowingMissing(episodes: seq<InitialEpisode>, files: seq<FileEpisode>)
    ensures Join(episodes, files, true) == Ok(JoinAll(Matched(episodes, files), files))
    decreases |episodes|
  {
    if episodes != [] {
      var init := episodes[..|episodes| - 1];
      var last := episodes[|episodes| - 1];
      JoinAllowingMissing(init, files);
      assert episodes == init + [last];
      MatchedAppend(init, [last], files);
      assert [last][1..] == [];
      if HasFile(files, last) {
        assert Matched([last], files) == [last];
        JoinAllAppend(Matched(init, files), last, files);
      } else {
        assert Matched([last], files) == [];
        assert Matched(episodes, files) == Matched(init, files);
        assert Join(episodes, files, true) == Join(init, files, true);
      }
    }
  }

  /**
   * With missing episodes not allowed the join succeeds exactly when every
   * entry has a file, and then it returns every entry, in order, joined with
   * its first matching file.
   */
  lemma {:induction false} JoinStrict(episodes: seq<InitialEpisode>, files: seq<FileEpisode>)
    ensures Join(episodes, files, false).Ok? <==> forall e :: e in episodes ==> HasFile(files, e)
    ensures Join(episodes, files, false).Ok? ==> Join(episodes, files, false).value == JoinAll(episodes, files)
    decreases |episodes|
  {
    if episodes != [] {
      var init := episodes[..|episodes| - 1];
      var last := episodes[|episodes| - 1];
      JoinStrict(init, files);
      assert episodes == init + [last];
      assert forall e :: e in episodes <==> e in init || e == last;
      if Join(init, files, false).Ok? && HasFile(files, last) {
        JoinAllAppend(init, last, files);
      }
    }
  }

  /** The error names the first entry, in metadata order, that has no file. */
  lemma JoinStrictError(episodes: seq<InitialEpisode>, files: seq<FileEpisode>, i: nat)
    requires i < |episodes| && !HasFile(files, episodes[i])
    requires forall j :: 0 <= j < i ==> HasFile(files, episodes[j])
    ensures Join(episodes, files, false) == Err(MissingEpisode(MissingMessage(episodes[i])))
  {
    var prefix := episodes[..i + 1];
    assert prefix[..i] == episodes[..i];
    JoinStrict(episodes[..i], files);
    JoinErrorStays(episodes, files, false, i + 1);
  }

  /** The error message ends with the tag "S<season>E<episode>" of the entry. */
  lemma MissingMessageNamesEpisode(e: InitialEpisode)
    ensures var m := MissingMessage(e);
      var tag := "S" + IntToDecimal(e.season) + "E" + IntToDecimal(e.episode);
      |m| >= |tag| && m[|m| - |tag|..] == tag
  {
    var prefix := "Couldn't find file for ";
    var tag := "S" + IntToDecimal(e.season) + "E" + IntToDecimal(e.episode);
    assert MissingMessage(e) == prefix + tag;
  }

  // ---------------------------------------------------------------------------
  // findFiles

  /** `{ ...ep, lengthSec }` */
  function WithLength(j: JoinedEpisode, lengthSec: real): (e: Episode)
    ensures EpisodeObject(e) == JoinedObject(j)["lengthSec" := Number(lengthSec)]
  {
    Episode(j.season, j.episode, j.name, j.overview, j.filename, lengthSec)
  }

  /**
   * The `map` over the joined records with the duration probe: `probe(f)` is
   * the parsed output of the probe for file f, or None when the probe rejects.
   */
  function WithLengths(joined: seq<JoinedEpisode>, probe: string -> Option<real>): (r: Result<seq<Episode>, IndexError>)
    ensures r.Ok? <==> forall k :: 0 <= k < |joined| ==> probe(joined[k].filename).Some?
    ensures r.Ok? ==> (|r.value| == |joined| &&
      forall k :: 0 <= k < |joined| ==> r.value[k] == WithLength(joined[k], probe(joined[k].filename).value))
    ensures r.Err? ==> (r.error.ProbeFailed? &&
      exists k :: 0 <= k < |joined| && joined[k].filename == r.error.filename && probe(joined[k].filename).None?)
  {
    if joined == [] then Ok([])
    else
      assert forall k :: 1 <= k < |joined| ==> joined[k] == joined[1..][k - 1];
      match probe(joined[0].filename)
      case None => Err(ProbeFailed(joined[0].filename))
      case Some(lengthSec) =>
        match WithLengths(joined[1..], probe)
        case Err(e) => Err(e)
        case Ok(rest) => Ok([WithLength(joined[0], lengthSec)] + rest)
  }

  /**
   * `findFiles(episodeData, fileData)`: a join error is passed on; otherwise
   * one record per joined record, in the same order, each the joined record
   * plus its probed `lengthSec`.
   */
  function FindFiles(episodeData: seq<InitialEpisode>, fileData: seq<FileEpisode>, allowMissing: bool,
                     probe: string -> Option<real>): (r: Result<seq<Episode>, IndexError>)
    ensures Join(episodeData, fileData, allowMissing).Err? ==>
      r == Err(Join(episodeData, fileData, allowMissing).error)
    ensures Join(episodeData, fileData, allowMissing).Ok? ==>
      var joined := Join(episodeData, fileData, allowMissing).value;
      (r.Ok? <==> forall k :: 0 <= k < |joined| ==> probe(joined[k].filename).Some?) &&
      (r.Err? ==> (r.error.ProbeFailed? &&
        exists k :: 0 <= k < |joined| && joined[k].filename == r.error.filename && probe(joined[k].filename).None?))
    ensures r.Ok? ==>
      var joined := Join(episodeData, fileData, allowMissing).value;
      |r.value| == |joined| &&
      forall k :: 0 <= k < |joined| ==>
        EpisodeObject(r.value[k]) == JoinedObject(joined[k])["lengthSec" := Number(r.value[k].lengthSec)] &&
        probe(joined[k].filename) == Some(r.value[k].lengthSec)
  {
    match Join(episodeData, fileData, allowMissing)
    case Err(e) => Err(e)
    case Ok(joined) => WithLengths(joined, probe)
  }
}
