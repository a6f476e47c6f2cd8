/** The playlist downloader: each video's title is checked against the set
    of titles already downloaded, and a new one is downloaded to a file
    named after its sanitised title, added to the set and appended to the
    log of downloaded songs. Whether the download itself raises is a
    parameter; the playlist fetch is not part of this model. */
module Downloader {
  import opened Wrappers
  import opened Text
  import opened SongLog

  /** `OUTPUT_DIR`. */
  const OutputDir: string := "datasetsTEST"

  // ---------------------------------------------------------------- sanitize_title

  /** The characters `sanitize_title` drops. */
  predicate Forbidden(c: char) {
    c in "/\\?%*:|\"<>"
  }

  /** `sanitize_title`: the title without its forbidden characters. */
  function SanitizeTitle(title: string): (r: string)
    ensures |r| <= |title|
    ensures forall k :: 0 <= k < |r| ==> !Forbidden(r[k])
  {
    if title == [] then []
    else if Forbidden(title[0]) then SanitizeTitle(title[1..])
    else [title[0]] + SanitizeTitle(title[1..])
  }

  /** Sanitising works character by character, so it keeps the order of
      what it keeps. */
  lemma {:induction false} SanitizeConcat(a: string, b: string)
    ensures SanitizeTitle(a + b) == SanitizeTitle(a) + SanitizeTitle(b)
  {
    if a == [] {
      assert a + b == b;
    } else {
      assert (a + b)[0] == a[0];
      assert (a + b)[1..] == a[1..] + b;
      SanitizeConcat(a[1..], b);
    }
  }

  /** Every allowed character occurs as often as in the title, and no
      forbidden one is left. */
  lemma {:induction false} SanitizeCounts(title: string, c: char)
    ensures multiset(SanitizeTitle(title))[c] == if Forbidden(c) then 0 else multiset(title)[c]
  {
    if title != [] {
      SanitizeCounts(title[1..], c);
      assert title == [title[0]] + title[1..];
    }
  }

  /** A title is left as it is exactly when it has no forbidden character. */
  lemma {:induction false} SanitizeFixed(title: string)
    ensures SanitizeTitle(title) == title <==> forall k :: 0 <= k < |title| ==> !Forbidden(title[k])
  {
    if title != [] {
      SanitizeFixed(title[1..]);
      if Forbidden(title[0]) {
        assert |SanitizeTitle(title)| < |title|;
      } else {
        assert forall k :: 1 <= k < |title| ==> title[k] == title[1..][k - 1];
      }
    }
  }

  /** Sanitising twice is sanitising once. */
  lemma SanitizeIdempotent(title: string)
    ensures SanitizeTitle(SanitizeTitle(title)) == SanitizeTitle(title)
  {
    SanitizeFixed(SanitizeTitle(title));
  }

  // ---------------------------------------------------------------- get_ydl_opts

  /** `os.path.join(a, b)` on POSIX: an absolute `b` replaces `a`, and a
      separator goes between them unless `a` is empty or ends with one. */
  function PathJoin(a: string, b: string): string {
    if b != [] && b[0] == '/' then b
    else if a == [] || a[|a| - 1] == '/' then a + b
    else a + "/" + b
  }

  /** Python truthiness of the optional `title` argument. */
  predicate TitleGiven(title: Option<string>) {
    title.Some? && title.value != []
  }

  /** The `outtmpl` option: a given title names the file after its
      sanitised form, and without one yt-dlp's own title field is used. */
  function OutputTemplate(title: Option<string>): (r: string)
    ensures TitleGiven(title) ==> r == OutputDir + "/" + SanitizeTitle(title.value) + ".%(ext)s"
    ensures !TitleGiven(title) ==> r == OutputDir + "/" + "%(title)s.%(ext)s"
  {
    if TitleGiven(title) then
      var name := SanitizeTitle(title.value) + ".%(ext)s";
      assert name[0] != '/';
      assert OutputDir[|OutputDir| - 1] != '/';
      PathJoin(OutputDir, name)
    else PathJoin(OutputDir, "%(title)s.%(ext)s")
  }

  /** The file a download goes to stays inside the output folder: the
      sanitised title holds no separator. */
  lemma TemplateInOutputDir(title: Option<string>)
    requires TitleGiven(title)
    ensures var r := OutputTemplate(title);
      r[..|OutputDir| + 1] == OutputDir + "/" && '/' !in r[|OutputDir| + 1..]
  {
    var s := SanitizeTitle(title.value);
    var r := OutputTemplate(title);
    assert r[|OutputDir| + 1..] == s + ".%(ext)s";
    assert forall k :: 0 <= k < |s| ==> s[k] != '/';
  }

  // ---------------------------------------------------------------- download_video

  datatype Status = Skipped | Success | Failed

  /** One call of `download_video` on a video with the given title, from the
      set of downloaded titles and the log's text. `raises` says whether the
      download raises. A `None` title gets into the set and then makes the
      log line fail, so the call reports a failure. */
  function DownloadStep(downloaded: set<Option<string>>, log: string, title: Option<string>, raises: bool)
    : (r: (Status, set<Option<string>>, string))
    ensures r.0 == Skipped <==> title in downloaded
    ensures r.0 == Success <==> title !in downloaded && !raises && title.Some?
    ensures r.0 == Skipped || (title !in downloaded && raises) ==> r.1 == downloaded && r.2 == log
    ensures r.0 == Success ==> r.1 == downloaded + {title} && r.2 == log + title.value + "\n"
  {
    if title in downloaded then (Skipped, downloaded, log)
    else if raises then (Failed, downloaded, log)
    else if title.None? then (Failed, downloaded + {title}, log)
    else (Success, downloaded + {title}, log + title.value + "\n")
  }

  /** A missing title fails after it was recorded, so every later video
      without a title is skipped without being downloaded. */
  lemma MissingTitleBlocks(downloaded: set<Option<string>>, log: string, raises: bool, again: bool)
    requires None !in downloaded && !raises
    ensures var r := DownloadStep(downloaded, log, None, raises);
      && r.0 == Failed && r.2 == log
      && DownloadStep(r.1, r.2, None, again).0 == Skipped
  {
  }

  /** The log ends with a line feed, and every title the loader would read
      from it is in the set. */
  ghost predicate Consistent(downloaded: set<Option<string>>, log: string) {
    && EndsLine(log)
    && forall t :: t in KeptLines(SplitLines(log)) ==> Some(t) in downloaded
  }

  /** At start-up, the set is what the loader reads from the log. */
  lemma LoadedConsistent(log: string)
    requires EndsLine(log)
    ensures Consistent(set t | t in KeptLines(SplitLines(log)) :: Some(t), log)
  {
  }

  /** A call keeps the set and the log consistent, as long as titles do not
      hold line feeds. */
  lemma StepConsistent(downloaded: set<Option<string>>, log: string, title: Option<string>, raises: bool)
    requires Consistent(downloaded, log)
    requires title.Some? ==> '\n' !in title.value
    ensures var r := DownloadStep(downloaded, log, title, raises); Consistent(r.1, r.2)
  {
    var r := DownloadStep(downloaded, log, title, raises);
    if r.0 == Success {
      LoadAfterAppend(log, title.value);
    }
  }

  // ---------------------------------------------------------------- the downloads

  datatype Video = Video(url: string, title: Option<string>)

  /** The statuses so far, the set and the log. */
  datatype Run = Run(statuses: seq<Status>, downloaded: set<Option<string>>, log: string)

  /** The calls on `titles` in submission order, the `i`-th download raising
      when `raises(i)`. */
  function RunOf(downloaded: set<Option<string>>, log: string, titles: seq<Option<string>>, raises: nat -> bool): (r: Run)
    ensures |r.statuses| == |titles|
  {
    if titles == [] then Run([], downloaded, log)
    else
      var before := RunOf(downloaded, log, titles[..|titles| - 1], raises);
      var step := DownloadStep(before.downloaded, before.log, titles[|titles| - 1], raises(|titles| - 1));
      Run(before.statuses + [step.0], step.1, step.2)
  }

  function TitlesOf(videos: seq<Video>): (ts: seq<Option<string>>)
    ensures |ts| == |videos| && forall i :: 0 <= i < |videos| ==> ts[i] == videos[i].title
  {
    seq(|videos|, i requires 0 <= i < |videos| => videos[i].title)
  }

  /** The titles downloaded, in order. */
  function SuccessTitles(titles: seq<Option<string>>, statuses: seq<Status>): seq<string>
    requires |titles| == |statuses|
  {
    if titles == [] then []
    else
      var n := |titles| - 1;
      SuccessTitles(titles[..n], statuses[..n])
      + (if statuses[n] == Success && titles[n].Some? then [titles[n].value] else [])
  }

  lemma RunStep(downloaded: set<Option<string>>, log: string, titles: seq<Option<string>>, raises: nat -> bool, i: nat)
    requires i < |titles|
    ensures var before := RunOf(downloaded, log, titles[..i], raises);
      var step := DownloadStep(before.downloaded, before.log, titles[i], raises(i));
      RunOf(downloaded, log, titles[..i + 1], raises) == Run(before.statuses + [step.0], step.1, step.2)
  {
    assert titles[..i + 1][..i] == titles[..i];
  }

  /** The last call of a run, on what the calls before it left. */
  lemma RunLast(downloaded: set<Option<string>>, log: string, titles: seq<Option<string>>, raises: nat -> bool)
    requires titles != []
    ensures var n := |titles| - 1;
      var before := RunOf(downloaded, log, titles[..n], raises);
      var r := RunOf(downloaded, log, titles, raises);
      var step := DownloadStep(before.downloaded, before.log, titles[n], raises(n));
      && r.statuses[..n] == before.statuses && r.statuses[n] == step.0
      && r.downloaded == step.1 && r.log == step.2
  {
  }

  /** The set only grows, and holds every title downloaded. */
  lemma {:induction false} RunRecords(downloaded: set<Option<string>>, log: string, titles: seq<Option<string>>, raises: nat -> bool)
    ensures downloaded <= RunOf(downloaded, log, titles, raises).downloaded
    ensures forall i :: 0 <= i < |titles| && RunOf(downloaded, log, titles, raises).statuses[i] == Success ==>
      titles[i] in RunOf(downloaded, log, titles, raises).downloaded
  {
    if titles != [] {
      var front := titles[..|titles| - 1];
      RunRecords(downloaded, log, front, raises);
      forall i | 0 <= i < |front|
        ensures RunOf(downloaded, log, titles, raises).statuses[i] == RunOf(downloaded, log, front, raises).statuses[i]
      {
      }
    }
  }

  /** No title is downloaded twice, nor one that was downloaded before the
      run. */
  lemma {:induction false} DownloadsOnce(downloaded: set<Option<string>>, log: string, titles: seq<Option<string>>, raises: nat -> bool)
    ensures forall i :: 0 <= i < |titles| && RunOf(downloaded, log, titles, raises).statuses[i] == Success ==>
      titles[i] !in downloaded
    ensures forall i, j ::
      (0 <= i < j < |titles|
       && RunOf(downloaded, log, titles, raises).statuses[i] == Success
       && RunOf(downloaded, log, titles, raises).statuses[j] == Success) ==> titles[i] != titles[j]
  {
    if titles != [] {
      var front := titles[..|titles| - 1];
      var before := RunOf(downloaded, log, front, raises);
      var after := RunOf(downloaded, log, titles, raises);
      DownloadsOnce(downloaded, log, front, raises);
      RunRecords(downloaded, log, front, raises);
      assert forall i :: 0 <= i < |front| ==> after.statuses[i] == before.statuses[i] && titles[i] == front[i];
    }
  }

  /** The log gains one line per download, in order. */
  lemma {:induction false} RunLog(downloaded: set<Option<string>>, log: string, titles: seq<Option<string>>, raises: nat -> bool)
    ensures var r := RunOf(downloaded, log, titles, raises);
      r.log == log + Lines(SuccessTitles(titles, r.statuses))
  {
    if titles != [] {
      var n := |titles| - 1;
      var front := titles[..n];
      var r := RunOf(downloaded, log, titles, raises);
      RunLog(downloaded, log, front, raises);
      RunLast(downloaded, log, titles, raises);
      var ts := SuccessTitles(front, r.statuses[..n]);
      assert RunOf(downloaded, log, front, raises).log == log + Lines(ts);
      if r.statuses[n] == Success {
        var t := titles[n].value;
        assert SuccessTitles(titles, r.statuses) == ts + [t];
        assert (ts + [t])[..|ts|] == ts;
        assert Lines(ts + [t]) == Lines(ts) + t + "\n";
      } else {
        assert SuccessTitles(titles, r.statuses) == ts;
      }
    }
  }

  /** A run leaves the log ending with a line feed if it did before. */
  lemma RunTerminated(downloaded: set<Option<string>>, log: string, titles: seq<Option<string>>, raises: nat -> bool)
    requires EndsLine(log)
    ensures var r := RunOf(downloaded, log, titles, raises); EndsLine(r.log)
  {
    RunLog(downloaded, log, titles, raises);
  }

  lemma {:induction false} SuccessTitlesFrom(titles: seq<Option<string>>, statuses: seq<Status>)
    requires |titles| == |statuses|
    ensures forall t :: t in SuccessTitles(titles, statuses) ==> Some(t) in titles
  {
    if titles != [] {
      var n := |titles| - 1;
      SuccessTitlesFrom(titles[..n], statuses[..n]);
      assert forall i :: 0 <= i < n ==> titles[..n][i] == titles[i];
    }
  }

  lemma {:induction false} SuccessTitlesHas(titles: seq<Option<string>>, statuses: seq<Status>, i: nat)
    requires |titles| == |statuses|
    requires i < |titles| && statuses[i] == Success && titles[i].Some?
    ensures titles[i].value in SuccessTitles(titles, statuses)
  {
    var n := |titles| - 1;
    if i < n {
      SuccessTitlesHas(titles[..n], statuses[..n], i);
    }
  }

  /** After a restart, every title downloaded in this run is read back from
      the log and so skipped, unless it is blank; titles read back before
      are still read back. */
  lemma RestartSkips(downloaded: set<Option<string>>, log: string, titles: seq<Option<string>>, raises: nat -> bool)
    requires EndsLine(log)
    requires forall i :: 0 <= i < |titles| && titles[i].Some? ==> '\n' !in titles[i].value
    ensures KeptLines(SplitLines(log)) <= KeptLines(SplitLines(RunOf(downloaded, log, titles, raises).log))
    ensures forall i ::
      (0 <= i < |titles| && RunOf(downloaded, log, titles, raises).statuses[i] == Success
       && titles[i].Some? && Strip(titles[i].value) != []) ==>
        titles[i].value in KeptLines(SplitLines(RunOf(downloaded, log, titles, raises).log))
  {
    var r := RunOf(downloaded, log, titles, raises);
    var ts := SuccessTitles(titles, r.statuses);
    RunLog(downloaded, log, titles, raises);
    SuccessTitlesFrom(titles, r.statuses);
    assert OnePerLine(ts) by {
      forall k | 0 <= k < |ts| ensures '\n' !in ts[k] {
        assert ts[k] in ts;
        var i :| 0 <= i < |titles| && titles[i] == Some(ts[k]);
      }
    }
    LoadAfterLines(log, ts);
    forall i | 0 <= i < |titles| && r.statuses[i] == Success && titles[i].Some? && Strip(titles[i].value) != []
      ensures titles[i].value in KeptLines(SplitLines(r.log))
    {
      SuccessTitlesHas(titles, r.statuses, i);
    }
  }

  // ---------------------------------------------------------------- the state

  /** The shared state of the script: `downloaded_songs` and the text of the
      log file. */
  class Downloads {
    var downloaded: set<Option<string>>
    var log: string

    /** Loading the log, or starting empty when there is none. */
    constructor(file: Option<string>)
      ensures file.None? ==> downloaded == {} && log == []
      ensures file.Some? ==> downloaded == (set t | t in KeptLines(SplitLines(file.value)) :: Some(t)) && log == file.value
    {
      if file.Some? {
        downloaded := set t | t in KeptLines(SplitLines(file.value)) :: Some(t);
        log := file.value;
      } else {
        downloaded := {};
        log := [];
      }
    }

    /** `download_video`. */
    method DownloadVideo(video: Video, raises: bool) returns (status: Status)
      modifies this
      ensures (status, downloaded, log) == DownloadStep(old(downloaded), old(log), video.title, raises)
    {
      if video.title in downloaded {
        return Skipped;
      }
      if raises {
        return Failed;
      }
      downloaded := downloaded + {video.title};
      if video.title.None? {
        return Failed;
      }
      log := log + video.title.value + "\n";
      status := Success;
    }

    /** The downloads, one after the other in submission order. */
    method DownloadAll(videos: seq<Video>, raises: nat -> bool) returns (statuses: seq<Status>)
      modifies this
      ensures Run(statuses, downloaded, log) == RunOf(old(downloaded), old(log), TitlesOf(videos), raises)
    {
      statuses := [];
      for i := 0 to |videos|
        invariant Run(statuses, downloaded, log) == RunOf(old(downloaded), old(log), TitlesOf(videos)[..i], raises)
      {
        RunStep(old(downloaded), old(log), TitlesOf(videos), raises, i);
        var status := DownloadVideo(videos[i], raises(i));
        statuses := statuses + [status];
      }
      assert TitlesOf(videos)[..|videos|] == TitlesOf(videos);
    }
  }
}
