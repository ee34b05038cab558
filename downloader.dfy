/**
 * The URLDownloader object: its url and output-path lists, the consecutive
 * error counter, the processed-url counter, the download log and the output
 * files, with the per-item step download_site and a sequential pass over the
 * whole batch in place of the thread pool. The log is a file of the output
 * folder like the others, so an outpath equal to the log's path writes over it.
 */
module Downloader {
  import opened Seqs
  import Ledger
  import ErrorBudget
  import WorkSet
  import Resume

  newtype byte = x: int | 0 <= x < 256

  /**
   * What `session.get(url)` gives one step: a response carrying its content,
   * truthy when `ok` (unless its status is 4xx or 5xx); or an exception.
   */
  datatype Fetch = Response(ok: bool, content: seq<byte>) | Raised

  function MarkOf(f: Fetch): Ledger.Mark
    requires f.Response?
  {
    if f.ok then Ledger.Success else Ledger.Failure
  }

  /** The log entries a pass over `urls` produces: one per fetch that returns. */
  function Attempts(urls: seq<string>, fetch: string -> Fetch): seq<Ledger.Entry> {
    if urls == [] then []
    else
      var n := |urls| - 1;
      var f := fetch(urls[n]);
      Attempts(urls[..n], fetch) + (if f.Raised? then [] else [Ledger.Entry(urls[n], MarkOf(f))])
  }

  function Marks(entries: seq<Ledger.Entry>): seq<Ledger.Mark> {
    seq(|entries|, i requires 0 <= i < |entries| => entries[i].mark)
  }

  /** The text of a file holding `content`, one character per byte. */
  function AsText(content: seq<byte>): string {
    seq(|content|, i requires 0 <= i < |content| => (content[i] as int) as char)
  }

  /**
   * The log after a pass: each fetch that returns appends its line; a truthy
   * response whose outpath is the log's own path first replaces the log by
   * its content.
   */
  function LogAfter(log: string, logPath: string, items: seq<Resume.Item>, fetch: string -> Fetch): string {
    if items == [] then log
    else
      var n := |items| - 1;
      var before := LogAfter(log, logPath, items[..n], fetch);
      var f := fetch(items[n].url);
      if f.Raised? then before
      else (if f.ok && items[n].outpath == logPath then AsText(f.content) else before)
           + Ledger.Line(items[n].url, MarkOf(f))
  }

  /** The other files after a pass: the content of each truthy response, at its path. */
  function Saved(files: map<string, seq<byte>>, logPath: string, items: seq<Resume.Item>, fetch: string -> Fetch)
    : map<string, seq<byte>>
  {
    if items == [] then files
    else
      var n := |items| - 1;
      var before := Saved(files, logPath, items[..n], fetch);
      var f := fetch(items[n].url);
      if f.Response? && f.ok && items[n].outpath != logPath then before[items[n].outpath := f.content] else before
  }

  lemma AttemptsSnoc(urls: seq<string>, i: nat, fetch: string -> Fetch)
    requires i < |urls|
    ensures var f := fetch(urls[i]);
      Attempts(urls[..i + 1], fetch)
      == Attempts(urls[..i], fetch) + (if f.Raised? then [] else [Ledger.Entry(urls[i], MarkOf(f))])
  {
    assert urls[..i + 1][..i] == urls[..i];
  }

  lemma MarksSnoc(entries: seq<Ledger.Entry>, e: Ledger.Entry)
    ensures Marks(entries + [e]) == Marks(entries) + [e.mark]
  {
  }

  lemma ZipSnoc(urls: seq<string>, outpaths: seq<string>, i: nat)
    requires i < |urls| == |outpaths|
    ensures var zipped := Resume.Zip(urls[..i + 1], outpaths[..i + 1]);
      |zipped| == i + 1 && zipped[..i] == Resume.Zip(urls[..i], outpaths[..i])
      && zipped[i] == Resume.Item(urls[i], outpaths[i])
  {
  }

  lemma LogAfterSnoc(log0: string, logPath: string, urls: seq<string>, outpaths: seq<string>, i: nat,
                     fetch: string -> Fetch)
    requires i < |urls| == |outpaths|
    ensures var log := LogAfter(log0, logPath, Resume.Zip(urls[..i], outpaths[..i]), fetch);
      var f := fetch(urls[i]);
      LogAfter(log0, logPath, Resume.Zip(urls[..i + 1], outpaths[..i + 1]), fetch)
      == if f.Raised? then log
         else (if f.ok && outpaths[i] == logPath then AsText(f.content) else log) + Ledger.Line(urls[i], MarkOf(f))
  {
    ZipSnoc(urls, outpaths, i);
  }

  lemma SavedSnoc(files0: map<string, seq<byte>>, logPath: string, urls: seq<string>, outpaths: seq<string>,
                  i: nat, fetch: string -> Fetch)
    requires i < |urls| == |outpaths|
    ensures var saved := Saved(files0, logPath, Resume.Zip(urls[..i], outpaths[..i]), fetch);
      var f := fetch(urls[i]);
      Saved(files0, logPath, Resume.Zip(urls[..i + 1], outpaths[..i + 1]), fetch)
      == if f.Response? && f.ok && outpaths[i] != logPath then saved[outpaths[i] := f.content] else saved
  {
    ZipSnoc(urls, outpaths, i);
  }

  lemma CountersSnoc(c0: int, tolerance: int, urls: seq<string>, i: nat, fetch: string -> Fetch)
    requires i < |urls|
    ensures var before, after := Attempts(urls[..i], fetch), Attempts(urls[..i + 1], fetch);
      var f := fetch(urls[i]);
      && (f.Raised? ==> after == before)
      && (f.Response? ==>
        && |after| == |before| + 1
        && ErrorBudget.After(c0, tolerance, Marks(after))
           == ErrorBudget.Step(ErrorBudget.After(c0, tolerance, Marks(before)), tolerance, MarkOf(f)))
  {
    var before := Attempts(urls[..i], fetch);
    AttemptsSnoc(urls, i, fetch);
    var f := fetch(urls[i]);
    if f.Response? {
      var e := Ledger.Entry(urls[i], MarkOf(f));
      MarksSnoc(before, e);
      ErrorBudget.AfterSnoc(c0, tolerance, Marks(before), e.mark);
    }
  }

  /** When no outpath is the log's path, a pass only appends the lines of its attempts. */
  lemma {:induction false} LogAfterSeparate(log: string, logPath: string, items: seq<Resume.Item>,
                                            fetch: string -> Fetch)
    requires logPath !in Resume.Outpaths(items)
    ensures LogAfter(log, logPath, items, fetch) == log + Ledger.Render(Attempts(Resume.Urls(items), fetch))
    decreases |items|
  {
    if items == [] {
      assert Resume.Urls(items) == [];
      assert log + [] == log;
    } else {
      var n := |items| - 1;
      var urls := Resume.Urls(items);
      assert Resume.Outpaths(items)[n] == items[n].outpath;
      assert Resume.Outpaths(items[..n]) == Resume.Outpaths(items)[..n];
      LogAfterSeparate(log, logPath, items[..n], fetch);
      assert Resume.Urls(items[..n]) == urls[..n];
      AttemptsSnoc(urls, n, fetch);
      assert urls[..n + 1] == urls;
      var before := Attempts(urls[..n], fetch);
      assert urls[n] == items[n].url;
      var f := fetch(items[n].url);
      if f.Raised? {
        assert Attempts(urls, fetch) == before;
        assert LogAfter(log, logPath, items, fetch) == LogAfter(log, logPath, items[..n], fetch);
      } else {
        var e := Ledger.Entry(items[n].url, MarkOf(f));
        var line := Ledger.Line(e.url, e.mark);
        assert Attempts(urls, fetch) == before + [e];
        Ledger.RenderSnoc(before, e);
        Ledger.ConcatAssoc(log, Ledger.Render(before), line);
        calc {
          LogAfter(log, logPath, items, fetch);
          LogAfter(log, logPath, items[..n], fetch) + line;
          (log + Ledger.Render(before)) + line;
          log + (Ledger.Render(before) + line);
          log + Ledger.Render(Attempts(urls, fetch));
        }
      }
    }
  }

  /**
   * A download whose outpath is the log's path wipes the log: after "a" was
   * logged, a truthy response for "b" saved at the log's path leaves a log
   * that counts only "b", so "a" is fetched again on resume.
   */
  lemma OverwrittenLogForgetsEntries(logPath: string, fetch: string -> Fetch)
    requires fetch("b") == Response(true, [])
    ensures Ledger.Downloaded(LogAfter(Ledger.Line("a", Ledger.Success), logPath,
                                       [Resume.Item("b", logPath)], fetch)) == multiset{"b"}
  {
    var items := [Resume.Item("b", logPath)];
    assert items[..0] == [];
    assert AsText([]) == [];
    assert LogAfter(Ledger.Line("a", Ledger.Success), logPath, items, fetch) == [] + Ledger.Line("b", Ledger.Success);
    Ledger.DownloadedAppend([], "b", Ledger.Success);
    assert Ledger.Downloaded([]) == multiset{} by {
      assert Ledger.Translate([]) == [];
      assert Ledger.Lines([]) == [];
    }
  }

  /** A url is logged by a pass exactly when it is in the batch and its fetch returns. */
  lemma {:induction false} AttemptedUrls(urls: seq<string>, fetch: string -> Fetch)
    ensures forall u :: u in Ledger.UrlsOf(Attempts(urls, fetch)) <==> u in urls && !fetch(u).Raised?
    decreases |urls|
  {
    if urls == [] {
      assert Ledger.UrlsOf([]) == [];
    } else {
      var n := |urls| - 1;
      var front := Attempts(urls[..n], fetch);
      AttemptedUrls(urls[..n], fetch);
      assert urls == urls[..n] + [urls[n]];
      var f := fetch(urls[n]);
      if f.Raised? {
        assert Attempts(urls, fetch) == front;
      } else {
        assert Ledger.UrlsOf(Attempts(urls, fetch)) == Ledger.UrlsOf(front) + [urls[n]];
      }
    }
  }

  /**
   * Resuming after a pass over a batch of distinct urls leaves pending exactly
   * the pairs whose fetch raised: a raised fetch is neither logged nor counted.
   */
  lemma RerunKeepsOnlyRaised(items: seq<Resume.Item>, fetch: string -> Fetch)
    requires NoDup(Resume.Urls(items))
    ensures var again := Resume.Pending(items, multiset(Ledger.UrlsOf(Attempts(Resume.Urls(items), fetch))));
      forall u :: u in Resume.Urls(again) <==> u in Resume.Urls(items) && fetch(u).Raised?
  {
    var logged := Ledger.UrlsOf(Attempts(Resume.Urls(items), fetch));
    AttemptedUrls(Resume.Urls(items), fetch);
    Resume.DistinctPendingMembers(items, multiset(logged));
  }

  /** The counter after a pass over urls without tab, newline or carriage return grows by the urls that returned. */
  lemma DownloadedAfterPass(log: string, urls: seq<string>, fetch: string -> Fetch)
    requires Ledger.Terminated(log)
    requires forall u :: u in urls ==> Ledger.Clean(u)
    ensures Ledger.Downloaded(log + Ledger.Render(Attempts(urls, fetch)))
         == Ledger.Downloaded(log) + multiset(Ledger.UrlsOf(Attempts(urls, fetch)))
  {
    var entries := Attempts(urls, fetch);
    AttemptedUrls(urls, fetch);
    forall e | e in entries ensures Ledger.Clean(e.url) {
      var k :| 0 <= k < |entries| && entries[k] == e;
      assert Ledger.UrlsOf(entries)[k] == e.url;
    }
    Ledger.DownloadedAfterRender(log, entries);
  }

  /**
   * Filtering a batch of distinct urls against a log, then again against the
   * log grown by one pass over what was pending, leaves exactly the urls that
   * were unlogged and whose fetch raised.
   */
  lemma RecountAfterPass(items: seq<Resume.Item>, downloaded: multiset<string>, fetch: string -> Fetch)
    requires NoDup(Resume.Urls(items))
    ensures var pending := Resume.Pending(items, downloaded);
      var logged := multiset(Ledger.UrlsOf(Attempts(Resume.Urls(pending), fetch)));
      forall u :: u in Resume.Urls(Resume.Pending(pending, downloaded + logged)) <==>
        u in Resume.Urls(items) && u !in downloaded && fetch(u).Raised?
  {
    var pending := Resume.Pending(items, downloaded);
    var logged := multiset(Ledger.UrlsOf(Attempts(Resume.Urls(pending), fetch)));
    Resume.DistinctPendingMembers(items, downloaded);
    Resume.PendingNoDup(items, downloaded);
    Resume.PendingCompose(pending, downloaded, logged);
    Resume.PendingIdempotent(items, downloaded);
    RerunKeepsOnlyRaised(pending, fetch);
  }

  class UrlDownloader {
    var urlList: seq<string>
    var outpathList: seq<string>
    const errToleranceNum: int
    /** err_cnter: consecutive failures since the last success or cooldown. */
    var errCnter: int
    /** url_cnter: fetches that returned a response. */
    var urlCnter: nat
    /** The path of downloaded.log: out_path joined with that name. */
    const logPath: string
    /** The text of downloaded.log. */
    var log: string
    /** The other files of the output folder, by path. */
    var files: map<string, seq<byte>>

    ghost predicate Valid()
      reads this
    {
      && |urlList| == |outpathList|
      && NoDup(urlList)
      && logPath !in files
      && 0 <= errCnter <= ErrorBudget.Max0(errToleranceNum)
    }

    /**
     * The state at the end of __init__: the built batch, filtered against the
     * log as update_downloading_status does. `log` is the existing log file's
     * text, or "" when __init__ has to create it.
     */
    constructor (batch: WorkSet.Batch, errToleranceNum: int, logPath: string, log: string,
                 files: map<string, seq<byte>>)
      requires |batch.urls| == |batch.outpaths| && NoDup(batch.urls)
      requires logPath !in files
      ensures Valid()
      ensures var pending := Resume.Pending(Resume.Zip(batch.urls, batch.outpaths), Ledger.Downloaded(log));
        urlList == Resume.Urls(pending) && outpathList == Resume.Outpaths(pending)
      ensures this.errToleranceNum == errToleranceNum && errCnter == 0 && urlCnter == 0
      ensures this.logPath == logPath && this.log == log && this.files == files
    {
      this.errToleranceNum, this.logPath := errToleranceNum, logPath;
      urlList, outpathList := batch.urls, batch.outpaths;
      errCnter, urlCnter := 0, 0;
      this.log, this.files := log, files;
      new;
      UpdateDownloadingStatus();
    }

    /** update_downloading_status: drop the pairs the log accounts for, one per log line. */
    method UpdateDownloadingStatus()
      requires Valid()
      modifies this`urlList, this`outpathList
      ensures Valid()
      ensures var pending := Resume.Pending(Resume.Zip(old(urlList), old(outpathList)), Ledger.Downloaded(log));
        urlList == Resume.Urls(pending) && outpathList == Resume.Outpaths(pending)
    {
      var downloaded := Ledger.Downloaded(log);
      var keptUrls, keptPaths := Resume.FilterPending(urlList, outpathList, downloaded);
      Resume.UnzipZip(urlList, outpathList);
      Resume.PendingNoDup(Resume.Zip(urlList, outpathList), downloaded);
      Resume.ZipUnzip(Resume.Pending(Resume.Zip(urlList, outpathList), downloaded));
      urlList, outpathList := keptUrls, keptPaths;
    }

    /** get_num_urls_needed: filter again against the current log and count what is left. */
    method GetNumUrlsNeeded() returns (n: nat)
      requires Valid()
      modifies this`urlList, this`outpathList
      ensures Valid()
      ensures var pending := Resume.Pending(Resume.Zip(old(urlList), old(outpathList)), Ledger.Downloaded(log));
        urlList == Resume.Urls(pending) && outpathList == Resume.Outpaths(pending)
      ensures n == |urlList|
    {
      UpdateDownloadingStatus();
      n := |urlList|;
    }

    /**
     * download_site for one pair, with the fetch given as its outcome.
     * `cooldown` says whether the failure branch slept (the breaker tripped).
     */
    method DownloadSite(url: string, outpath: string, fetch: Fetch) returns (cooldown: bool)
      requires Valid()
      modifies this`errCnter, this`urlCnter, this`log, this`files
      ensures Valid()
      ensures cooldown <==> fetch.Response? && !fetch.ok && ErrorBudget.Trips(old(errCnter), errToleranceNum)
      ensures fetch.Raised? ==>
        log == old(log) && files == old(files) && errCnter == old(errCnter) && urlCnter == old(urlCnter)
      ensures fetch.Response? ==>
        && urlCnter == old(urlCnter) + 1
        && log == (if fetch.ok && outpath == logPath then AsText(fetch.content) else old(log))
                  + Ledger.Line(url, MarkOf(fetch))
        && errCnter == ErrorBudget.Step(old(errCnter), errToleranceNum, MarkOf(fetch))
        && files == (if fetch.ok && outpath != logPath then old(files)[outpath := fetch.content] else old(files))
    {
      cooldown := false;
      if fetch.Raised? {
        return;
      }
      if fetch.ok {
        urlCnter := urlCnter + 1;
        if outpath == logPath {
          log := AsText(fetch.content);
        } else {
          files := files[outpath := fetch.content];
        }
        log := log + Ledger.Line(url, Ledger.Success);
        errCnter := 0;
      } else {
        urlCnter := urlCnter + 1;
        if errCnter >= errToleranceNum {
          cooldown := true;
          errCnter := 0;
        } else {
          errCnter := errCnter + 1;
        }
        log := log + Ledger.Line(url, Ledger.Failure);
      }
    }

    /**
     * download_all_sites with the thread pool replaced by one pass over the
     * pairs in order; an exception in one step ends that step only.
     */
    method DownloadAllSites(fetch: string -> Fetch)
      requires Valid()
      modifies this`errCnter, this`urlCnter, this`log, this`files
      ensures Valid()
      ensures log == LogAfter(old(log), logPath, Resume.Zip(urlList, outpathList), fetch)
      ensures logPath !in outpathList ==> log == old(log) + Ledger.Render(Attempts(urlList, fetch))
      ensures urlCnter == old(urlCnter) + |Attempts(urlList, fetch)|
      ensures errCnter == ErrorBudget.After(old(errCnter), errToleranceNum, Marks(Attempts(urlList, fetch)))
      ensures files == Saved(old(files), logPath, Resume.Zip(urlList, outpathList), fetch)
    {
      var i := 0;
      while i < |urlList|
        invariant 0 <= i <= |urlList| && Valid()
        invariant log == LogAfter(old(log), logPath, Resume.Zip(urlList[..i], outpathList[..i]), fetch)
        invariant urlCnter == old(urlCnter) + |Attempts(urlList[..i], fetch)|
        invariant errCnter == ErrorBudget.After(old(errCnter), errToleranceNum, Marks(Attempts(urlList[..i], fetch)))
        invariant files == Saved(old(files), logPath, Resume.Zip(urlList[..i], outpathList[..i]), fetch)
      {
        var url, outpath := urlList[i], outpathList[i];
        LogAfterSnoc(old(log), logPath, urlList, outpathList, i, fetch);
        SavedSnoc(old(files), logPath, urlList, outpathList, i, fetch);
        CountersSnoc(old(errCnter), errToleranceNum, urlList, i, fetch);
        var _ := DownloadSite(url, outpath, fetch(url));
        assert log == LogAfter(old(log), logPath, Resume.Zip(urlList[..i + 1], outpathList[..i + 1]), fetch);
        assert urlCnter == old(urlCnter) + |Attempts(urlList[..i + 1], fetch)|;
        assert errCnter == ErrorBudget.After(old(errCnter), errToleranceNum, Marks(Attempts(urlList[..i + 1], fetch)));
        assert files == Saved(old(files), logPath, Resume.Zip(urlList[..i + 1], outpathList[..i + 1]), fetch);
        i := i + 1;
      }
      assert urlList[..i] == urlList && outpathList[..i] == outpathList;
      if logPath !in outpathList {
        Resume.UnzipZip(urlList, outpathList);
        LogAfterSeparate(old(log), logPath, Resume.Zip(urlList, outpathList), fetch);
      }
    }
  }

  /**
   * __init__ as a whole: build the batch, or fail with the AssertionError of
   * unequal lengths, then filter the batch against the log. `files` is the
   * output folder; the log's entry in it is held as the text `log`.
   */
  method Create(urls: seq<string>, outnames: seq<string>, outPath: string,
                outpathFromUrl: string -> string, errToleranceNum: int,
                log: string, files: map<string, seq<byte>>)
    returns (d: UrlDownloader?)
    ensures d == null <==> WorkSet.Build(urls, outnames, outPath, outpathFromUrl).LengthMismatch?
    ensures d != null ==> fresh(d) && d.Valid()
    ensures d != null ==>
      var batch := WorkSet.Build(urls, outnames, outPath, outpathFromUrl).batch;
      var pending := Resume.Pending(Resume.Zip(batch.urls, batch.outpaths), Ledger.Downloaded(log));
      d.urlList == Resume.Urls(pending) && d.outpathList == Resume.Outpaths(pending)
    ensures d != null ==>
      && d.errToleranceNum == errToleranceNum && d.errCnter == 0 && d.urlCnter == 0
      && d.logPath == WorkSet.Join(outPath, "downloaded.log")
      && d.log == log && d.files == files - {d.logPath}
  {
    var r := WorkSet.Build(urls, outnames, outPath, outpathFromUrl);
    if r.LengthMismatch? {
      return null;
    }
    var logPath := WorkSet.Join(outPath, "downloaded.log");
    d := new UrlDownloader(r.batch, errToleranceNum, logPath, log, files - {logPath});
  }

  /**
   * Filter against the log, run a pass, and count again. The new state is the
   * pass over the pending pairs, and the lists are those pairs filtered again
   * against the new log. When no outpath string is the log's path, what is
   * left is exactly the urls that were pending and unlogged and whose fetch
   * raised, so with no exception nothing is left.
   */
  method DownloadAndRecount(d: UrlDownloader, fetch: string -> Fetch) returns (remaining: nat)
    requires d.Valid() && Ledger.Terminated(d.log)
    requires forall u :: u in d.urlList ==> Ledger.Clean(u)
    modifies d
    ensures d.Valid()
    ensures var pending := Resume.Pending(old(Resume.Zip(d.urlList, d.outpathList)), old(Ledger.Downloaded(d.log)));
      var attempts := Attempts(Resume.Urls(pending), fetch);
      && d.log == LogAfter(old(d.log), d.logPath, pending, fetch)
      && d.files == Saved(old(d.files), d.logPath, pending, fetch)
      && d.urlCnter == old(d.urlCnter) + |attempts|
      && d.errCnter == ErrorBudget.After(old(d.errCnter), d.errToleranceNum, Marks(attempts))
      && d.urlList == Resume.Urls(Resume.Pending(pending, Ledger.Downloaded(d.log)))
      && d.outpathList == Resume.Outpaths(Resume.Pending(pending, Ledger.Downloaded(d.log)))
    ensures remaining == |d.urlList|
    ensures d.logPath !in old(d.outpathList) ==>
      forall u :: u in d.urlList <==>
        u in old(d.urlList) && u !in Ledger.Downloaded(old(d.log)) && fetch(u).Raised?
  {
    ghost var items0 := Resume.Zip(d.urlList, d.outpathList);
    ghost var d0 := Ledger.Downloaded(d.log);
    ghost var log0 := d.log;
    ghost var paths0 := d.outpathList;
    Resume.UnzipZip(d.urlList, d.outpathList);
    d.UpdateDownloadingStatus();
    ghost var pending := Resume.Pending(items0, d0);
    ghost var urls1, paths1 := d.urlList, d.outpathList;
    Resume.ZipUnzip(pending);
    ghost var separate := d.logPath !in paths0;
    if separate {
      Resume.DistinctPendingMembers(items0, d0);
      if d.logPath in paths1 {
        Resume.PendingOutpathsFromInput(items0, d0, d.logPath);
      }
    }

    d.DownloadAllSites(fetch);
    ghost var logged := multiset(Ledger.UrlsOf(Attempts(urls1, fetch)));
    if separate {
      DownloadedAfterPass(log0, urls1, fetch);
    }

    remaining := d.GetNumUrlsNeeded();
    if separate {
      RecountAfterPass(items0, d0, fetch);
      assert d.urlList == Resume.Urls(Resume.Pending(pending, d0 + logged));
    }
  }
}
