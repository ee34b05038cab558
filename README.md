# URLDownloader: resumable batch download, modelled in Dafny

This project models the core of `URLDownloader` in `url_downloader.py`. It
proves properties of four parts of that class:

- **Batch construction** (`__init__`). With explicit output names, the
  (url, name) pairs go through a dict. Each url is kept once, in the order of
  its first occurrence, with the name of its last occurrence. Without names,
  the urls go through a set and each output path is derived from its url.
- **Resume filtering** (`update_downloading_status`, `get_num_urls_needed`).
  The first tab-separated field of every log line is counted into a Counter.
  The (url, outpath) pairs are walked in order: a pair is dropped, using up
  one count, while its url still has a positive count; otherwise it is kept.
- **The log format**. Each attempt appends one line `url<TAB>o` or `url<TAB>x`.
  On resume the file is read back line by line and split at the first tab.
- **The per-item step** (`download_site`). A truthy response writes the file,
  appends an `o` line and resets the consecutive-error counter. A falsy
  response checks the counter against the tolerance before counting it: it
  either cools down and resets the counter, or increments it. It then appends
  an `x` line. An exception from the fetch ends the step and changes nothing.

Modules follow these parts:

- `Seqs` (`seqs.dfy`): first and last index, no duplicates, subsequence.
- `Ledger` (`ledger.dfy`): log lines, Python's text-mode reading (universal
  newlines turn `\r\n` and a lone `\r` into `\n`), its line iteration,
  `split('\t')[0]`, the Counter as a multiset, and the log round trip.
- `WorkSet` (`workset.dfy`): `posixpath.join`, the dict of pairs, the set of
  urls, and the batch `__init__` builds.
- `Resume` (`resume.dfy`): the resume filter as a loop, its specification
  `Pending`, and the lemmas about that specification.
- `ErrorBudget` (`error_budget.dfy`): the consecutive-error counter and its
  breaker.
- `Downloader` (`downloader.dfy`): the class `UrlDownloader` with its fields
  and methods, and a sequential pass over a batch.

The fetch is a parameter `fetch: string -> Fetch`. It gives each url either
a `Response(ok, content)` or `Raised`, an exception. The output folder's
files other than the log are a map from path to bytes. The log file is its
text, at the path `out_path` joined with `downloaded.log`. A download whose
outpath is that same path string writes over the log. Paths are compared as
strings (see "## Left out").

Notable behaviour of the code:

- Explicit output names do deduplicate the urls, through the dict (lines
  105-109). A url listed twice with two names gives one pair, with the
  second name (`WorkSet.ExplicitNamesCollapseDuplicates`).
- The breaker compares the counter with the tolerance before incrementing
  it (lines 231-236). With tolerance k >= 0, the first k consecutive failures
  count up and the (k + 1)-th cools down
  (`ErrorBudget.CooldownOnFailureAfterTolerance`).
- A failed attempt's `x` line counts on resume exactly like an `o` line
  (line 153). A failed url is therefore not retried by a later run.
- An exception raised by the fetch writes no log line and no file, and
  touches no counter (line 211). The thread pool's `map` result is never
  consumed, so the exception is dropped (line 252).
- The log sits in the output folder (line 125). A batch item whose outpath
  names that file truncates the log when its truthy response is saved
  (lines 218-219), and only then is its own line appended. The earlier
  entries are lost, so a later run fetches them again
  (`Downloader.OverwrittenLogForgetsEntries`). The model recognises such an
  outpath only when it is the same path string as the log's.
- The log is read in text mode (line 152), so a `\r` inside a url splits its
  line in two on reading, and that url is never counted
  (`Ledger.CarriageReturnSplitsLine`).

## Model

| member | source | states |
|---|---|---|
| Seqs.FirstIndex | url_downloader.py:107-108 | the index of a value's first occurrence: it holds that value and no earlier index does (the key order of a dict built from pairs) |
| Seqs.LastIndex | url_downloader.py:107 | the index of a value's last occurrence: it holds that value and no later index does (the value a dict keeps for a repeated key) |
| WorkSet.Join | url_downloader.py:113 | posixpath.join of two parts: an absolute name replaces the folder; otherwise the result is the folder, then exactly one `/` when the folder is non-empty and does not end in `/` (nothing otherwise), then the name |
| WorkSet.Put | url_downloader.py:107 | `d[k] = v` on a dict: a new key goes to the end of the key order, an existing key keeps its place, and the key now maps to v |
| WorkSet.FromPairs | url_downloader.py:107 | the dict comprehension over zip(urls, names), computed as one `Put` per pair in order |
| WorkSet.FromPairsKeys | url_downloader.py:107-108 | the dict built from the pairs has each url once as a key, and its keys and its domain are exactly the input urls |
| WorkSet.FromPairsValues | url_downloader.py:107-109 | every url maps to the name paired with its last occurrence |
| WorkSet.FromPairsOrder | url_downloader.py:107-108 | the dict's keys are ordered by the position of each url's first occurrence |
| WorkSet.Distinct | url_downloader.py:111 | list(set(urls)) holds each input url exactly once and nothing else |
| WorkSet.Build | url_downloader.py:104-116 | the AssertionError of unequal lengths happens exactly when names are given and the lengths differ; otherwise the urls are distinct, are exactly the input urls, and pair one-for-one with outpaths; with names, each outpath joins the folder with the url's last name and the urls keep first-occurrence order; without names, each outpath is derived from its url |
| WorkSet.ExplicitNamesCollapseDuplicates | url_downloader.py:105-109 | ["a", "a"] named ["f1", "f2"] under "out" builds the single pair ("a", "out/f2") |
| Ledger.Line | url_downloader.py:222 | the text one attempt appends: the url, a tab, `o` for a truthy response or `x` otherwise (line 239), and a newline |
| Ledger.Translate | url_downloader.py:152 | text-mode reading with universal newlines: the result holds no `\r`, and text without `\r` reads back unchanged |
| Ledger.Lines | url_downloader.py:153 | `for line in f`: the text split after each newline, every line keeping its newline, the last one possibly without |
| Ledger.Downloaded | url_downloader.py:152-153 | the Counter of the first fields of the lines of the log as read in text mode |
| Ledger.Render | url_downloader.py:222 | the text that a sequence of attempts appends to the log, their lines in order (also line 239) |
| Ledger.TranslateAppend | url_downloader.py:152 | reading two texts joined is reading each, unless the first ends in `\r` |
| Ledger.TranslateTerminated | url_downloader.py:152 | a log whose last line is complete still is after text-mode reading |
| Ledger.TranslateLoneCarriageReturn | url_downloader.py:152 | a lone `\r` between pieces without one reads back as `\n` |
| Ledger.CarriageReturnSplitsLine | url_downloader.py:152-153 | the line written for the url "a\rb" is read back as two lines, so the Counter gains "a\n" and "b" and never the url |
| Ledger.FirstLineLength | url_downloader.py:153 | one step of iterating a text file consumes a non-empty prefix ending at its first newline, or the whole rest of the text when no newline is left |
| Ledger.FirstField | url_downloader.py:153 | line.split('\t')[0] is a prefix of the line without a tab, followed by a tab unless it is the whole line |
| Ledger.LineRoundTrip | url_downloader.py:153 | for a url without tab, newline or carriage return, a line as written at lines 222 and 239 reads back as one line whose first field is the url, with the mark `o` or `x` right after the tab |
| Ledger.LinesAppend | url_downloader.py:153 | appending text to a log whose last line is complete leaves the existing lines as they are and adds the lines of the text |
| Ledger.AppendOneLine | url_downloader.py:221-222 | appending one attempt's line (here or at lines 238-239) to a complete log keeps the log complete and adds exactly that line |
| Ledger.DownloadedAppend | url_downloader.py:153 | appending one attempt's line (lines 222 and 239) adds one count of its url to the resume Counter and changes no other count |
| Ledger.DownloadedAfterRender | url_downloader.py:153 | after appending the lines (lines 222 and 239) of a sequence of attempts, the resume Counter has grown by exactly the multiset of their urls |
| Ledger.UnterminatedLogLosesNextEntry | url_downloader.py:153 | if the log ends in an incomplete line "a<TAB>", the line appended for "b" joins it and "b" is never counted |
| Resume.Zip | url_downloader.py:154 | Python's zip: the pairs of the two lists, stopping at the shorter one |
| Resume.Pending | url_downloader.py:154-160 | the pairs the loop keeps: a pair whose url still has a positive count is dropped and uses up one count, any other pair is kept |
| Resume.PendingOutpathsFromInput | url_downloader.py:154-163 | every outpath the filter keeps was in the input |
| Resume.FilterPending | url_downloader.py:151-163 | the loop of update_downloading_status returns the urls and outpaths of Pending applied to the zipped pairs and the Counter |
| Resume.PendingIsSubsequence | url_downloader.py:154-160 | the kept pairs are the input pairs with some removed, in their original order |
| Resume.PendingCount | url_downloader.py:153-160 | filtering is one-for-one: of each url the kept pairs hold the input's count minus the log's count, or none when the log holds more |
| Resume.PendingNoDup | url_downloader.py:154-163 | filtering a batch of distinct urls keeps them distinct |
| Resume.PendingCompose | url_downloader.py:153-160 | filtering against one log and then against further entries drops the same pairs as filtering against both at once (a later call at line 175 after more lines were logged) |
| Resume.DistinctPendingMembers | url_downloader.py:154-160 | with distinct urls, a pair (and its url) stays pending exactly when it was in the batch and its url is absent from the log |
| Resume.PendingOfDistinct | url_downloader.py:154-160 | with distinct urls, the one-for-one filter equals the presence-only filter |
| Resume.PendingIdempotent | url_downloader.py:175 | with distinct urls, re-running the filter against the same log, as get_num_urls_needed does, changes nothing |
| Resume.PendingNotIdempotentWithDuplicates | url_downloader.py:154-160 | with the url "a" listed twice and logged once, one filter keeps the second pair and a second filter drops it |
| ErrorBudget.Step | url_downloader.py:223-236 | the counter after one attempt: 0 after a truthy response; after a falsy one, 0 when the counter has reached the tolerance (the cooldown) and one more otherwise |
| ErrorBudget.After | url_downloader.py:223-236 | the counter after a run of attempts, one `Step` per attempt in order |
| ErrorBudget.StepBounded | url_downloader.py:223-236 | one attempt keeps the counter between 0 and the tolerance (0 when the tolerance is negative) |
| ErrorBudget.AfterBounded | url_downloader.py:223-236 | any run of attempts keeps the counter between 0 and the tolerance (0 when the tolerance is negative) |
| ErrorBudget.AfterAppend | url_downloader.py:223-236 | the counter after run a + b is the counter after b started from the counter after a |
| ErrorBudget.SuccessRestarts | url_downloader.py:223-224 | after a success anywhere in a run, the counter is what the rest of the run gives from 0 |
| ErrorBudget.FailureStreak | url_downloader.py:231-236 | from 0 with tolerance k, each of the first k consecutive failures counts one more error and none cools down |
| ErrorBudget.CooldownOnFailureAfterTolerance | url_downloader.py:231-233 | from 0 with tolerance k >= 0, the (k + 1)-th consecutive failure is the first to cool down, and it leaves the counter at 0 |
| ErrorBudget.FailureCycle | url_downloader.py:231-236 | after the cooldown the pattern repeats with period k + 1 |
| ErrorBudget.NonPositiveToleranceAlwaysTrips | url_downloader.py:231-233 | with a tolerance of 0 or less, every failure cools down and the counter stays 0 |
| Downloader.Attempts | url_downloader.py:211-239 | the log entries of a pass over the urls in order: one per fetch that returns, with `o` for a truthy response and `x` otherwise |
| Downloader.AsText | url_downloader.py:218-219 | the log's text after a response's content is written over it |
| Downloader.LogAfter | url_downloader.py:218-239 | the log after a pass: each fetch that returns appends its line, after first replacing the log by the content when a truthy response's outpath is the log's own path |
| Downloader.Saved | url_downloader.py:218-219 | the other files after a pass: the content of each truthy response at its outpath, in order |
| Downloader.LogAfterSnoc | url_downloader.py:211-239 | one more pair leaves the log as it was when its fetch raises, and otherwise appends its line, after replacing the log by the content when a truthy response is saved at the log's path |
| Downloader.SavedSnoc | url_downloader.py:218-219 | one more pair writes its content only when its response is truthy and its outpath is not the log's |
| Downloader.CountersSnoc | url_downloader.py:214-236 | one more pair adds nothing when its fetch raises, and otherwise one processed url and one step of the error counter |
| Downloader.LogAfterSeparate | url_downloader.py:218-239 | when no outpath is the log's path, a pass only appends the lines of its attempts to the old log |
| Downloader.OverwrittenLogForgetsEntries | url_downloader.py:218-222 | after "a" was logged, a truthy response for "b" saved at the log's path leaves a log whose Counter holds only "b" |
| Downloader.DownloadedAfterPass | url_downloader.py:153 | after a pass over urls without tab, newline or carriage return, the Counter has grown by exactly the urls whose fetch returned |
| Downloader.RecountAfterPass | url_downloader.py:154-160 | filtering distinct urls against a log, then again against that log grown by one pass over what was pending, leaves exactly the unlogged urls whose fetch raised |
| Downloader.UrlDownloader.constructor | url_downloader.py:116-137 | the object holds the built batch filtered against the existing log, both counters at 0, and the given tolerance, log path, log and other files |
| Downloader.UrlDownloader.UpdateDownloadingStatus | url_downloader.py:139-163 | the lists become the urls and outpaths of the pending pairs for the current log; the batch stays distinct and of equal lengths |
| Downloader.UrlDownloader.GetNumUrlsNeeded | url_downloader.py:165-176 | filters again against the current log and returns the number of urls left |
| Downloader.UrlDownloader.DownloadSite | url_downloader.py:211-239 | an exception changes nothing; a response counts one processed url and appends its line; a truthy one writes the content at the outpath (replacing the log when that is the log's path string) and resets the counter; a falsy one writes no file and cools down (reporting it) exactly when the counter has reached the tolerance, else counts the error |
| Downloader.UrlDownloader.DownloadAllSites | url_downloader.py:241-252 | one pass over the batch in order leaves the log, the counters and the files as `LogAfter`, `Attempts`, `After` and `Saved` give; when no outpath is the log's path, the log is the old log followed by the lines of the attempts that returned |
| Downloader.AttemptedUrls | url_downloader.py:211-239 | a url is logged by a pass exactly when it is in the batch and its fetch does not raise |
| Downloader.RerunKeepsOnlyRaised | url_downloader.py:154-160 | resuming after a pass over distinct urls leaves exactly the urls whose fetch raised at line 211 |
| Downloader.Create | url_downloader.py:104-137 | __init__ fails exactly when names are given with the wrong length; otherwise it gives a fresh, valid object over the batch filtered against the log, whose log path is the output folder joined with `downloaded.log` (line 125) |
| Downloader.DownloadAndRecount | url_downloader.py:137-252 | after filtering, one pass over the pending pairs and a recount, the log, files and counters are as `LogAfter`, `Saved`, `Attempts` and `After` give for those pairs, and the lists are those pairs filtered again against the new log; when no outpath string is the log's path, a url is left exactly when it was pending, absent from the log, and its fetch raised |

## Left out

- The HTTP transport (`get_session`, thread-local sessions, headers, `timeout`) is not modelled. The fetch is the parameter `fetch: string -> Fetch`, and a response's truthiness is its `ok` field.
- The thread pool, the locks and their interleavings are not modelled. `DownloadAllSites` is one sequential pass in list order. Because of this, the unlocked `url_cnter += 1` race and any interleaving of log lines from different threads are not captured.
- `time.sleep(stop_interval)` is reduced to the `cooldown` result of `DownloadSite`. The three configuration values it and the fetch use (`stop_interval`, `time_out_for_GET`, `http_headers`) are not fields of the model.
- Downloader.UrlDownloader.DownloadAllSites: `num_thread` is not modelled. It is the pool's `max_workers` (line 251), and a value below 1 makes `ThreadPoolExecutor` raise ValueError before any `download_site` runs; the model always runs the pass.
- Progress output is not modelled: the `o`/`x` characters on stderr, the `% 1000` milestone messages and the cooldown message.
- `get_outpath_from_url`, `remove_query_from_url` and `is_url_image` are not modelled. They are URL parsing; `Build` takes the first as the parameter `outpathFromUrl`.
- Creating the output folder and the empty log file (lines 129-134) is not modelled: a log that does not exist yet is the empty text.
- File I/O errors are not modelled. Writing a file is a map update, and appending to the log is string concatenation.
- The demo under `if __name__ == "__main__"` is not modelled.
- WorkSet.Distinct: the model fixes the order of `list(set(urls))` to first occurrence. Python's order is unspecified, so `Build`'s contract promises only distinct urls, the same urls, and the derived outpaths, not an order.
- WorkSet.Build: an empty `outnames` stands for both `None` and `[]`, which `if outname_list:` treats alike.
- Ledger.DownloadedAfterRender: proved for a log whose last line is complete and urls without tab, newline or carriage return. `Ledger.UnterminatedLogLosesNextEntry` and `Ledger.CarriageReturnSplitsLine` show what happens otherwise.
- Downloader.DownloadAndRecount: requires the log to be complete and the urls to have no tab, newline or carriage return, for the same reason. Its promise about the urls left is stated only when no outpath is the same path string as the log's, because otherwise the log is overwritten (`Downloader.OverwrittenLogForgetsEntries`). Since paths are compared as strings, that promise also fails for the code when an outpath is a different string naming the log file.
- Downloader.UrlDownloader.DownloadSite: paths are compared as strings. Two different strings that name one file (through `.` or `..` components, symlinks, or a case-insensitive file system) are not recognised as one path, neither for the log nor for the entries of `files`. An outpath such as `out/./downloaded.log` therefore appends to the model's log where the code at lines 218-219 truncates the log file first.
- Downloader.AsText: a file written over the log is read back one character per byte. Python decodes it with the locale's encoding, which may differ for bytes above 127 or raise UnicodeDecodeError; that decoding is not modelled.
- Ledger.Line: written in text mode on a POSIX system, where `\n` is written as it is. Newline translation on writing, as on Windows, is not modelled.
- The `assert` of line 106 is modelled as the error result `LengthMismatch`. Running Python with `-O`, which skips the assert, is not modelled.
