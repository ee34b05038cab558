/**
 * The download log `downloaded.log`: one line per fetch attempt, written as
 * `url<TAB>mark<NEWLINE>` with mark `o` (success) or `x` (failure), and read back
 * on resume by iterating the file line by line and keeping the text before the
 * first tab of each line. The file is read in text mode, so universal
 * newlines turn "\r\n" and a lone "\r" into "\n" before the lines are split.
 */
module Ledger {

  /** The outcome of one attempt, as recorded in the log. */
  datatype Mark = Success | Failure

  /** One attempt: the url and its outcome. */
  datatype Entry = Entry(url: string, mark: Mark)

  function MarkChar(m: Mark): char {
    match m
    case Success => 'o'
    case Failure => 'x'
  }

  /** The line appended to the log for one attempt. */
  function Line(url: string, m: Mark): string {
    url + "\t" + [MarkChar(m)] + "\n"
  }

  /** A url that the line format can carry unambiguously. */
  predicate Clean(url: string) {
    '\t' !in url && '\n' !in url && '\r' !in url
  }

  /** An empty log, or one whose last line is complete. */
  predicate Terminated(log: string) {
    log == [] || log[|log| - 1] == '\n'
  }

  /**
   * Length of the first line of `text`, its newline included: what one step of
   * iterating over a text file consumes.
   */
  function FirstLineLength(text: string): (n: nat)
    ensures text == [] <==> n == 0
    ensures n <= |text|
    ensures n > 0 ==> '\n' !in text[..n - 1] && (text[n - 1] == '\n' || n == |text|)
  {
    if text == [] then 0
    else if text[0] == '\n' then 1
    else
      var m := FirstLineLength(text[1..]);
      assert m > 0 ==> text[..m] == [text[0]] + text[1..][..m - 1];
      1 + m
  }

  /** The lines of a text file, each with its newline; the last may lack one. */
  function Lines(text: string): seq<string>
    decreases |text|
  {
    if text == [] then []
    else
      var n := FirstLineLength(text);
      [text[..n]] + Lines(text[n..])
  }

  /**
   * What reading a file in text mode gives: universal newlines turn each
   * "\r\n" and each lone "\r" into "\n".
   */
  function Translate(text: string): (r: string)
    ensures '\r' !in r
    ensures '\r' !in text ==> r == text
    decreases |text|
  {
    if text == [] then []
    else if text[0] == '\r' then
      "\n" + Translate(if |text| > 1 && text[1] == '\n' then text[2..] else text[1..])
    else
      assert text == [text[0]] + text[1..];
      [text[0]] + Translate(text[1..])
  }

  /** `line.split('\t')[0]`: the text before the first tab, or the whole line. */
  function FirstField(line: string): (f: string)
    ensures f <= line && '\t' !in f
    ensures |f| < |line| ==> line[|f|] == '\t'
  {
    if line == [] || line[0] == '\t' then []
    else [line[0]] + FirstField(line[1..])
  }

  function FirstFields(lines: seq<string>): seq<string> {
    seq(|lines|, i requires 0 <= i < |lines| => FirstField(lines[i]))
  }

  /**
   * The counter update_downloading_status builds from the log: how many lines
   * begin with each url.
   */
  function Downloaded(log: string): multiset<string> {
    multiset(FirstFields(Lines(Translate(log))))
  }

  /** The text of a log holding exactly `entries`, in order. */
  function Render(entries: seq<Entry>): string {
    if entries == [] then []
    else
      var n := |entries| - 1;
      Render(entries[..n]) + Line(entries[n].url, entries[n].mark)
  }

  function UrlsOf(entries: seq<Entry>): seq<string> {
    seq(|entries|, i requires 0 <= i < |entries| => entries[i].url)
  }

  lemma ConcatAssoc<T>(a: seq<T>, b: seq<T>, c: seq<T>)
    ensures a + (b + c) == (a + b) + c
  {
  }

  lemma UrlsOfSnoc(entries: seq<Entry>, e: Entry)
    ensures UrlsOf(entries + [e]) == UrlsOf(entries) + [e.url]
  {
  }

  lemma RenderSnoc(entries: seq<Entry>, e: Entry)
    ensures Render(entries + [e]) == Render(entries) + Line(e.url, e.mark)
  {
    assert (entries + [e])[..|entries|] == entries;
  }

  lemma LastSplit<T>(s: seq<T>)
    requires s != []
    ensures s == s[..|s| - 1] + [s[|s| - 1]]
  {
  }

  lemma SliceConcat<T>(a: seq<T>, b: seq<T>, n: nat)
    requires n <= |a|
    ensures (a + b)[..n] == a[..n] && (a + b)[n..] == a[n..] + b
  {
  }

  /** Translation works piece by piece unless a "\r" at the end of `a` meets a "\n" at the start of `b`. */
  lemma {:induction false} TranslateAppend(a: string, b: string)
    requires a == [] || a[|a| - 1] != '\r'
    ensures Translate(a + b) == Translate(a) + Translate(b)
    decreases |a|
  {
    if a == [] {
      assert a + b == b;
    } else {
      var k := if a[0] == '\r' && a[1] == '\n' then 2 else 1;
      SliceConcat(a, b, k);
      TranslateAppend(a[k..], b);
      var head: string := if a[0] == '\r' then "\n" else [a[0]];
      ConcatAssoc(head, Translate(a[k..]), Translate(b));
    }
  }

  /** A log whose last line is complete still is after translation. */
  lemma {:induction false} TranslateTerminated(a: string)
    requires Terminated(a)
    ensures Terminated(Translate(a))
    decreases |a|
  {
    if a != [] {
      var k := if a[0] == '\r' && a[1] == '\n' then 2 else 1;
      var rest := a[k..];
      assert Terminated(rest) by {
        if rest != [] { assert rest[|rest| - 1] == a[|a| - 1]; }
      }
      TranslateTerminated(rest);
    }
  }

  lemma {:induction false} FirstLineOfPrefix(s: string, t: string)
    requires '\n' !in s
    ensures FirstLineLength(s + ['\n'] + t) == |s| + 1
    decreases |s|
  {
    if s != [] {
      assert (s + ['\n'] + t)[1..] == s[1..] + ['\n'] + t;
      FirstLineOfPrefix(s[1..], t);
    }
  }

  lemma {:induction false} FirstFieldOfPrefix(s: string, t: string)
    requires '\t' !in s
    ensures FirstField(s + ['\t'] + t) == s
    decreases |s|
  {
    if s != [] {
      assert (s + ['\t'] + t)[1..] == s[1..] + ['\t'] + t;
      FirstFieldOfPrefix(s[1..], t);
    }
  }

  /** Log round trip for one line: it is read back as one line whose first field is the url. */
  lemma LineRoundTrip(url: string, m: Mark)
    requires Clean(url)
    ensures Lines(Line(url, m)) == [Line(url, m)]
    ensures FirstField(Line(url, m)) == url
    ensures Line(url, m)[|url| + 1] == (if m == Success then 'o' else 'x')
  {
    var line := Line(url, m);
    var body := url + "\t" + [MarkChar(m)];
    assert line == body + ['\n'] + [];
    FirstLineOfPrefix(body, []);
    assert line[..|line|] == line && line[|line|..] == [];
    assert line == url + ['\t'] + ([MarkChar(m)] + "\n");
    FirstFieldOfPrefix(url, [MarkChar(m)] + "\n");
  }

  lemma {:induction false} FirstLineOfExtension(a: string, b: string)
    requires a != [] && a[FirstLineLength(a) - 1] == '\n'
    ensures FirstLineLength(a + b) == FirstLineLength(a)
    decreases |a|
  {
    if a[0] != '\n' {
      assert (a + b)[1..] == a[1..] + b;
      FirstLineOfExtension(a[1..], b);
    }
  }

  /** Appending to a log whose last line is complete only adds lines. */
  lemma {:induction false} LinesAppend(a: string, b: string)
    requires Terminated(a)
    ensures Lines(a + b) == Lines(a) + Lines(b)
    decreases |a|
  {
    if a == [] {
      assert a + b == b;
    } else {
      var n := FirstLineLength(a);
      FirstLineOfExtension(a, b);
      SliceConcat(a, b, n);
      var rest := a[n..];
      assert Terminated(rest) by {
        if rest != [] { assert rest[|rest| - 1] == a[|a| - 1]; }
      }
      LinesAppend(rest, b);
      calc {
        Lines(a + b);
        [(a + b)[..n]] + Lines((a + b)[n..]);
        [a[..n]] + Lines(rest + b);
        [a[..n]] + (Lines(rest) + Lines(b));
        { ConcatAssoc([a[..n]], Lines(rest), Lines(b)); }
        ([a[..n]] + Lines(rest)) + Lines(b);
      }
    }
  }

  /**
   * Appending the line of one attempt to a log whose last line is complete
   * adds exactly that line and leaves the earlier ones as they were.
   */
  lemma AppendOneLine(log: string, url: string, m: Mark)
    requires Terminated(log) && Clean(url)
    ensures Terminated(log + Line(url, m))
    ensures Lines(log + Line(url, m)) == Lines(log) + [Line(url, m)]
  {
    LinesAppend(log, Line(url, m));
    LineRoundTrip(url, m);
  }

  /** Reading back a log with one more line reads back the old log, then that line as written. */
  lemma TranslateAppendLine(log: string, url: string, m: Mark)
    requires Terminated(log) && Clean(url)
    ensures Translate(log + Line(url, m)) == Translate(log) + Line(url, m)
    ensures Terminated(Translate(log))
  {
    assert '\r' !in Line(url, m);
    TranslateAppend(log, Line(url, m));
    TranslateTerminated(log);
  }

  /** Appending the line of one attempt adds its url to the resume counter. */
  lemma DownloadedAppend(log: string, url: string, m: Mark)
    requires Terminated(log) && Clean(url)
    ensures Terminated(log + Line(url, m))
    ensures Downloaded(log + Line(url, m)) == Downloaded(log) + multiset{url}
  {
    var line := Line(url, m);
    TranslateAppendLine(log, url, m);
    var t := Translate(log);
    AppendOneLine(t, url, m);
    LineRoundTrip(url, m);
    FirstFieldsSnoc(Lines(t), line);
  }

  lemma FirstFieldsSnoc(lines: seq<string>, line: string)
    ensures FirstFields(lines + [line]) == FirstFields(lines) + [FirstField(line)]
  {
  }

  /**
   * Log round trip for many attempts: after appending the lines of `entries`,
   * the counter has grown by exactly their urls.
   */
  lemma {:induction false} DownloadedAfterRender(log: string, entries: seq<Entry>)
    requires Terminated(log)
    requires forall e :: e in entries ==> Clean(e.url)
    ensures Terminated(log + Render(entries))
    ensures Downloaded(log + Render(entries)) == Downloaded(log) + multiset(UrlsOf(entries))
    decreases |entries|
  {
    if entries == [] {
      assert log + Render(entries) == log;
    } else {
      var n := |entries| - 1;
      var e, front := entries[n], entries[..n];
      LastSplit(entries);
      UrlsOfSnoc(front, e);
      var prev := log + Render(front);
      assert forall f :: f in front ==> f in entries;
      DownloadedAfterRender(log, front);
      var line := Line(e.url, e.mark);
      assert Render(entries) == Render(front) + line;
      ConcatAssoc(log, Render(front), line);
      DownloadedAppend(prev, e.url, e.mark);
      calc {
        Downloaded(log + Render(entries));
        Downloaded(prev) + multiset{e.url};
        Downloaded(log) + multiset(UrlsOf(front)) + multiset{e.url};
        Downloaded(log) + multiset(UrlsOf(entries));
      }
    }
  }

  /**
   * Why a logged url must not hold a carriage return: the line written for
   * "a\rb" is read back as the two lines "a\n" and "b\to\n", so the counter
   * gains "a\n" and "b" and never the url itself.
   */
  lemma CarriageReturnSplitsLine()
    ensures Downloaded(Line("a\rb", Success)) == multiset{"a\n", "b"}
  {
    var rest := Line("b", Success);
    TranslateCarriageReturn(rest);
    LinesAfterNewline(rest);
    FirstFieldsAfterNewline(rest);
  }

  lemma FirstFieldsAfterNewline(rest: string)
    requires rest == Line("b", Success)
    ensures FirstFields(["a\n", rest]) == ["a\n", "b"]
  {
    LineRoundTrip("b", Success);
    assert FirstField("a\n") == "a\n" by {
      assert "a\n"[1..] == "\n" && "\n"[1..] == [];
    }
  }

  /** A lone carriage return between two pieces without one reads back as a newline. */
  lemma TranslateLoneCarriageReturn(pre: string, rest: string)
    requires '\r' !in pre && '\r' !in rest && (rest == [] || rest[0] != '\n')
    ensures Translate(pre + "\r" + rest) == pre + "\n" + rest
  {
    var tail := "\r" + rest;
    assert tail[1..] == rest;
    assert Translate(tail) == "\n" + rest;
    assert pre + "\r" + rest == pre + tail;
    TranslateAppend(pre, tail);
  }

  lemma TranslateCarriageReturn(rest: string)
    requires rest == Line("b", Success)
    ensures Translate(Line("a\rb", Success)) == "a\n" + rest
  {
    assert Line("a\rb", Success) == "a" + "\r" + rest;
    TranslateLoneCarriageReturn("a", rest);
  }

  lemma LinesAfterNewline(rest: string)
    requires rest == Line("b", Success)
    ensures Lines("a\n" + rest) == ["a\n", rest]
  {
    var t := "a\n" + rest;
    assert t == "a" + ['\n'] + rest;
    FirstLineOfPrefix("a", rest);
    LineRoundTrip("b", Success);
    assert t[..2] == "a\n" && t[2..] == rest;
  }

  /**
   * When the log's last line is incomplete (a write cut short), the next
   * appended line joins it: after "a<TAB>" the line for "b" is read back as
   * one line whose first field is "a", so "b" is never counted.
   */
  lemma UnterminatedLogLosesNextEntry()
    ensures Downloaded("a\t" + Line("b", Success)) == multiset{"a"}
  {
    var text := "a\t" + Line("b", Success);
    assert text == "a\tb\to\n";
    assert '\r' !in text;
    assert FirstLineLength(text) == |text| by {
      FirstLineOfPrefix("a\tb\to", []);
      assert text == "a\tb\to" + ['\n'] + [];
    }
    assert text[..|text|] == text && text[|text|..] == [];
    assert Lines(text) == [text];
    assert FirstField(text) == "a" by {
      FirstFieldOfPrefix("a", "b\to\n");
      assert text == "a" + ['\t'] + "b\to\n";
    }
    assert FirstFields([text]) == ["a"];
  }
}
