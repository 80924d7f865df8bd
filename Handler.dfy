/**
 * The error handler of xerr.go: its configuration, the source-snippet
 * extraction (codeSnippet), the stack-frame filter (stackFrames), the data
 * assembled for the error page (HandleError), and the two template helpers
 * that carry logic (parseCodeLine and len).
 *
 * The file system is a function from path to contents (None when the read
 * fails); the frames the runtime's frame iterator would yield are an input.
 */
module Handler {
  import opened Wrappers
  import opened GoStd

  /** One frame as the runtime's frame iterator resolves it. */
  datatype RawFrame = RawFrame(Function: string, File: string, Line: int)

  /** A stack frame of the error page (type Frame). */
  datatype Frame = Frame(Function: string, File: string, Line: int, Snippet: string)

  /** Config: the options of an error handler. */
  datatype Config = Config(
    ShowSourceCode: bool,
    MaxFrames: int,
    Environment: string,
    DebugMode: bool,
    SkipFrames: int)

  /** An error handler; its compiled template is not part of this model. */
  datatype ErrorHandler = ErrorHandler(config: Config)

  /** A whole-file read: the contents, or None when os.ReadFile fails. */
  type FileSystem = string -> Option<string>

  /** DefaultConfig. */
  function DefaultConfig(): (c: Config)
    ensures c.ShowSourceCode && c.DebugMode
    ensures c.MaxFrames == 50 && c.SkipFrames == 2
    ensures c.Environment == "development"
  {
    Config(true, 50, "development", true, 2)
  }

  /** New: a missing configuration is replaced by the defaults; a given one
      is used as it is. */
  function New(config: Option<Config>): (h: ErrorHandler)
    ensures config.None? ==> h.config == DefaultConfig()
    ensures config.Some? ==> h.config == config.value
  {
    var c := if config.None? then DefaultConfig() else config.value;
    ErrorHandler(c)
  }

  // ---------------------------------------------------------------------
  // codeSnippet
  // ---------------------------------------------------------------------

  const DisabledText := "Source code display disabled"
  const UnreadableText := "Could not read source file"

  /** The first line index (0-based) of the window around 1-based `line`. */
  function WindowStart(line: int): int {
    if line - 15 < 0 then 0 else line - 15
  }

  /** One past the last line index of the window, clipped to the file. */
  function WindowEnd(line: int, count: nat): int {
    if line + 20 > count then count else line + 20
  }

  /** The marker before a line: ">> " on the target line, blanks elsewhere. */
  function Marker(number: int, line: int): string {
    if number == line then ">> " else "   "
  }

  /** The text "%s%4d | %s" for line `number` of the file, without its newline. */
  function SnippetLine(number: nat, line: int, text: string): string {
    Marker(number, line) + PadLeft(Dec(number), 4) + " | " + text
  }

  /** The formatted lines of the window around `line`, in file order. */
  function Window(lines: seq<string>, line: int): seq<string> {
    var lo := WindowStart(line);
    var hi := WindowEnd(line, |lines|);
    seq(if hi > lo then hi - lo else 0, k requires 0 <= k < hi - lo => SnippetLine(lo + k + 1, line, lines[lo + k]))
  }

  lemma WindowAt(lines: seq<string>, line: int, i: int)
    requires WindowStart(line) <= i < WindowEnd(line, |lines|)
    ensures i - WindowStart(line) < |Window(lines, line)|
    ensures Window(lines, line)[i - WindowStart(line)] == SnippetLine(i + 1, line, lines[i])
  {
    var k := i - WindowStart(line);
    assert WindowStart(line) + k == i;
  }

  /** Appending the formatted line `i` and a newline to the snippet of the
      window lines before `i` gives the snippet of the lines up to `i`. */
  lemma SnippetStep(lines: seq<string>, line: int, i: int, b: string)
    requires WindowStart(line) <= i < WindowEnd(line, |lines|)
    requires b == Terminated(Window(lines, line)[..i - WindowStart(line)], '\n')
    ensures b + SnippetLine(i + 1, line, lines[i]) + "\n"
      == Terminated(Window(lines, line)[..i - WindowStart(line) + 1], '\n')
  {
    var w := Window(lines, line);
    var k := i - WindowStart(line);
    WindowAt(lines, line, i);
    TerminatedStep(w, k, '\n');
  }

  /** What codeSnippet returns, given whether source display is enabled and
      the result of reading the file. */
  function Snippet(show: bool, contents: Option<string>, line: int): string {
    if !show then DisabledText
    else match contents
      case None => UnreadableText
      case Some(data) => Terminated(Window(Split(data, '\n'), line), '\n')
  }

  /** codeSnippet: at most 15 lines before and 20 after the target line,
      each with its number and the marker, each ending in a newline. */
  method CodeSnippet(h: ErrorHandler, file: string, line: int, fs: FileSystem) returns (s: string)
    ensures !h.config.ShowSourceCode ==> s == DisabledText
    ensures h.config.ShowSourceCode && fs(file).None? ==> s == UnreadableText
    ensures h.config.ShowSourceCode && fs(file).Some? ==>
      s == Terminated(Window(Split(fs(file).value, '\n'), line), '\n')
    ensures s == Snippet(h.config.ShowSourceCode, fs(file), line)
  {
    if !h.config.ShowSourceCode {
      return DisabledText;
    }
    var data := fs(file);
    if data.None? {
      return UnreadableText;
    }
    var lines := Split(data.value, '\n');
    var start := line - 15;
    if start < 0 {
      start := 0;
    }
    var end := line + 20;
    if end > |lines| {
      end := |lines|;
    }
    ghost var w := Window(lines, line);
    assert start == WindowStart(line) && end == WindowEnd(line, |lines|);
    var b := "";
    var i := start;
    while i < end
      invariant start <= i && (i <= end || i == start)
      invariant b == Terminated(w[..i - start], '\n')
    {
      var prefix := "   ";
      if i + 1 == line {
        prefix := ">> ";
      }
      var text := prefix + PadLeft(Dec(i + 1), 4) + " | " + lines[i];
      assert text == SnippetLine(i + 1, line, lines[i]) by {
        assert prefix == Marker(i + 1, line);
      }
      SnippetStep(lines, line, i, b);
      ghost var done := w[..i - start + 1];
      assert b + text + "\n" == Terminated(done, '\n');
      b := b + text + "\n";
      assert b == Terminated(done, '\n');
      i := i + 1;
    }
    assert w[..i - start] == w;
    s := b;
  }

  /** No formatted line contains a newline when its source text does not. */
  lemma WindowHasNoNewline(lines: seq<string>, line: int)
    requires forall k :: 0 <= k < |lines| ==> '\n' !in lines[k]
    ensures forall k :: 0 <= k < |Window(lines, line)| ==> '\n' !in Window(lines, line)[k]
  {
    var w := Window(lines, line);
    var lo := WindowStart(line);
    forall k | 0 <= k < |w| ensures '\n' !in w[k] {
      var pad := PadLeft(Dec(lo + k + 1), 4);
      assert '\n' !in pad by {
        PadLeftShape(Dec(lo + k + 1), 4);
        SpacesAreBlank(|pad| - |Dec(lo + k + 1)|);
      }
      WindowAt(lines, line, lo + k);
      assert w[k] == Marker(lo + k + 1, line) + pad + " | " + lines[lo + k];
    }
  }

  /** Splitting a snippet at its newlines gives back the formatted lines of
      the window, one per line index in [WindowStart, WindowEnd), followed by
      the empty piece after the final newline. */
  lemma SnippetSplitsIntoWindow(data: string, line: int)
    ensures Split(Snippet(true, Some(data), line), '\n') == Window(Split(data, '\n'), line) + [""]
    ensures var lines := Split(data, '\n');
      |Window(lines, line)| ==
        if WindowEnd(line, |lines|) > WindowStart(line) then WindowEnd(line, |lines|) - WindowStart(line) else 0
  {
    var lines := Split(data, '\n');
    WindowHasNoNewline(lines, line);
    SplitTerminated(Window(lines, line), '\n');
  }

  /** The marker: a window line starts with ">>" exactly when its number is
      the target line, and some line is marked exactly when the target line
      is a line of the file. */
  lemma MarkedLines(lines: seq<string>, line: int)
    ensures var w := Window(lines, line);
      forall k :: 0 <= k < |w| ==> (HasPrefix(w[k], ">>") <==> WindowStart(line) + k + 1 == line)
    ensures var w := Window(lines, line);
      (exists k :: 0 <= k < |w| && HasPrefix(w[k], ">>")) <==> 1 <= line <= |lines|
  {
    var w := Window(lines, line);
    var lo := WindowStart(line);
    forall k | 0 <= k < |w| ensures HasPrefix(w[k], ">>") <==> lo + k + 1 == line {
      WindowAt(lines, line, lo + k);
      SnippetLineMarked(lo + k + 1, line, lines[lo + k]);
    }
    if 1 <= line <= |lines| {
      assert HasPrefix(w[line - 1 - lo], ">>");
    }
  }

  /** A formatted line starts with ">>" exactly when it is the target line. */
  lemma SnippetLineMarked(number: nat, line: int, text: string)
    ensures HasPrefix(SnippetLine(number, line, text), ">>") <==> number == line
  {
    var m := Marker(number, line);
    var l := SnippetLine(number, line, text);
    assert l == m + (PadLeft(Dec(number), 4) + " | " + text);
    assert l[..2] == m[..2];
    if number != line {
      assert m[..2][0] == ' ';
    }
  }

  /** At most one line of a window is marked. */
  lemma AtMostOneMarked(lines: seq<string>, line: int, j: int, k: int)
    requires 0 <= j < |Window(lines, line)| && 0 <= k < |Window(lines, line)|
    requires HasPrefix(Window(lines, line)[j], ">>") && HasPrefix(Window(lines, line)[k], ">>")
    ensures j == k
  {
    MarkedLines(lines, line);
  }

  // ---------------------------------------------------------------------
  // stackFrames
  // ---------------------------------------------------------------------

  function Resolve(r: RawFrame, snippet: string): Frame {
    Frame(r.Function, r.File, r.Line, snippet)
  }

  /** The frames of `iter` that `keep` accepts, in iterator order, each with
      the snippet `snippet` gives it. */
  function KeepFrames(iter: seq<RawFrame>, keep: RawFrame -> bool, snippet: RawFrame -> string): (frames: seq<Frame>)
    ensures |frames| <= |iter|
  {
    if iter == [] then []
    else
      var last := iter[|iter| - 1];
      KeepFrames(iter[..|iter| - 1], keep, snippet) + (if keep(last) then [Resolve(last, snippet(last))] else [])
  }

  /** Filtering distributes over concatenation, so the kept frames keep the
      iterator's order. */
  lemma {:induction false} KeepFramesAppend(a: seq<RawFrame>, b: seq<RawFrame>, keep: RawFrame -> bool, snippet: RawFrame -> string)
    ensures KeepFrames(a + b, keep, snippet) == KeepFrames(a, keep, snippet) + KeepFrames(b, keep, snippet)
  {
    if b != [] {
      var init := b[..|b| - 1];
      assert (a + b)[..|a + b| - 1] == a + init;
      KeepFramesAppend(a, init, keep, snippet);
    } else {
      assert a + b == a;
    }
  }

  /** A frame is kept exactly when it comes from an accepted frame of the iterator. */
  lemma {:induction false} KeepFramesMembers(iter: seq<RawFrame>, keep: RawFrame -> bool, snippet: RawFrame -> string)
    ensures forall f :: f in KeepFrames(iter, keep, snippet) <==>
      exists k :: 0 <= k < |iter| && keep(iter[k]) && f == Resolve(iter[k], snippet(iter[k]))
  {
    if iter != [] {
      var init := iter[..|iter| - 1];
      KeepFramesMembers(init, keep, snippet);
      forall f ensures f in KeepFrames(iter, keep, snippet) <==>
        exists k :: 0 <= k < |iter| && keep(iter[k]) && f == Resolve(iter[k], snippet(iter[k]))
      {
        if f in KeepFrames(init, keep, snippet) {
          var k :| 0 <= k < |init| && keep(init[k]) && f == Resolve(init[k], snippet(init[k]));
          assert iter[k] == init[k];
        }
        if exists k :: 0 <= k < |iter| && keep(iter[k]) && f == Resolve(iter[k], snippet(iter[k])) {
          var k :| 0 <= k < |iter| && keep(iter[k]) && f == Resolve(iter[k], snippet(iter[k]));
          if k < |init| {
            assert init[k] == iter[k];
          }
        }
      }
    }
  }

  lemma KeepFramesStep(iter: seq<RawFrame>, i: nat, keep: RawFrame -> bool, snippet: RawFrame -> string)
    requires i < |iter|
    ensures KeepFrames(iter[..i + 1], keep, snippet) ==
      KeepFrames(iter[..i], keep, snippet) + (if keep(iter[i]) then [Resolve(iter[i], snippet(iter[i]))] else [])
  {
    assert iter[..i + 1][..i] == iter[..i];
  }

  /** The frames kept from a prefix of the iterator are a prefix of those
      kept from all of it. */
  lemma KeepFramesPrefix(iter: seq<RawFrame>, i: nat, keep: RawFrame -> bool, snippet: RawFrame -> string)
    requires i <= |iter|
    ensures var all := KeepFrames(iter, keep, snippet);
      var part := KeepFrames(iter[..i], keep, snippet);
      |part| <= |all| && all[..|part|] == part
  {
    KeepFramesAppend(iter[..i], iter[i..], keep, snippet);
    assert iter[..i] + iter[i..] == iter;
  }

  /** A file of the Go standard library or of the module cache. */
  predicate IsLibraryFile(file: string) {
    ContainsStr(file, "/go/src/") || ContainsStr(file, "/pkg/mod/")
  }

  /** The frames stackFrames keeps: a known file outside the library paths. */
  predicate IsUserFrame(r: RawFrame) {
    r.File != "" && !IsLibraryFile(r.File)
  }

  /** The snippet stackFrames attaches to a frame. */
  function SnippetOf(h: ErrorHandler, fs: FileSystem): RawFrame -> string {
    (r: RawFrame) => Snippet(h.config.ShowSourceCode, fs(r.File), r.Line)
  }

  /** The first `n` elements of `s`, or all of it when it is shorter. */
  function Take<T>(s: seq<T>, n: nat): (r: seq<T>)
    ensures |r| <= n && |r| <= |s|
    ensures n <= |s| ==> |r| == n
    ensures |s| <= n ==> r == s
    ensures r == s[..|r|]
  {
    if n < |s| then s[..n] else s
  }

  /** stackFrames, given the frames the runtime's iterator yields for the
      program counters runtime.Callers stored (at most MaxFrames of them, so
      none when MaxFrames is 0; a negative MaxFrames makes the buffer
      allocation panic). Library frames are skipped without ending the loop;
      the loop stops once MaxFrames frames are kept. */
  method StackFrames(h: ErrorHandler, iter: seq<RawFrame>, fs: FileSystem) returns (frames: seq<Frame>)
    requires h.config.MaxFrames >= 0
    requires h.config.MaxFrames == 0 ==> iter == []
    ensures frames == Take(KeepFrames(iter, IsUserFrame, SnippetOf(h, fs)), h.config.MaxFrames)
    ensures |frames| <= h.config.MaxFrames
  {
    ghost var snippet := SnippetOf(h, fs);
    frames := [];
    var i := 0;
    while i < |iter|
      invariant 0 <= i <= |iter|
      invariant frames == KeepFrames(iter[..i], IsUserFrame, snippet)
      invariant |frames| < h.config.MaxFrames || iter == []
    {
      var fr := iter[i];
      var more := i + 1 < |iter|;
      KeepFramesStep(iter, i, IsUserFrame, snippet);
      i := i + 1;
      if fr.File != "" {
        if ContainsStr(fr.File, "/go/src/") || ContainsStr(fr.File, "/pkg/mod/") {
          if !more {
            assert i == |iter|;
            break;
          }
          continue;
        }
        var s := CodeSnippet(h, fr.File, fr.Line, fs);
        assert s == snippet(fr);
        frames := frames + [Frame(fr.Function, fr.File, fr.Line, s)];
        if |frames| >= h.config.MaxFrames {
          KeepFramesPrefix(iter, i, IsUserFrame, snippet);
          assert frames == Take(KeepFrames(iter, IsUserFrame, snippet), h.config.MaxFrames);
          return;
        }
      }
      if !more {
        assert i == |iter|;
        break;
      }
    }
    assert i == |iter| && iter[..i] == iter;
  }

  // ---------------------------------------------------------------------
  // HandleError's report data
  // ---------------------------------------------------------------------

  /** The fields HandleError reads from a request. */
  datatype Request = Request(Method: string, URL: string, UserAgent: string)

  /** The environment facts HandleError reads: time.Now, runtime.Version,
      runtime.GOOS and runtime.GOARCH. */
  datatype Environment = Environment(Now: int, Version: string, GOOS: string, GOARCH: string)

  /** ErrorData. */
  datatype ErrorData = ErrorData(
    Error: string,
    Frames: seq<Frame>,
    Timestamp: int,
    Method: string,
    URL: string,
    UserAgent: string,
    GoVersion: string,
    OS: string,
    Arch: string,
    Request: Option<Request>)

  /** The report HandleError hands to the template: the error text, the
      stack frames, the environment facts and, when there is a request, its
      method, URL and user agent (all empty otherwise). */
  method ReportData(h: ErrorHandler, text: string, r: Option<Request>, iter: seq<RawFrame>, fs: FileSystem, env: Environment)
    returns (data: ErrorData)
    requires h.config.MaxFrames >= 0
    requires h.config.MaxFrames == 0 ==> iter == []
    ensures data.Error == text && data.Request == r
    ensures data.Frames == Take(KeepFrames(iter, IsUserFrame, SnippetOf(h, fs)), h.config.MaxFrames)
    ensures data.Timestamp == env.Now && data.OS == env.GOOS && data.Arch == env.GOARCH
    ensures "go" + data.GoVersion == env.Version || (!HasPrefix(env.Version, "go") && data.GoVersion == env.Version)
    ensures r.None? ==> data.Method == "" && data.URL == "" && data.UserAgent == ""
    ensures r.Some? ==> data.Method == r.value.Method && data.URL == r.value.URL && data.UserAgent == r.value.UserAgent
  {
    var frames := StackFrames(h, iter, fs);
    data := ErrorData(text, frames, env.Now, "", "", "", TrimPrefix(env.Version, "go"), env.GOOS, env.GOARCH, r);
    if r.Some? {
      data := data.(Method := r.value.Method, URL := r.value.URL, UserAgent := r.value.UserAgent);
    }
  }

  // ---------------------------------------------------------------------
  // Template helpers
  // ---------------------------------------------------------------------

  /** The record parseCodeLine returns: its map has exactly the keys
      "number", "content" and "highlight", modelled as the three fields. */
  datatype CodeLine = CodeLine(number: string, content: string, highlight: string)

  /** The record parseCodeLine starts from and returns for a blank line. */
  const EmptyCodeLine := CodeLine("", "", "false")

  /** templateFuncs["parseCodeLine"]: split one snippet line into its number,
      its content and whether it is the highlighted line. */
  function ParseCodeLine(line: string): CodeLine {
    var result := EmptyCodeLine;
    if TrimSpace(line) == "" then result
    else if HasPrefix(line, ">>") then NumberAndContent(result.(highlight := "true"), line[2..])
    else NumberAndContent(result, line)
  }

  /** The shared tail of both branches of parseCodeLine: SplitN at the first
      "|", and when there is one, fill in the number and the content. */
  function NumberAndContent(result: CodeLine, rest: string): CodeLine {
    var parts := SplitOnce(rest, '|');
    if |parts| == 2 then result.(number := TrimSpace(parts[0]), content := parts[1]) else result
  }

  /** The map parseCodeLine hands to the template, built from the record. */
  function Entries(c: CodeLine): map<string, string> {
    map["number" := c.number, "content" := c.content, "highlight" := c.highlight]
  }

  /** templateFuncs["parseCodeLine"] as written: start from the three
      default entries and overwrite them one by one. */
  method ParseCodeLineEntries(line: string) returns (result: map<string, string>)
    ensures result == Entries(ParseCodeLine(line))
    ensures result.Keys == {"number", "content", "highlight"}
  {
    result := map["number" := "", "content" := "", "highlight" := "false"];
    ghost var rec := EmptyCodeLine;
    assert result == Entries(rec);
    if TrimSpace(line) == "" {
      return;
    }
    var rest := line;
    if HasPrefix(line, ">>") {
      EntriesHighlight(rec);
      result := result["highlight" := "true"];
      rec := rec.(highlight := "true");
      rest := line[2..];
    }
    ghost var start := rec;
    var parts := SplitOnce(rest, '|');
    if |parts| == 2 {
      EntriesFill(rec, TrimSpace(parts[0]), parts[1]);
      result := result["number" := TrimSpace(parts[0])];
      result := result["content" := parts[1]];
      rec := rec.(number := TrimSpace(parts[0]), content := parts[1]);
    }
    assert rec == NumberAndContent(start, rest);
    assert result == Entries(rec);
  }

  /** Setting the highlight entry of the map is setting the record's flag. */
  lemma EntriesHighlight(c: CodeLine)
    ensures Entries(c)["highlight" := "true"] == Entries(c.(highlight := "true"))
  {
  }

  /** Setting the number and content entries of the map is setting the
      record's two fields. */
  lemma EntriesFill(c: CodeLine, number: string, content: string)
    ensures Entries(c)["number" := number]["content" := content] == Entries(c.(number := number, content := content))
  {
  }

  /** A line of white space only gives the empty record. */
  lemma ParseBlankLine(line: string)
    requires AllSpace(line)
    ensures ParseCodeLine(line) == EmptyCodeLine
  {
    TrimSpaceEmptyIff(line);
  }

  /** The highlight flag is "true" exactly when the line starts with ">>". */
  lemma ParseHighlight(line: string)
    ensures ParseCodeLine(line).highlight == if HasPrefix(line, ">>") then "true" else "false"
  {
    TrimSpaceEmptyIff(line);
    if HasPrefix(line, ">>") {
      assert !IsSpace(line[0]);
      NumberAndContentHighlight(EmptyCodeLine.(highlight := "true"), line[2..]);
    } else {
      NumberAndContentHighlight(EmptyCodeLine, line);
    }
  }

  /** The shared tail never touches the highlight flag. */
  lemma NumberAndContentHighlight(result: CodeLine, rest: string)
    ensures NumberAndContent(result, rest).highlight == result.highlight
  {
    if '|' in rest {
      NumberAndContentAtBar(result, rest, IndexOf(rest, '|'));
    } else {
      NumberAndContentNoBar(result, rest);
    }
  }

  /** A line with a "|" in it is not blank. */
  lemma BarredLineNotBlank(line: string, i: int)
    requires 0 <= i < |line| && line[i] == '|'
    ensures TrimSpace(line) != ""
  {
    assert !AllSpace(line) by { assert !IsSpace(line[i]); }
    TrimSpaceEmptyIff(line);
  }

  /** With a "|" in the text, the shared tail fills in the number from
      before the first "|" and the content from after it. */
  lemma NumberAndContentAtBar(result: CodeLine, rest: string, k: int)
    requires k == IndexOf(rest, '|') && k >= 0
    ensures NumberAndContent(result, rest) == result.(number := TrimSpace(rest[..k]), content := rest[k + 1..])
  {
    SplitOnceSpec(rest, '|');
  }

  /** Without a "|", the shared tail leaves the record as it was. */
  lemma NumberAndContentNoBar(result: CodeLine, rest: string)
    requires '|' !in rest
    ensures NumberAndContent(result, rest) == result
  {
    SplitOnceSpec(rest, '|');
  }

  /** After dropping a leading ">>", the number is the trimmed text before
      the first "|" and the content is everything after it; with no "|"
      both stay empty. */
  lemma ParseNumberAndContent(line: string)
    ensures var body := if HasPrefix(line, ">>") then line[2..] else line;
      var k := IndexOf(body, '|');
      && (k < 0 ==> ParseCodeLine(line).number == "" && ParseCodeLine(line).content == "")
      && (k >= 0 ==> ParseCodeLine(line).number == TrimSpace(body[..k]) && ParseCodeLine(line).content == body[k + 1..])
  {
    var marked := HasPrefix(line, ">>");
    var body := if marked then line[2..] else line;
    var k := IndexOf(body, '|');
    var start := if marked then EmptyCodeLine.(highlight := "true") else EmptyCodeLine;
    if k < 0 {
      NumberAndContentNoBar(start, body);
    } else {
      NumberAndContentAtBar(start, body, k);
      if marked {
        assert line[k + 2] == body[k];
        BarredLineNotBlank(line, k + 2);
      } else {
        BarredLineNotBlank(line, k);
      }
      assert ParseCodeLine(line) == NumberAndContent(start, body);
    }
  }

  /** The number column of a snippet line trims to the decimal number. */
  lemma TrimNumberColumn(marker: string, number: nat)
    requires AllSpace(marker)
    ensures TrimSpace(marker + PadLeft(Dec(number), 4) + " ") == Dec(number)
  {
    var d := Dec(number);
    var pad := PadLeft(d, 4);
    var blanks := Spaces(|pad| - |d|);
    PadLeftShape(d, 4);
    assert marker + pad + " " == (marker + blanks) + d + " ";
    assert !IsSpace(d[0]) && !IsSpace(d[|d| - 1]);
    TrimSpacePadded(marker + blanks, d, " ");
  }

  /** The number column of a snippet line holds no "|". */
  lemma NoBarInNumberColumn(marker: string, number: nat)
    requires '|' !in marker
    ensures '|' !in marker + PadLeft(Dec(number), 4) + " "
  {
    var d := Dec(number);
    var pad := PadLeft(d, 4);
    PadLeftShape(d, 4);
    SpacesAreBlank(|pad| - |d|);
  }

  /** The pieces of the two markers. */
  lemma MarkerFacts()
    ensures AllSpace(" ") && AllSpace("   ")
    ensures '|' !in " " && '|' !in "   "
  {
  }

  /** Parsing ">>" + column + "|" + rest, the column free of "|". */
  lemma ParseMarkedShape(column: string, rest: string)
    requires '|' !in column
    ensures ParseCodeLine(">>" + (column + ['|'] + rest)) == CodeLine(TrimSpace(column), rest, "true")
  {
    var inner := column + ['|'] + rest;
    var s := ">>" + inner;
    BarredLineNotBlank(s, 2 + |column|);
    assert HasPrefix(s, ">>");
    assert s[2..] == inner;
    SplitOnceAt(column, '|', rest);
  }

  /** Parsing column + "|" + rest, the column free of "|" and not starting
      with ">>". */
  lemma ParsePlainShape(column: string, rest: string)
    requires '|' !in column && |column| > 0 && column[0] == ' '
    ensures ParseCodeLine(column + ['|'] + rest) == CodeLine(TrimSpace(column), rest, "false")
  {
    var s := column + ['|'] + rest;
    BarredLineNotBlank(s, |column|);
    assert !HasPrefix(s, ">>") by { assert s[0] == ' '; }
    SplitOnceAt(column, '|', rest);
  }

  /** Parsing the marked line that codeSnippet formats. */
  lemma ParseMarkedLine(number: nat, text: string)
    ensures ParseCodeLine(SnippetLine(number, number, text)) == CodeLine(Dec(number), " " + text, "true")
  {
    var column := " " + PadLeft(Dec(number), 4) + " ";
    var pad := PadLeft(Dec(number), 4);
    var u := " " + pad + " | " + text;
    assert u == column + ['|'] + (" " + text);
    assert ">> " + pad == ">>" + (" " + pad);
    assert ">> " + pad + " | " == ">>" + (" " + pad + " | ");
    assert SnippetLine(number, number, text) == ">>" + u;
    MarkerFacts();
    NoBarInNumberColumn(" ", number);
    ParseMarkedShape(column, " " + text);
    TrimNumberColumn(" ", number);
  }

  /** Parsing an unmarked line that codeSnippet formats. */
  lemma ParseUnmarkedLine(number: nat, line: int, text: string)
    requires number != line
    ensures ParseCodeLine(SnippetLine(number, line, text)) == CodeLine(Dec(number), " " + text, "false")
  {
    var column := "   " + PadLeft(Dec(number), 4) + " ";
    assert SnippetLine(number, line, text) == column + ['|'] + (" " + text);
    MarkerFacts();
    NoBarInNumberColumn("   ", number);
    ParsePlainShape(column, " " + text);
    TrimNumberColumn("   ", number);
  }

  /** Parsing a line that codeSnippet formats gives back its decimal line
      number, a blank followed by the source text, and whether it was the
      marked line. */
  lemma ParseSnippetLine(number: nat, line: int, text: string)
    ensures ParseCodeLine(SnippetLine(number, line, text)) ==
      CodeLine(Dec(number), " " + text, if number == line then "true" else "false")
  {
    if number == line {
      ParseMarkedLine(number, text);
    } else {
      ParseUnmarkedLine(number, line, text);
    }
  }

  /** The template-side round trip: splitting a snippet at its newlines and
      parsing each piece recovers, for each line of the window, its number,
      its source text and whether it is the target line; the piece after the
      final newline parses to the empty record. */
  lemma SnippetRoundTrip(data: string, line: int)
    ensures var lines := Split(data, '\n');
      var pieces := Split(Snippet(true, Some(data), line), '\n');
      var lo := WindowStart(line);
      && |pieces| == |Window(lines, line)| + 1
      && ParseCodeLine(pieces[|pieces| - 1]) == EmptyCodeLine
      && forall k :: 0 <= k < |pieces| - 1 ==>
        ParseCodeLine(pieces[k]) ==
          CodeLine(Dec(lo + k + 1), " " + lines[lo + k], if lo + k + 1 == line then "true" else "false")
  {
    var lines := Split(data, '\n');
    var pieces := Split(Snippet(true, Some(data), line), '\n');
    SnippetSplitsIntoWindow(data, line);
    WindowRoundTrip(lines, line, pieces);
  }

  /** The window followed by the empty piece after the final newline parses
      back line by line. */
  lemma WindowRoundTrip(lines: seq<string>, line: int, pieces: seq<string>)
    requires pieces == Window(lines, line) + [""]
    ensures var lo := WindowStart(line);
      && |pieces| == |Window(lines, line)| + 1
      && ParseCodeLine(pieces[|pieces| - 1]) == EmptyCodeLine
      && forall k :: 0 <= k < |pieces| - 1 ==>
        ParseCodeLine(pieces[k]) ==
          CodeLine(Dec(lo + k + 1), " " + lines[lo + k], if lo + k + 1 == line then "true" else "false")
  {
    var w := Window(lines, line);
    WindowParses(lines, line);
    ParseBlankLine("");
    assert forall k :: 0 <= k < |w| ==> pieces[k] == w[k];
  }

  /** Each line of the window parses back to its number, its text and its
      marker. */
  lemma WindowParses(lines: seq<string>, line: int)
    ensures var w := Window(lines, line);
      var lo := WindowStart(line);
      forall k :: 0 <= k < |w| ==>
        ParseCodeLine(w[k]) ==
          CodeLine(Dec(lo + k + 1), " " + lines[lo + k], if lo + k + 1 == line then "true" else "false")
  {
    var w := Window(lines, line);
    var lo := WindowStart(line);
    forall k | 0 <= k < |w|
      ensures ParseCodeLine(w[k]) ==
        CodeLine(Dec(lo + k + 1), " " + lines[lo + k], if lo + k + 1 == line then "true" else "false")
    {
      WindowLineParses(lines, line, k);
    }
  }

  /** One line of the window parses back to its number, its text and its
      marker. */
  lemma WindowLineParses(lines: seq<string>, line: int, k: nat)
    requires k < |Window(lines, line)|
    ensures var lo := WindowStart(line);
      ParseCodeLine(Window(lines, line)[k]) ==
        CodeLine(Dec(lo + k + 1), " " + lines[lo + k], if lo + k + 1 == line then "true" else "false")
  {
    var i := WindowStart(line) + k;
    WindowAt(lines, line, i);
    assert Window(lines, line)[k] == SnippetLine(i + 1, line, lines[i]);
    ParseSnippetLine(i + 1, line, lines[i]);
  }

  /** The values the len helper is applied to. */
  datatype TemplateValue = FrameList(frames: seq<Frame>) | Text(s: string) | Other

  /** templateFuncs["len"]: the number of frames, the byte length of a string
      (its UTF-8 length, equal to its length in characters for ASCII), and 0
      for any other value. */
  function Len(v: TemplateValue): (n: int)
    ensures v.FrameList? ==> n == |v.frames|
    ensures v.Text? ==> n == Utf8Length(v.s)
    ensures v.Text? ==> |v.s| <= n <= 4 * |v.s|
    ensures v.Text? ==> (n == |v.s| <==> forall i :: 0 <= i < |v.s| ==> (v.s[i] as int) < 0x80)
    ensures v.Other? ==> n == 0
  {
    match v
    case FrameList(frames) => |frames|
    case Text(s) => Utf8Length(s)
    case Other => 0
  }
}
