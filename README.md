# xerr in Dafny

A model of the Go package `xerr`. The package provides:

- a classified error value, `XErr`. It has a category, a message, an optional public message, a cause, a stack snapshot and details.
- the category check `IsType`.
- the chain matcher `As`.
- the diagnostics helpers of its HTTP error handler:
  - the source snippet around a line (`codeSnippet`);
  - the filtered stack (`stackFrames`);
  - the data put together for the error page (`HandleError`);
  - the template helpers `parseCodeLine` and `len`;
  - the default configuration.

Modules:

- `Wrappers` holds `Option`.
- `GoStd` models the Go standard-library operations the package calls.
  - `strings`: `Split` with a one-character separator, `SplitN(s, sep, 2)`, `TrimSpace`, `HasPrefix`, `TrimPrefix` and `Contains`.
  - `slices.Contains`.
  - `fmt`'s `%d` and `%4d`.
  - The byte length `len` gives for a string.
- `Handler` models xerr.go:
  - `Config`, `DefaultConfig` and `New`.
  - `codeSnippet`, as the method `CodeSnippet` and its specification `Snippet`.
  - `stackFrames`.
  - The report data of `HandleError`.
  - `parseCodeLine`, as the method `ParseCodeLineEntries` and the function `ParseCodeLine`.
  - `len`.
- `Errors` models error.go:
  - Go error values: `errors.New`, `fmt.Errorf` with `%w`, and `*XErr`.
  - The `XErr` class, its builders, `Error()`, `Unwrap()` and `StackTrace`.
  - The chain that `Unwrap` walks.
- `TypeCheck` models error_type.go (`IsType`).
- `Matching` models error_as.go (`As`), and the part of `errors.As` that it uses.

What is proved:

- `codeSnippet` gives one numbered line per index of the clipped window `[max(0, L-15), min(N, L+20))`. Exactly the target line carries the `>>` marker.
- `parseCodeLine` inverts this formatting line by line.
- `stackFrames` keeps the user frames in order and stops at `MaxFrames`.
- `Error()` keeps every cause's text at its end. For nested `XErr` values it is their messages joined with `" - "`.
- `IsType` depends only on which types are listed.
- `As` stores the first `*XErr` of the chain in its slot, even when its answer is false.

## Model

| member | source | states |
|---|---|---|
| Handler.DefaultConfig | xerr.go:54-62 | The defaults: source display on, at most 50 frames, environment "development", debug mode on, 2 frames skipped. |
| Handler.New | xerr.go:71-74 | A nil configuration is replaced by the defaults; a given configuration is used unchanged. |
| Handler.WindowAt | xerr.go:156-171 | For every index i of the clipped window, its entry is line i+1 formatted with its number and marker. |
| Handler.CodeSnippet | xerr.go:145-174 | Display off: exactly "Source code display disabled". Read failure: exactly "Could not read source file". Otherwise: each formatted window line followed by a newline, in order. This equals `Snippet`. |
| Handler.WindowHasNoNewline | xerr.go:155-171 | A formatted line contains no newline when its source line contains none. |
| Handler.SnippetSplitsIntoWindow | xerr.go:155-174 | Splitting the snippet at newlines gives back exactly the window's lines followed by one empty piece. The window has max(0, min(N, L+20) - max(0, L-15)) lines. |
| Handler.MarkedLines | xerr.go:166-171 | A window line starts with ">>" if and only if its number is L. Some line is marked if and only if 1 <= L <= N. |
| Handler.SnippetLineMarked | xerr.go:166-171 | One formatted line starts with ">>" if and only if its number is the target line. |
| Handler.AtMostOneMarked | xerr.go:166-171 | No two different lines of a window are marked. |
| Handler.KeepFramesAppend | xerr.go:183-209 | Filtering frames distributes over concatenation, so kept frames stay in iterator order. |
| Handler.KeepFramesMembers | xerr.go:183-209 | A frame is kept if and only if it comes from an accepted frame of the iterator, with that frame's function, file, line and snippet. |
| Handler.KeepFramesPrefix | xerr.go:202-204 | The frames kept from a prefix of the iterator are a prefix of those kept from all of it. |
| Handler.Take | xerr.go:202-204 | The first n frames, or all of them when there are fewer: a prefix, exactly n long when there are at least n, and the whole input when there are at most n. |
| Handler.StackFrames | xerr.go:177-211 | The result is the user frames, capped at MaxFrames. A user frame has a non-empty file outside "/go/src/" and "/pkg/mod/". The frames keep iterator order, and each carries codeSnippet of its file and line. A skipped frame does not end the loop. |
| Handler.ReportData | xerr.go:87-102 | The report holds the error text, the frames of stackFrames, the time and the platform facts. The Go version has its "go" prefix removed. Method, URL and user agent come from the request, and are empty when there is none. |
| Handler.ParseCodeLineEntries | xerr.go:218-248 | Filling in the map entry by entry gives exactly the keys "number", "content" and "highlight", with the values of `ParseCodeLine`. |
| Handler.ParseCodeLine | xerr.go:218-248 | parseCodeLine's result as a record; ParseBlankLine, ParseHighlight and ParseNumberAndContent state its contract. A blank line gives the empty record. Highlight is "true" exactly when the line starts with ">>". Number and content are split at the first bar character, and both stay "" without one. |
| Handler.ParseBlankLine | xerr.go:219-227 | A line of white space only parses to number "", content "" and highlight "false". |
| Handler.ParseHighlight | xerr.go:229-231 | highlight is "true" exactly when the line starts with ">>", and "false" otherwise. |
| Handler.NumberAndContentAtBar | xerr.go:233-237 | With a bar character, number is the trimmed text before the first bar and content is the text after it. |
| Handler.NumberAndContentNoBar | xerr.go:233-237 | Without a bar character, the record is left as it was. |
| Handler.ParseNumberAndContent | xerr.go:230-245 | After an optional ">>" is dropped: number is the trimmed text before the first bar character, and content is everything after it, verbatim. With no bar both stay "". |
| Handler.ParseSnippetLine | xerr.go:218-248 | A line formatted by codeSnippet, without its newline, parses back to the decimal line number, a blank followed by the source text, and whether it was the marked line. |
| Handler.SnippetRoundTrip | xerr.go:145-248 | Split a whole snippet at newlines and parse each piece. Piece k gives line number WindowStart+k+1, its source text, and its marker. The final empty piece gives the empty record. |
| Handler.Len | xerr.go:249-258 | A frame list gives its length. A string gives its UTF-8 byte count, which lies between its character count and four times that, and equals it exactly for ASCII. Any other value gives 0. |
| GoStd.Contains | error_type.go:18 | slices.Contains is true exactly when the value is an element. |
| GoStd.ContainsStr | xerr.go:187 | strings.Contains is true exactly when the text occurs at some offset. |
| GoStd.TrimLeftSpec | xerr.go:225 | Trimming the front keeps a suffix, removes only white space, and stops at a character that is not white space. |
| GoStd.TrimSpace | xerr.go:225 | strings.TrimSpace, as trimRight after trimLeft. TrimLeftSpec, TrimRightSpec, TrimSpaceEmptyIff and TrimSpacePadded state its contract. It gives "" exactly when the text is all white space, and it trims white space around a word down to the word. |
| GoStd.TrimRightSpec | xerr.go:225 | Trimming the back keeps a prefix, removes only white space, and stops at a character that is not white space. |
| GoStd.TrimSpaceEmptyIff | xerr.go:225 | TrimSpace gives "" exactly when the line is all white space. |
| GoStd.TrimSpacePadded | xerr.go:235 | White space, then a word with no white space at its ends, then white space again, trims to the word. |
| GoStd.TrimPrefix | xerr.go:92 | With the prefix present, the prefix followed by the result is the input; otherwise the input is unchanged. |
| GoStd.IndexOf | xerr.go:233 | The first position of the separator, or -1 when the separator does not occur. |
| GoStd.SplitOnceSpec | xerr.go:233 | SplitN(s, sep, 2) gives two parts exactly when sep occurs: those before and after its first occurrence, the first part free of sep. Otherwise it gives s alone. |
| GoStd.SplitOnce | xerr.go:233 | strings.SplitN(s, "bar character", 2). SplitOnceSpec and SplitOnceAt state its contract. There are two parts exactly when the separator occurs, split at its first occurrence; otherwise it gives s alone. |
| GoStd.SplitOnceAt | xerr.go:233 | When a holds no sep, splitting a + sep + b gives [a, b]. |
| GoStd.Split | xerr.go:155 | Split gives at least one piece, and no piece contains the separator. |
| GoStd.JoinSplit | xerr.go:155 | Joining the pieces of a split with the separator restores the text. |
| GoStd.SplitTerminated | xerr.go:166-173 | Pieces free of the separator, each followed by the separator, split back into the pieces plus one empty piece. |
| GoStd.Dec | xerr.go:171 | %d of a non-negative number is a non-empty string of digits. |
| GoStd.DecValueOfDec | xerr.go:171 | Reading the %d text back as a decimal gives the number. |
| GoStd.PadLeft | xerr.go:171 | %4d pads to width 4, or keeps longer text unchanged. |
| GoStd.PadLeftShape | xerr.go:171 | The padded text is blanks followed by the text itself. |
| GoStd.Utf8Length | xerr.go:254 | A string's byte length lies between its character count and four times that, and equals the character count exactly when all characters are ASCII. |
| Errors.XErr.constructor | error.go:26-35 | New stores the category, message and cause as given, with an empty public message and nil details. The stack keeps the first (at most 32) caller frames. The new error's cause chain ends. |
| Errors.XErr.WithPublicMessage | error.go:38-41 | Sets the public message, changes no other field, and returns the same object. |
| Errors.XErr.WithDetails | error.go:44-47 | Sets the details (nil included), changes no other field, and returns the same object. A second call with the same map leaves the state as it was. |
| Errors.XErr.Error | error.go:49-54 | Without a cause, the message. With a cause, the message, " - " and the cause's text, which recurses through nested causes. |
| Errors.ErrorText | error.go:49-54 | The text of any error in the chain: errors.New's text, fmt.Errorf's prefix followed by the wrapped text, or XErr.Error(). Errors.XErr.Error, CauseTextSuffix, ChainTextSuffix and NestedXErrText state its contract. |
| Errors.XErr.Unwrap | error.go:56-58 | The stored cause, as errors.Unwrap sees it. It is nil exactly when the chain stops at this error; otherwise the chain continues with the cause's chain. |
| Errors.Cause | error.go:56-58 | errors.Unwrap on any error: an XErr gives its stored cause, a wrapped error its inner error, a plain error nil. Errors.XErr.Unwrap and ChainFollowsUnwrap state its contract: following it walks the chain link by link, and it is nil only at the last link. |
| Errors.XErr.StackTrace | error.go:61-82 | The frames of the snapshot with a non-empty file, in order, with no library filtering. Each snippet comes from the snippet source when showSource is set, and is empty otherwise. |
| Errors.StackTraceFrames | error.go:66-75 | Every frame StackTrace returns has a known file, and an empty snippet when showSource is false. |
| Errors.Chain | error.go:56-58 | The Unwrap chain of an error starts with the error itself. |
| Errors.ChainFollowsUnwrap | error.go:56-58 | Each link of the chain unwraps to the next, and the last link has no cause. |
| Errors.CauseTextSuffix | error.go:50-52 | An error's text ends with its cause's text. |
| Errors.ChainTextSuffix | error.go:49-54 | The text of every error further down the chain ends the outer error's text. |
| Errors.NestedXErrText | error.go:49-54 | For a chain of XErr values, Error() is their messages joined with " - ", outermost first. |
| Errors.FirstXErrOnChain | error_as.go:15 | The matched XErr is missing exactly when no XErr is on the chain. Otherwise it is the first XErr on the chain. |
| Errors.FirstXErr | error_as.go:15-22 | The XErr that errors.As stores into an *XErr slot. FirstXErrOnChain states its contract: it is missing exactly when no XErr is on the chain, and otherwise it is the first XErr on the chain. |
| TypeCheck.IsType | error_type.go:9-19 | A nil receiver gives false for every list, including an empty one. A non-nil receiver gives true with no types listed, and otherwise exactly when its Type is listed. |
| TypeCheck.IsTypeSameMembers | error_type.go:18 | Lists with the same members, in any order and with any repeats, give the same answer. |
| TypeCheck.IsTypeMonotone | error_type.go:18 | Adding types to a non-empty list never turns true into false. |
| Matching.ErrorsAs | error_as.go:15 | errors.As with an *XErr slot succeeds exactly when the chain holds an XErr, and stores the first one. On failure the slot is left alone. |
| Matching.As | error_as.go:9-30 | A nil error or a chain without an XErr gives false and leaves the slot untouched. Otherwise the slot holds the first XErr of the chain, even when the answer is false. The answer is that XErr's IsType(types...): true with no types, and membership of its Type otherwise. |

## Left out

- Stack capture and symbol resolution.
  - runtime.Callers and runtime.CallersFrames are inputs: the constructor takes the caller frames, and stackFrames takes the frames the iterator yields.
  - One program counter is treated as one resolved frame; inlined frames are not expanded.
- os.ReadFile is a parameter: a function from path to contents, None when the read fails.
- The html/template machinery is left out: parsing, template.Must, packageRoot, the template path, and rendering. The helpers "contains" and "trimSpace" are the library functions modelled in `GoStd`, and "split" is modelled only with a one-character separator.
- GoStd.Split: takes a one-character separator, which is all codeSnippet uses (a newline). The template helper "split" is strings.Split with any separator string, including "" (split into characters) and multi-character ones; that general case is not modelled because no modelled operation calls it.
- HandleError's header, status and body writes, the plain-text fallback, HandlePanic, Middleware and MiddlewareFunc are left out. They are HTTP plumbing and recover-based panic handling.
- time.Now, runtime.Version, runtime.GOOS and runtime.GOARCH are the `Environment` parameter of `ReportData`. The request's URL is its string form.
- The %v text of an arbitrary value handed to HandleError is a string parameter.
- Handler.StackFrames: its requires lists two runtime facts.
  - A negative MaxFrames makes the make([]uintptr, MaxFrames) call panic.
  - MaxFrames == 0 leaves no room for a program counter, so the iterator yields no frame.
- Errors.XErr.StackTrace: the snippet source is a parameter. error.go calls a package-level `codeSnippet` that the package does not declare; it only has the method of ErrorHandler.
- Errors.XErr.constructor: Type, Message, Err and the stack are `const`. The package never writes them after New, though Go would let a client assign the exported ones.
- Go does not compile this package as written. `New` is declared twice (error.go:26 and xerr.go:71), and xerr_test.go:105 calls `stackFrames(nil)` on a method with no parameter. Each function is modelled as written; the handler's `New` is `Handler.New`, and the error's is the `XErr` constructor.
- Details values are Go `any`; here they are strings. Assigning a map also aliases it with the caller's map; that sharing is not modelled.
- errors.As is modelled only for an *XErr target and single-cause chains. Left out:
  - other target types;
  - custom As methods;
  - Unwrap() []error trees;
  - the panic on an invalid target.
- fmt.Errorf is modelled only in the form prefix + "%w".
- strings.TrimSpace trims ASCII white space only; Unicode white space is not modelled.
- parseCodeLine's map is also modelled as a three-field record, `CodeLine`. `ParseCodeLineEntries` ties the two together.
- IsType takes its receiver as a parameter, because Go lets a nil *XErr receive the call.
- The demo server (main.go) is not part of this model.
