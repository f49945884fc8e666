# Error-log and merge-request prompt builders, modelled in Dafny

The repository is a set of Python scripts that prepare text for a
code-review language model. This project models the parts of them that
compute text from their inputs:

- **`think.py`** turns a Java error log into an analysis prompt.
  - `parse_stack_trace` pulls `(class, file, line)` triples out of the log with
    `re.findall` and keeps the first three.
  - `class_path_to_file_path` maps each class to a source file under a base
    directory.
  - `extract_code_context` cuts the 20 lines on each side of the reported line
    out of that file.
  - `build_prompt` joins an instruction, the stripped log, one numbered section
    per frame and a closing request with `\n`.
- **`mr.py`** handles GitLab merge requests.
  - `build_prompt` writes a review prompt: a fixed rubric, then one block per
    changed file.
  - `generate_markdown_report` writes the markdown report around the model's
    answer.
- **`handle.py`**: `is_error_mail` decides from a mail's subject whether the
  mail reports an error.

Modules:

- `Wrappers` holds `Option`, and `Outcome`, which models "returned a value" or
  "raised an exception with this message".
- `Builtins` models the Python string and list built-ins the scripts use.
- `Paths` models `pathlib.PurePosixPath`.
- `StackTrace` models `parse_stack_trace`. It has a hand-written scanner,
  `MatchAt` and `FindAll`. It also has a declarative description of the
  pattern: `MatchText` and `PatternMatch` describe one match, and
  `LeftmostScan` describes what `findall` returns. The scanner is proved sound,
  complete and the only leftmost scan.
- `Think` models the rest of `think.py`. The file system is a parameter: a map
  from paths to file text, or to the error that opening the file raises.
- `MergeRequest` models `mr.py`. Its JSON documents are records, and `Option`
  marks keys that may be missing.
- `Mail` models `is_error_mail`.

`build_prompt` treats the whole log as one entry (think.py:41) and looks
every class up under the single base directory it is given (think.py:47). Its
closing line asks for suggested code changes (think.py:57).

## Model

| member | source | states |
|---|---|---|
| StackTrace.FindLayoutGood | think.py:12 | A layout the scanner finds at `p` has the pattern's shape there: `at `, a `[\w.]` run up to the last `.` before the method name, `\w+` method name, `(`, `\w+` then `.java:`, digits, `)` |
| StackTrace.LayoutUnique | think.py:12 | Any layout of the pattern's shape at `p` is the one the scanner finds there |
| StackTrace.MatchAt | think.py:12 | A match found at `p` starts at `p` and ends after it, inside the text |
| StackTrace.MatchAtWellFormed | think.py:12 | The class, file and line groups of a match have the shapes their sub-patterns allow |
| StackTrace.MatchAtSound | think.py:12 | Every match the scanner reports is a match of the pattern with those groups |
| StackTrace.MatchAtComplete | think.py:12 | Any text `at C.m(F.java:N)` of the pattern's shape at `p` is exactly the match the scanner reports at `p`, with the same end and groups |
| StackTrace.NoMatchWhereNone | think.py:12 | Where the scanner reports nothing, no match of the pattern starts |
| StackTrace.FindAllInOrder | think.py:13 | `findall`'s matches lie inside the text, are in left-to-right order, do not overlap, and have well-formed groups |
| StackTrace.FindAllIsLeftmostScan | think.py:13 | The scanner's list is a leftmost scan: each match is the leftmost one from where the previous match ended, and after the last there is none |
| StackTrace.LeftmostScanUnique | think.py:13 | Any list that is a leftmost scan equals the scanner's list, so `findall`'s result is determined by the pattern |
| StackTrace.ParseStackTrace | think.py:10-14 | With `limit >= 0` the result has `min(limit, #matches)` frames. A negative limit drops that many from the end, as Python slicing does. Frames are the groups of the matches in text order, and each is well-formed |
| StackTrace.ParseStackTraceIsScan | think.py:12-14 | The result is the groups of the first `limit` matches of the leftmost scan of the whole log |
| StackTrace.AtMostDefaultLimit | think.py:10-14 | With the default limit there are at most three frames |
| StackTrace.NoMatchNoFrames | think.py:12-13 | Text in which the pattern matches nowhere gives no frames: unmatched lines are skipped, never reported as errors |
| StackTrace.FindAllWithoutAt | think.py:12-13 | No match starts in text that has no `at ` |
| StackTrace.ExampleJavaFrame | think.py:12-14 | `\tat a.B.c(B.java:42)` gives exactly the frame `("a.B", "B.java", "42")` |
| StackTrace.ExampleNativeFrame | think.py:12-13 | A native-method frame `at a.B.c(Native Method)` gives no frame |
| StackTrace.ExampleInnerClassFrame | think.py:12-13 | A frame with `$`, `at a.B$1.c(B.java:7)`, gives no frame, because `$` is not a word character |
| Builtins.Strip | think.py:44 | `log.strip()` is a slice of the text with only whitespace cut from both ends, and it neither starts nor ends with whitespace |
| Builtins.StripIdempotent | think.py:44 | Stripping twice equals stripping once |
| Builtins.NatToDecimal | think.py:53 | The section number is a non-empty digit string without leading zeros |
| Builtins.DecimalOfNatToDecimal | think.py:53 | Reading back the printed section number gives the number |
| Builtins.NatToDecimalOfDecimal | think.py:49 | `int()` followed by printing gives back a digit string without leading zeros |
| Builtins.JoinPieceOccurs | think.py:58 | Every part of `'\n'.join(parts)` occurs in the joined text |
| Builtins.Enumerate | think.py:46 | `enumerate(xs, start=1)` pairs the `k`-th element with the number `k+1` |
| Builtins.EnumerateSnoc | think.py:46 | One more element adds exactly its own numbered piece at the end |
| Builtins.JoinCons | think.py:58 | A join is its first part followed by every later part with the separator in front |
| Builtins.Contains | handle.py:8 | `p in s` holds exactly when `p` occurs in `s` at some position |
| Builtins.ContainsTransitive | handle.py:8 | A substring of a substring is a substring |
| Paths.Parse | think.py:19 | `PurePosixPath(s)` keeps only real components (no empty or `.` parts), and is rooted exactly when `s` starts with `/`. Which pieces of `s.split('/')` it keeps, and in what order, is fixed by `Paths.KeepPartsAppend`, `Paths.KeepPartsOne` and `Paths.ParseKeepsPieces` |
| Paths.KeepPartsAppend | think.py:19 | Dropping the empty and `.` pieces of two lists one after the other is dropping them from the whole |
| Paths.KeepPartsOne | think.py:19 | A single piece is dropped exactly when it is empty or `.`, and is otherwise kept |
| Paths.ParseKeepsPieces | think.py:19 | The components of `s` are what the pieces of `s.split('/')` before, at and after any position `k` contribute, in that order |
| Paths.ParseOne | think.py:19 | Text that is a single component parses to a relative path of exactly that component |
| Paths.ParseAround | think.py:19 | The components of `a/b` are those of `a` followed by those of `b`, so doubled slashes add no component |
| Paths.Append | think.py:19 | `base / rel` of valid paths is a valid path |
| Paths.ParseToString | think.py:19 | Parsing the printed form of a path gives back the path |
| Paths.ToStringParse | think.py:19 | Text made only of real components prints back unchanged after parsing |
| Paths.AppendToString | think.py:19 | `str(base / rel)`, for a relative `rel` with at least one component, is `str(rel)` after a prefix: nothing for the base `.`, `/` for the root, and otherwise the base's text and a `/` |
| Think.SourceRelativePath | think.py:19 | The relative path is the class name with every `.` turned into `/`, then `.java`. Its only `.` is the one in the suffix |
| Builtins.Replace | think.py:19 | `s.replace(a, b)` keeps the length and turns each `a` into `b`, keeping every other character |
| Builtins.SplitAround | think.py:19 | Splitting `a + c + b` at `c` gives the pieces of `a`, then the pieces of `b` |
| Think.SlashesAreDots | think.py:19 | The relative path has one `/` per `.` of the class name |
| Think.ClassPathToFilePath | think.py:17-19 | A valid base directory gives a valid path |
| Think.SourceRelativePieces | think.py:19 | For a dotted class name, the relative path's components are the package names, then the simple name with `.java` |
| Think.ClassFilePathParts | think.py:17-19 | The file of a dotted class name is the base directory, then one directory per package, then `Simple.java` |
| Think.ClassFilePathText | think.py:17-19 | Its text is the class name with dots turned into slashes and `.java` appended, after a prefix: nothing for the base `.`, `/` for the root, and otherwise the base directory's text and a `/` |
| Think.DoubledDotFilePath | think.py:17-19 | A class group `p..c` of two identifiers gives the file `c.java` in the directory `p` under the base: the empty piece of `p//c.java` is dropped |
| Think.LeadingDotEscapesBase | think.py:19 | A class group that starts with `.` gives a path rooted at `/`; the base directory is ignored |
| Think.ReadLines | think.py:25 | `readlines()` cuts the text after every newline. The lines concatenate back to the text, none is empty, each but the last ends with `\n`, and no line has a `\n` before its end |
| Think.ReadFileLines | think.py:21-27 | A missing file gives no lines. A readable file gives its lines. Any other failure to open or read propagates as an exception |
| Think.ContextWindow | think.py:35-37 | The window is exactly the file's lines within `radius` of the reported line, in file order. It never indexes outside the file and has at most `2*radius+1` lines |
| Think.ExtractCodeContext | think.py:30-37 | A missing or empty file gives exactly `"[文件不存在] " + str(path)`. An unreadable file raises its error. Otherwise the result is the concatenated window |
| Think.ContextIsExcerpt | think.py:35-37 | The context of a non-empty file is one contiguous piece of the file's text |
| Think.ContextShowsReportedLine | think.py:35-37 | When the file has the reported line, that line is part of the context |
| Think.SmallFileShownWhole | think.py:35-37 | A file that fits in the window around the reported line is returned whole (e.g. line 5, radius 20, three lines) |
| Think.ParseInt | think.py:48 | A digit string of at most 4300 digits converts to its decimal value. A longer one raises the digit-limit `ValueError`, and any other text raises |
| Think.CodeContextCases | think.py:47-51 | A frame whose line number has more than 4300 digits gets `"[无法提取代码上下文: " + limit message + "]"`. Otherwise its context is the missing-file marker, or `"[无法提取代码上下文: " + error + "]"` for an unreadable file, or the window of the file at the frame's line |
| Think.MissingFileNamesClass | think.py:33-34 | When the line number converts, the marker for a dotted class whose file is missing names the base directory and the class's relative path |
| Think.FrameSections | think.py:46-55 | There is one section per frame. The `k`-th section is numbered `k+1` and shows that frame's class, file, line and context |
| Think.BuildPrompt | think.py:39-58 | The prompt is `'\n'.join` of the instruction, the log part, the frame sections in order, and the closing request |
| Think.JoinedParts | think.py:58 | Joining the parts with `\n` puts a newline in front of every part after the first |
| Think.PromptText | think.py:41-58 | The prompt text is the instruction, `\n`, `"\n【错误日志全文】\n" + log.strip()`, each frame section preceded by `\n`, then `\n` and the closing request |
| Think.PromptPartCount | think.py:41-58 | The prompt has three fixed parts plus one per frame, so at most six parts |
| Think.PromptWithoutFrames | think.py:41-58 | A log without matches gives just the instruction, the log part and the closing request |
| Think.FrameSectionInPrompt | think.py:46-58 | The section of every frame, with its number, occurs in the prompt |
| MergeRequest.BuildPrompt | mr.py:22-56 | The prompt is the review header followed by one block per change in input order. It always starts with the header, and equals it when there are no changes |
| MergeRequest.ChangeBlocksAppend | mr.py:51-54 | The blocks of two lists of changes are the first list's blocks, then the second's |
| MergeRequest.ChangeBlockAt | mr.py:51-54 | The `k`-th change's block `"\n文件：" + new_path + "\n变更内容：\n" + diff + "\n"` comes right after the blocks of the changes before it |
| MergeRequest.DescriptionText | mr.py:79 | The description is `无` when the key is missing, `None` when it is JSON null, and otherwise the text |
| MergeRequest.ChangeKind | mr.py:83 | The change type is `新增` exactly when `new_file` is true, and `修改` exactly when it is false |
| MergeRequest.AnalysisContent | mr.py:85-89 | The content is `choices[0].message.content` when all of these are present and `choices` is non-empty. It is `无分析结果` when `choices`, `message` or `content` is missing or `choices` is empty |
| MergeRequest.GenerateMarkdownReport | mr.py:76-91 | The accumulated text is the report: the head, one summary per change, a blank line, and the content |
| MergeRequest.ReportOpening | mr.py:77-79 | The report starts with the title line `# Merge Request 审查报告`, then `## MR标题: ` and the title, then `## MR描述:` and the description |
| MergeRequest.ReportSummaryAt | mr.py:80-83 | The report is its head, the summaries of the changes before the `k`-th, the `k`-th change's `- 文件:` and type lines, the summaries of the later changes, and the tail |
| MergeRequest.ReportEnding | mr.py:84-91 | The report ends with a newline, the content and a final newline |
| Mail.AnyKeywordIn | handle.py:8 | `any(kw.lower() in text ...)` holds exactly when some lower-cased keyword occurs in the text |
| Mail.IsErrorMail | handle.py:6-8 | A subject is an error mail exactly when some lower-cased keyword occurs in the lower-cased subject |
| Mail.ErrorMailIffXOrError | handle.py:7-8 | Since both long keywords contain `x`, a subject is an error mail exactly when its lower-cased text contains `x` or `error` |
| Mail.AnyXIsError | handle.py:7-8 | A subject containing `x` or `X` is an error mail |
| Mail.EmptyIsNotError | handle.py:7-8 | The empty subject is not an error mail |
| Mail.CaseInsensitive | handle.py:8 | Subjects that differ only in the case of letters get the same verdict |
| Mail.AnyKeywordInMonotone | handle.py:8 | Text that contains a text in which some keyword occurs contains that keyword too |
| Mail.ErrorMailMonotone | handle.py:8 | A subject containing an error mail's subject is an error mail |

## Left out

- The network calls `fetch_mr_diff` and `analyze_with_deepseek` (mr.py:14-19, mr.py:59-74). They are HTTP requests with nothing to compute.
- The report writer `save_markdown_file` (mr.py:93-96), reading the example log (think.py:64-65), and writing `latest-error.txt` (handle.py:32-33). These are file I/O.
- The module-level script code (mr.py:5-11, mr.py:99-104, think.py:63-71, handle.py:11-40): environment loading, the browser-driven mail loop, its waits and date filter, and printing are I/O.
- The base directory is a parameter of `Think.BuildPrompt`, so `Path(os.environ.get('BASE_CODE_DIR'))` (think.py:66) is not modelled.
- Real file opening in `read_file_lines`. A file's entry is its text after UTF-8 decoding and newline translation, or the message of the exception opening or reading it raises. A path absent from the map is a missing file. Symbolic links, `..` and the current directory are not modelled.
- The outer `except` of `build_prompt` (think.py:59-60). Nothing in its `try` block can raise in the model: the pattern, `strip`, the path operations and the formatting always succeed, and extraction errors are caught by the inner handler.
- Unicode semantics of `\w`, `\d` and `str.lower()`. Words are ASCII `[A-Za-z0-9_]`, digits are `[0-9]`, and `lower()` changes only `A`-`Z`. Because of this, the line group is an ASCII digit string.
- Paths.Parse: `pathlib` keeps exactly two leading slashes as a distinct root. The model treats such a path as rooted at a single `/`.
- Think.ContextWindow: the characterisation of the window assumes `n + radius >= 0`. `build_prompt` always meets it (the line number is a digit string and the radius is 20). For other arguments the function computes Python's negative-index slice, but its contract says nothing about the result.
- MergeRequest.AnalysisContent: a `message` or `content` that is JSON `null` makes the source raise (`None.get`, `None + "\n"`). The model has no such value: those keys are present with a value or missing.
- JSON values of unexpected types are not modelled: a missing `title`, `changes`, `new_path`, `diff` or `new_file`, or a non-string `title` or `diff`. The model's records always have these fields with the types GitLab sends.
- Think.ParseInt: `int()` is modelled on ASCII digit strings only, and any other text raises. Signs, surrounding whitespace, underscores and non-ASCII digits are not modelled. The line group is always `\d+`, so such text never reaches it. The digit limit is CPython's default of 4300 (Python 3.11 and later). A limit changed with `sys.set_int_max_str_digits` or `PYTHONINTMAXSTRDIGITS`, and interpreters without a limit (before 3.10.7), are not modelled. The message follows CPython 3.12's wording.
