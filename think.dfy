/** The prompt builder of `think.py`: it pulls the first three frames out of a
    Java error log, maps each frame's class to a source file under a base
    directory, cuts a window of lines around the reported line out of that
    file, and joins the pieces into one prompt text.

    The file system is a parameter: a map from paths to what opening the file
    for reading yields. */
module Think {
  import opened Wrappers
  import opened Builtins
  import opened Paths
  import opened StackTrace

  /** How many lines before and after the reported line the context shows. */
  const Radius: int := 20

  /** What opening a path for reading gives: the decoded text of the file,
      or an error other than "file not found" (a directory, no permission,
      bytes that are not UTF-8) with its message. A path that is not in the
      map does not exist. */
  datatype FileEntry = Text(text: string) | Unreadable(error: string)

  type FileSystem = map<Path, FileEntry>

  /* ----------------------------------------------------------------------
     class_path_to_file_path
     ---------------------------------------------------------------------- */

  /** `class_path.replace('.', '/') + '.java'`. */
  function SourceRelativePath(classPath: string): (rel: string)
    ensures |rel| == |classPath| + 5 && rel[|classPath|..] == ".java"
    ensures '.' !in rel[..|classPath|]
    ensures forall k :: 0 <= k < |classPath| ==> (rel[k] == '/' <==> classPath[k] in "./")
    ensures forall k :: 0 <= k < |classPath| ==> rel[k] == (if classPath[k] == '.' then '/' else classPath[k])
  {
    Replace(classPath, '.', '/') + ".java"
  }

  /** The relative path has one `/` for every `.` of a class name. */
  lemma SlashesAreDots(classPath: string)
    requires '/' !in classPath
    ensures Count(SourceRelativePath(classPath), '/') == Count(classPath, '.')
  {
    CountReplace(classPath, '.', '/');
    CountZero(classPath, '/');
    CountAppend(Replace(classPath, '.', '/'), ".java", '/');
    assert Count(".java", '/') == 0;
  }

  /** `class_path_to_file_path(class_path, base_path)`. */
  function ClassPathToFilePath(classPath: string, base: Path): (p: Path)
    ensures Valid(base) ==> Valid(p)
  {
    Append(base, Parse(SourceRelativePath(classPath)))
  }

  /** A class name as the JVM prints it: identifiers separated by single dots. */
  predicate DottedName(classPath: string)
  {
    var ids := Split(classPath, '.');
    forall i :: 0 <= i < |ids| ==> WordRun(ids[i])
  }

  /** The `/`-separated pieces of a dotted class name's relative path: the
      package components, then the simple name with `.java` appended, each
      kept by `pathlib` as a component. */
  lemma SourceRelativePieces(classPath: string)
    requires DottedName(classPath)
    ensures var ids := Split(classPath, '.');
      Split(SourceRelativePath(classPath), '/') == ids[..|ids| - 1] + [ids[|ids| - 1] + ".java"]
    ensures Normal(SourceRelativePath(classPath))
  {
    var ids := Split(classPath, '.');
    JoinSplit(classPath, '.');
    NotInJoin(ids, '.', '/');
    SplitReplace(classPath, '.', '/');
    SplitAppendTail(Replace(classPath, '.', '/'), ".java", '/');
    var parts := ids[..|ids| - 1] + [ids[|ids| - 1] + ".java"];
    assert Split(SourceRelativePath(classPath), '/') == parts;
    forall i | 0 <= i < |parts|
      ensures IsPart(parts[i])
    {
      WordRunIsPart(ids[i]);
      if i == |ids| - 1 {
        assert parts[i][0] == ids[i][0];
      }
    }
  }

  /** The path of a dotted class name: under the base directory, one directory
      per package component, then the simple name with `.java` appended. */
  lemma ClassFilePathParts(classPath: string, base: Path)
    requires DottedName(classPath)
    ensures var ids := Split(classPath, '.');
      ClassPathToFilePath(classPath, base)
      == Path(base.absolute, base.parts + ids[..|ids| - 1] + [ids[|ids| - 1] + ".java"])
  {
    var rel := SourceRelativePath(classPath);
    SourceRelativePieces(classPath);
    assert Parse(rel).parts == Split(rel, '/');
  }

  /** The text of that path: the base directory's text, a `/`, and the class
      name with its dots turned into slashes and `.java` appended. */
  lemma ClassFilePathText(classPath: string, base: Path)
    requires Valid(base) && DottedName(classPath)
    ensures ToString(ClassPathToFilePath(classPath, base))
      == DirPrefix(base) + SourceRelativePath(classPath)
  {
    var rel := SourceRelativePath(classPath);
    SourceRelativePieces(classPath);
    ToStringParse(rel);
    AppendToString(base, Parse(rel));
  }

  /** A doubled dot, as in the class group `a..B` of `at a..B.m(B.java:1)`,
      gives the text `a//B.java`. `pathlib` drops its empty piece, so the file
      is `a/B.java` under the base directory. */
  lemma DoubledDotFilePath(p: string, c: string, base: Path)
    requires WordRun(p) && WordRun(c)
    ensures ClassPathToFilePath(p + ".." + c, base) == Path(base.absolute, base.parts + [p, c + ".java"])
  {
    var name := p + ".." + c;
    var file := c + ".java";
    var tail := "" + "/" + file;
    var rel := SourceRelativePath(name);
    assert rel == p + "/" + tail by {
      var r := Replace(name, '.', '/');
      var want := p + "//" + c;
      assert |r| == |want|;
      forall k | 0 <= k < |r|
        ensures r[k] == want[k]
      {
        if k < |p| {
          assert name[k] == p[k] && IsWordChar(p[k]);
        } else if k >= |p| + 2 {
          assert name[k] == c[k - |p| - 2] && IsWordChar(c[k - |p| - 2]);
        }
      }
      assert r == want;
    }
    assert IsPart(file) by {
      WordRunIsPart(c);
      assert '/' !in ".java";
    }
    assert Parse(tail).parts == [file] by {
      ParseAround("", file);
      ParseOne(file);
      KeepPartsOne("");
    }
    assert Parse(rel).parts == [p, file] by {
      WordRunIsPart(p);
      ParseAround(p, tail);
      ParseOne(p);
    }
    assert !Parse(rel).absolute by {
      assert rel[0] == p[0] && IsWordChar(p[0]);
    }
  }

  /** A class group that starts with `.` (the pattern allows `at .a.b(...)`)
      gives a path rooted at `/`, and the base directory is dropped. */
  lemma LeadingDotEscapesBase(classPath: string, base: Path)
    requires classPath != [] && classPath[0] == '.'
    ensures ClassPathToFilePath(classPath, base) == Parse(SourceRelativePath(classPath))
    ensures ClassPathToFilePath(classPath, base).absolute
  {
    assert SourceRelativePath(classPath)[0] == '/';
  }

  /** A word run has no `/` and no `.`, so `pathlib` keeps it as a component. */
  lemma WordRunIsPart(w: string)
    requires WordRun(w)
    ensures '/' !in w && '.' !in w && IsPart(w)
  {
    assert forall k :: 0 <= k < |w| ==> w[k] != '/' && w[k] != '.';
  }

  /* ----------------------------------------------------------------------
     read_file_lines and extract_code_context
     ---------------------------------------------------------------------- */

  predicate NotNewline(ch: char) { ch != '\n' }

  /** Where `readlines` cuts the first line of `t`: just after the first
      `\n`, or at the end of a text without one. */
  function FirstLineEnd(t: string): (cut: nat)
    requires t != []
    ensures 0 < cut <= |t|
    ensures forall k :: 0 <= k < cut - 1 ==> t[k] != '\n'
    ensures cut < |t| ==> t[cut - 1] == '\n'
    ensures cut == |t| ==> t[cut - 1] == '\n' || '\n' !in t
  {
    var e := RunEnd(t, 0, NotNewline);
    if e < |t| then e + 1 else |t|
  }

  /** The shape of what `readlines` returns: no line is empty, each but the
      last ends with `\n`, and no line has a `\n` before its end. */
  predicate LineShaped(lines: seq<string>)
  {
    && (forall i :: 0 <= i < |lines| ==> lines[i] != [])
    && (forall i :: 0 <= i < |lines| - 1 ==> lines[i][|lines[i]| - 1] == '\n')
    && (forall i, k :: 0 <= i < |lines| && 0 <= k < |lines[i]| - 1 ==> lines[i][k] != '\n')
  }

  /** A first line without an inner `\n`, ending with one when more lines
      follow, keeps the shape. */
  lemma ConsLine(x: string, rest: seq<string>)
    requires x != [] && forall k :: 0 <= k < |x| - 1 ==> x[k] != '\n'
    requires rest != [] ==> x[|x| - 1] == '\n'
    requires LineShaped(rest)
    ensures LineShaped([x] + rest)
    ensures Concat([x] + rest) == x + Concat(rest)
  {
    var lines := [x] + rest;
    assert lines[1..] == rest;
    assert forall i :: 1 <= i < |lines| ==> lines[i] == rest[i - 1];
  }

  /** `f.readlines()`: the text cut after every `\n`, each line keeping its
      `\n`; the last line lacks one when the text does not end with `\n`. */
  function ReadLines(t: string): (lines: seq<string>)
    ensures Concat(lines) == t
    ensures LineShaped(lines)
    decreases |t|
  {
    if t == [] then []
    else
      var cut := FirstLineEnd(t);
      var rest := ReadLines(t[cut..]);
      assert rest != [] ==> cut < |t|;
      ConsLine(t[..cut], rest);
      TakeDrop(t, cut);
      [t[..cut]] + rest
  }

  /** `read_file_lines(file_path)`: no lines for a file that does not exist;
      any other failure to open or read the file propagates. */
  function ReadFileLines(fs: FileSystem, path: Path): (r: Outcome<seq<string>>)
    ensures path !in fs ==> r == Returned([])
    ensures path in fs && fs[path].Text? ==> r == Returned(ReadLines(fs[path].text))
    ensures path in fs && fs[path].Unreadable? ==> r == Raised(fs[path].error)
  {
    if path !in fs then Returned([])
    else match fs[path]
      case Text(t) => Returned(ReadLines(t))
      case Unreadable(e) => Raised(e)
  }

  /** The line at index `i` (counted from 0) is at most `radius` lines away
      from line number `n` (counted from 1). */
  predicate Near(i: int, n: int, radius: int)
  {
    n - 1 - radius <= i <= n - 1 + radius
  }

  /** `lines[max(0, n - radius - 1):min(len(lines), n + radius)]`. For a line
      number `n` (counted from 1) with `n + radius >= 0`, these are exactly the
      lines whose number is at most `radius` away from `n`, in file order. */
  function ContextWindow(lines: seq<string>, n: int, radius: int): (w: seq<string>)
    ensures n + radius >= 0 ==>
      var lo := Max(0, n - radius - 1);
      && (forall i :: 0 <= i < |lines| ==> (lo <= i < lo + |w| <==> Near(i, n, radius)))
      && (forall k :: 0 <= k < |w| ==> lo + k < |lines| && w[k] == lines[lo + k])
      && (radius >= 0 ==> |w| <= 2 * radius + 1)
  {
    PySlice(lines, Max(0, n - radius - 1), Min(|lines|, n + radius))
  }

  /** The marker `extract_code_context` returns for a missing or empty file. */
  function MissingFile(path: Path): string
  {
    "[文件不存在] " + ToString(path)
  }

  /** `extract_code_context(file_path, line_number, radius)`. */
  function ExtractCodeContext(fs: FileSystem, path: Path, n: int, radius: int): (r: Outcome<string>)
    ensures (path !in fs || fs[path] == Text("")) ==> r == Returned(MissingFile(path))
    ensures path in fs && fs[path].Unreadable? ==> r == Raised(fs[path].error)
    ensures path in fs && fs[path].Text? && fs[path].text != "" ==>
      r == Returned(Concat(ContextWindow(ReadLines(fs[path].text), n, radius)))
  {
    match ReadFileLines(fs, path)
    case Raised(e) => Raised(e)
    case Returned(lines) =>
      if lines == [] then Returned(MissingFile(path))
      else Returned(Concat(ContextWindow(lines, n, radius)))
  }

  /** The text of a readable, non-empty file's context is one contiguous
      piece of the file. */
  lemma ContextIsExcerpt(fs: FileSystem, path: Path, n: int, radius: int)
    requires path in fs && fs[path].Text? && fs[path].text != ""
    ensures var t := fs[path].text;
      exists a, b :: 0 <= a <= b <= |t| && ExtractCodeContext(fs, path, n, radius) == Returned(t[a..b])
  {
    var t := fs[path].text;
    var lines := ReadLines(t);
    var lo := SliceIndex(Max(0, n - radius - 1), |lines|);
    var hi := SliceIndex(Min(|lines|, n + radius), |lines|);
    if lo < hi {
      ConcatSlice(lines, lo, hi);
      var a := |Concat(lines[..lo])|;
      assert ExtractCodeContext(fs, path, n, radius) == Returned(t[a..a + |Concat(lines[lo..hi])|]);
    } else {
      assert ExtractCodeContext(fs, path, n, radius) == Returned(t[0..0]);
    }
  }

  /** A file with at least one line is shown by its window. */
  lemma NonEmptyFileContext(fs: FileSystem, path: Path, n: int, radius: int)
    requires path in fs && fs[path].Text? && ReadLines(fs[path].text) != []
    ensures ExtractCodeContext(fs, path, n, radius)
      == Returned(Concat(ContextWindow(ReadLines(fs[path].text), n, radius)))
  {
    var t := fs[path].text;
    assert t != "" by {
      assert t == [] ==> ReadLines(t) == [];
    }
  }

  /** The reported line, when the file has it, is part of the context. */
  lemma ContextShowsReportedLine(fs: FileSystem, path: Path, n: int, radius: int)
    requires path in fs && fs[path].Text?
    requires 1 <= n <= |ReadLines(fs[path].text)| && radius >= 0
    ensures var lines := ReadLines(fs[path].text);
      OccursIn(lines[n - 1], ExtractCodeContext(fs, path, n, radius).value)
  {
    var lines := ReadLines(fs[path].text);
    var w := ContextWindow(lines, n, radius);
    NonEmptyFileContext(fs, path, n, radius);
    assert Near(n - 1, n, radius);
    var k := n - 1 - Max(0, n - radius - 1);
    assert w[k] == lines[n - 1];
    ConcatElementOccurs(w, k);
  }

  /** A file no longer than the window around the reported line is shown whole. */
  lemma SmallFileShownWhole(fs: FileSystem, path: Path, n: int, radius: int)
    requires path in fs && fs[path].Text? && fs[path].text != ""
    requires n - radius - 1 <= 0 && n + radius >= |ReadLines(fs[path].text)|
    ensures ExtractCodeContext(fs, path, n, radius) == Returned(fs[path].text)
  {
    var lines := ReadLines(fs[path].text);
    assert ContextWindow(lines, n, radius) == lines[0..|lines|];
    assert lines[0..|lines|] == lines;
  }

  /** CPython's default limit on the digits `int()` converts from a string
      (`sys.int_info.default_max_str_digits`, Python 3.11 and later). */
  const IntMaxStrDigits: nat := 4300

  /** The `ValueError` message of `int()` for a digit string over the limit. */
  function DigitLimitMessage(digits: nat): string
  {
    "Exceeds the limit (" + NatToDecimal(IntMaxStrDigits) + " digits) for integer string conversion: value has "
      + NatToDecimal(digits) + " digits; use sys.set_int_max_str_digits() to increase the limit"
  }

  /** `int(line_str)`: the value of a decimal digit string of at most
      `IntMaxStrDigits` digits; a longer digit string, or any other text,
      raises `ValueError`. */
  function ParseInt(s: string): (r: Outcome<nat>)
    ensures DigitRun(s) && |s| <= IntMaxStrDigits ==> r == Returned(DecimalValue(s))
    ensures DigitRun(s) && |s| > IntMaxStrDigits ==> r == Raised(DigitLimitMessage(|s|))
    ensures !DigitRun(s) ==> r.Raised?
  {
    if !DigitRun(s) then Raised("invalid literal for int() with base 10: '" + s + "'")
    else if |s| > IntMaxStrDigits then Raised(DigitLimitMessage(|s|))
    else Returned(DecimalValue(s))
  }

  /** The context of one frame, as the loop of `build_prompt` computes it:
      an exception while extracting becomes a bracketed message. */
  function CodeContext(fs: FileSystem, base: Path, f: Frame): string
  {
    var result :=
      match ParseInt(f.line)
      case Raised(e) => Raised(e)
      case Returned(n) => ExtractCodeContext(fs, ClassPathToFilePath(f.classPath, base), n, Radius);
    match result
    case Returned(text) => text
    case Raised(e) => "[无法提取代码上下文: " + e + "]"
  }

  /** What a frame's context shows, by the length of its line number and the
      state of its file. */
  lemma CodeContextCases(fs: FileSystem, base: Path, f: Frame)
    requires WellFormed(f)
    ensures var path := ClassPathToFilePath(f.classPath, base);
      var ctx := CodeContext(fs, base, f);
      && (|f.line| > IntMaxStrDigits ==> ctx == "[无法提取代码上下文: " + DigitLimitMessage(|f.line|) + "]")
      && (|f.line| <= IntMaxStrDigits && (path !in fs || fs[path] == Text("")) ==> ctx == MissingFile(path))
      && (|f.line| <= IntMaxStrDigits && path in fs && fs[path].Unreadable? ==>
            ctx == "[无法提取代码上下文: " + fs[path].error + "]")
      && (|f.line| <= IntMaxStrDigits && path in fs && fs[path].Text? && fs[path].text != "" ==>
            ctx == Concat(ContextWindow(ReadLines(fs[path].text), DecimalValue(f.line), Radius)))
  {
  }

  /** For a dotted class name whose file does not exist, the marker names the
      file by the base directory and the class name. */
  lemma MissingFileNamesClass(fs: FileSystem, base: Path, f: Frame)
    requires WellFormed(f) && Valid(base) && DottedName(f.classPath)
    requires ClassPathToFilePath(f.classPath, base) !in fs
    ensures |f.line| <= IntMaxStrDigits ==>
      CodeContext(fs, base, f) == "[文件不存在] " + DirPrefix(base) + SourceRelativePath(f.classPath)
  {
    CodeContextCases(fs, base, f);
    ClassFilePathText(f.classPath, base);
  }

  /* ----------------------------------------------------------------------
     build_prompt
     ---------------------------------------------------------------------- */

  const Header: string := "你是一位经验丰富的 Java 开发专家，请根据以下错误日志和相关代码，分析问题原因并给出修改建议。"

  const Closing: string := "\n请基于以上信息，分析问题并提供可行的代码修改建议。"

  function LogSection(log: string): string
  {
    "\n【错误日志全文】\n" + Strip(log)
  }

  /** The piece for the `idx`-th frame (counted from 1). */
  function FrameSection(idx: nat, f: Frame, context: string): string
  {
    "\n【第" + NatToDecimal(idx) + "处异常位置】\n类名: " + f.classPath + "\n文件: " + f.fileName
    + "\n行号: " + f.line + "\n相关代码上下文:\n" + context
  }

  /** The section of the `idx`-th frame with the context of its file. */
  function SectionOf(fs: FileSystem, base: Path): (nat, Frame) -> string
  {
    (idx: nat, f: Frame) => FrameSection(idx, f, CodeContext(fs, base, f))
  }

  /** The sections of the frames, numbered from 1 as `enumerate(..., start=1)`
      numbers them. */
  function FrameSections(fs: FileSystem, base: Path, frames: seq<Frame>): (parts: seq<string>)
    ensures |parts| == |frames|
    ensures forall k :: 0 <= k < |frames| ==> parts[k] == FrameSection(k + 1, frames[k], CodeContext(fs, base, frames[k]))
  {
    Enumerate(frames, SectionOf(fs, base))
  }

  /** One more frame adds its section at the end. */
  lemma FrameSectionsSnoc(fs: FileSystem, base: Path, frames: seq<Frame>, i: nat)
    requires i < |frames|
    ensures FrameSections(fs, base, frames[..i + 1])
      == FrameSections(fs, base, frames[..i]) + [FrameSection(i + 1, frames[i], CodeContext(fs, base, frames[i]))]
  {
    EnumerateSnoc(frames, i, SectionOf(fs, base));
  }

  /** The first two parts of the prompt: the instruction and the log. */
  function Opening(log: string): seq<string>
  {
    [Header, LogSection(log)]
  }

  /** The list `prompt_parts` that `build_prompt` joins. */
  function PromptParts(fs: FileSystem, log: string, base: Path): (parts: seq<string>)
  {
    Opening(log) + FrameSections(fs, base, ParseStackTrace(log, DefaultLimit)) + [Closing]
  }

  /** `build_prompt(log_text, base_code_path)`. */
  method BuildPrompt(fs: FileSystem, log: string, base: Path) returns (prompt: string)
    ensures prompt == Join("\n", PromptParts(fs, log, base))
  {
    var entries := ParseStackTrace(log, DefaultLimit);
    var parts := Opening(log);
    for i := 0 to |entries|
      invariant parts == Opening(log) + FrameSections(fs, base, entries[..i])
    {
      var context := CodeContext(fs, base, entries[i]);
      FrameSectionsSnoc(fs, base, entries, i);
      Assoc(Opening(log), FrameSections(fs, base, entries[..i]), [FrameSection(i + 1, entries[i], context)]);
      parts := parts + [FrameSection(i + 1, entries[i], context)];
    }
    assert entries[..|entries|] == entries;
    parts := parts + [Closing];
    prompt := Join("\n", parts);
  }

  /** `'\n'.join([h, l] + sections + [c])` spelled out: the separator goes in front
      of everything after the first part. */
  lemma JoinedParts(h: string, l: string, sections: seq<string>, c: string)
    ensures Join("\n", [h, l] + sections + [c])
      == h + "\n" + l + Concat(Prefixed("\n", sections)) + "\n" + c
  {
    var rest := [l] + sections + [c];
    assert [h, l] + sections + [c] == [h] + rest;
    JoinCons("\n", h, rest);
    assert Prefixed("\n", rest) == ["\n" + l] + Prefixed("\n", sections) + ["\n" + c];
    ConcatAppend(["\n" + l] + Prefixed("\n", sections), ["\n" + c]);
    ConcatAppend(["\n" + l], Prefixed("\n", sections));
    assert Concat(["\n" + l]) == "\n" + l;
    assert Concat(["\n" + c]) == "\n" + c;
  }

  /** The prompt is the instruction, the stripped log, then for each of the
      first three frames its section, then the closing request, joined with
      `\n`. */
  lemma PromptText(fs: FileSystem, log: string, base: Path)
    ensures var frames := ParseStackTrace(log, DefaultLimit);
      Join("\n", PromptParts(fs, log, base))
      == Header + "\n" + LogSection(log) + Concat(Prefixed("\n", FrameSections(fs, base, frames))) + "\n" + Closing
  {
    JoinedParts(Header, LogSection(log), FrameSections(fs, base, ParseStackTrace(log, DefaultLimit)), Closing);
  }

  /** The prompt has one part per frame besides its three fixed parts, and
      at most three frames. */
  lemma PromptPartCount(fs: FileSystem, log: string, base: Path)
    ensures |PromptParts(fs, log, base)| == |ParseStackTrace(log, DefaultLimit)| + 3 <= 6
  {
    AtMostDefaultLimit(log);
  }

  /** A log in which no frame matches gives the instruction, the log and the
      closing request only. */
  lemma PromptWithoutFrames(fs: FileSystem, log: string, base: Path)
    requires forall p :: 0 <= p < |log| ==> NoMatchAt(log, p)
    ensures Join("\n", PromptParts(fs, log, base)) == Header + "\n" + LogSection(log) + "\n" + Closing
  {
    NoMatchNoFrames(log, DefaultLimit);
    PromptText(fs, log, base);
    assert FrameSections(fs, base, []) == [];
    assert Prefixed("\n", []) == [];
  }

  /** Each frame's section, numbered from 1 in the order the frames occur,
      is part of the prompt. */
  lemma FrameSectionInPrompt(fs: FileSystem, log: string, base: Path, k: nat)
    requires k < |ParseStackTrace(log, DefaultLimit)|
    ensures var f := ParseStackTrace(log, DefaultLimit)[k];
      OccursIn(FrameSection(k + 1, f, CodeContext(fs, base, f)), Join("\n", PromptParts(fs, log, base)))
  {
    var parts := PromptParts(fs, log, base);
    assert parts[k + 2] == FrameSections(fs, base, ParseStackTrace(log, DefaultLimit))[k];
    JoinPieceOccurs("\n", parts, k + 2);
  }
}
