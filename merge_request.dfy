/** The two text builders of `mr.py`: the review prompt for a merge request's
    changes, and the markdown report that wraps the model's answer. The JSON
    documents they read are records here, with `Option` for keys that may be
    missing. */
module MergeRequest {
  import opened Wrappers
  import opened Builtins

  /** A JSON value that is either `null` or a string. */
  datatype JsonText = Null | Text(text: string)

  /** One entry of the `changes` list of GitLab's merge-request changes
      document: `new_path`, `diff` and `new_file`. */
  datatype FileChange = FileChange(newPath: string, diff: string, newFile: bool)

  /** The merge-request document: `title`, `description` (the key may be
      missing, and its value may be `null`) and `changes`. */
  datatype MergeRequestInfo = MergeRequestInfo(title: string, description: Option<JsonText>, changes: seq<FileChange>)

  /** The chat-completion document: `choices`, each with a `message` that
      has a `content`; any of these keys may be missing. A `choices` key that
      is missing and one that is `null` both read as `None`. */
  datatype Message = Message(content: Option<string>)
  datatype Choice = Choice(message: Option<Message>)
  datatype Completion = Completion(choices: Option<seq<Choice>>)

  /* ----------------------------------------------------------------------
     build_prompt
     ---------------------------------------------------------------------- */

  /** The review instructions and scoring rubric every prompt starts with. */
  const ReviewHeader: string :=
    "你是一个资深 Java 工程师，请帮我审查以下 Merge Request 中的代码变更，"
    + "专注指出潜在问题、潜在BUG、安全风险和改进建议。请将所有问题分为两类：\n"
    + "1. 一定要修改（严重影响程序运行或明显错误）\n"
    + "2. 建议修改（如可读性、结构优化等非紧急问题）\n\n"
    + "请根据以下评分细则，对整体代码质量进行打分（总分10分），并给出简短说明：\n\n"
    + "评分细则：\n"
    + "1. 代码正确性（最高4分）：\n"
    + "   - 4分：无语法或逻辑错误，异常处理完善\n"
    + "   - 3分：轻微问题，不影响功能\n"
    + "   - 2分：中等问题，部分功能可能异常\n"
    + "   - 1分：严重问题，易崩溃或错误\n"
    + "   - 0分：代码不可用\n\n"
    + "2. 安全性（最高3分）：\n"
    + "   - 3分：无安全隐患\n"
    + "   - 2分：存在轻微安全风险\n"
    + "   - 1分：明显安全风险\n"
    + "   - 0分：严重安全漏洞\n\n"
    + "3. 可读性（最高2分）：\n"
    + "   - 2分：结构清晰，命名合理，注释充分\n"
    + "   - 1分：一般，注释或命名不足\n"
    + "   - 0分：混乱，缺注释\n\n"
    + "4. 维护性（最高1分）：\n"
    + "   - 1分：结构合理，重复少，易扩展\n"
    + "   - 0分：耦合高，重复多，难扩展\n\n"
    + "请最后输出评分表格和总结。\n\n"

  /** The block one changed file adds to the prompt. */
  function ChangeBlock(c: FileChange): string
  {
    "\n文件：" + c.newPath + "\n变更内容：\n" + c.diff + "\n"
  }

  /** The blocks of a list of changes, one per change in list order. */
  function ChangeBlocks(changes: seq<FileChange>): string
  {
    ConcatMap(changes, ChangeBlock)
  }

  /** `build_prompt(changes)`. */
  method BuildPrompt(mr: MergeRequestInfo) returns (prompt: string)
    ensures prompt == ReviewHeader + ChangeBlocks(mr.changes)
    ensures |prompt| >= |ReviewHeader| && prompt[..|ReviewHeader|] == ReviewHeader
    ensures mr.changes == [] ==> prompt == ReviewHeader
  {
    prompt := ReviewHeader;
    for i := 0 to |mr.changes|
      invariant prompt == ReviewHeader + ChangeBlocks(mr.changes[..i])
    {
      assert mr.changes[..i + 1][..i] == mr.changes[..i];
      prompt := prompt + ChangeBlock(mr.changes[i]);
    }
    assert mr.changes[..|mr.changes|] == mr.changes;
  }

  /** The blocks of two lists of changes are the blocks of the first list
      followed by those of the second: every change contributes exactly its
      own block, in input order. */
  lemma ChangeBlocksAppend(a: seq<FileChange>, b: seq<FileChange>)
    ensures ChangeBlocks(a + b) == ChangeBlocks(a) + ChangeBlocks(b)
  {
    ConcatMapAppend(a, b, ChangeBlock);
  }

  /** The `k`-th change's block sits right after the blocks of the changes
      before it. */
  lemma ChangeBlockAt(changes: seq<FileChange>, k: nat)
    requires k < |changes|
    ensures ChangeBlocks(changes)
      == ChangeBlocks(changes[..k]) + ChangeBlock(changes[k]) + ChangeBlocks(changes[k + 1..])
  {
    ConcatMapAt(changes, k, ChangeBlock);
  }

  /* ----------------------------------------------------------------------
     generate_markdown_report
     ---------------------------------------------------------------------- */

  /** `mr_info.get('description', '无')` as an f-string prints it: the
      default when the key is missing, `None` for a JSON `null`. */
  function DescriptionText(description: Option<JsonText>): (d: string)
    ensures description.None? ==> d == "无"
    ensures description == Some(Null) ==> d == "None"
    ensures description.Some? && description.value.Text? ==> d == description.value.text
  {
    match description
    case None => "无"
    case Some(Null) => "None"
    case Some(Text(t)) => t
  }

  /** `change['new_file'] and '新增' or '修改'`. */
  function ChangeKind(newFile: bool): (k: string)
    ensures k == "新增" <==> newFile
    ensures k == "修改" <==> !newFile
  {
    if newFile then "新增" else "修改"
  }

  /** `- 文件: {new_path}`. */
  function FileLine(c: FileChange): string
  {
    "- 文件: " + c.newPath + "\n"
  }

  /** `  - 变更类型: {新增|修改}`. */
  function KindLine(c: FileChange): string
  {
    "  - 变更类型: " + ChangeKind(c.newFile) + "\n"
  }

  /** The two summary lines of one changed file. */
  function ChangeSummary(c: FileChange): string
  {
    FileLine(c) + KindLine(c)
  }

  function ChangeSummaries(changes: seq<FileChange>): string
  {
    ConcatMap(changes, ChangeSummary)
  }

  const NoAnalysis: string := "无分析结果"

  /** `choices[0].get('message', {}).get('content', '无分析结果')` when
      `choices` is a non-empty list, and the fallback otherwise. */
  function AnalysisContent(analysis: Completion): (content: string)
    ensures (analysis.choices.Some? && analysis.choices.value != []
             && analysis.choices.value[0].message.Some?
             && analysis.choices.value[0].message.value.content.Some?)
      ==> content == analysis.choices.value[0].message.value.content.value
    ensures (analysis.choices.None? || analysis.choices.value == []
             || analysis.choices.value[0].message.None?
             || analysis.choices.value[0].message.value.content.None?)
      ==> content == NoAnalysis
  {
    match analysis.choices
    case None => NoAnalysis
    case Some(choices) =>
      if |choices| > 0 then
        match choices[0].message
        case None => NoAnalysis
        case Some(m) =>
          match m.content
          case None => NoAnalysis
          case Some(text) => text
      else NoAnalysis
  }

  /** `# Merge Request 审查报告` and a blank line. */
  function ReportTitle(): string
  {
    "# Merge Request 审查报告\n\n"
  }

  /** `## MR标题: {title}` and a blank line. */
  function TitleLines(mr: MergeRequestInfo): string
  {
    "## MR标题: " + mr.title + "\n\n"
  }

  /** `## MR描述:`, the description and a blank line. */
  function DescriptionLines(mr: MergeRequestInfo): string
  {
    "## MR描述:\n" + DescriptionText(mr.description) + "\n\n"
  }

  /** `## 代码变更摘要:`. */
  function SummaryHeading(): string
  {
    "## 代码变更摘要:\n"
  }

  /** The title and description lines that open the report. */
  function ReportHead(mr: MergeRequestInfo): string
  {
    ReportTitle() + TitleLines(mr) + DescriptionLines(mr) + SummaryHeading()
  }

  /** The blank line and the analysis that close the report. */
  function ReportTail(analysis: Completion): string
  {
    "\n" + AnalysisContent(analysis) + "\n"
  }

  /** The report as `generate_markdown_report` builds it. */
  function Report(mr: MergeRequestInfo, analysis: Completion): (md: string)
  {
    ReportHead(mr) + ChangeSummaries(mr.changes) + ReportTail(analysis)
  }

  /** `generate_markdown_report(mr_info, analysis_result)`. */
  method GenerateMarkdownReport(mr: MergeRequestInfo, analysis: Completion) returns (md: string)
    ensures md == Report(mr, analysis)
  {
    md := ReportTitle();
    md := md + TitleLines(mr);
    md := md + DescriptionLines(mr);
    md := md + SummaryHeading();
    assert mr.changes[..0] == [];
    for i := 0 to |mr.changes|
      invariant md == ReportHead(mr) + ChangeSummaries(mr.changes[..i])
    {
      ghost var before := md;
      md := md + FileLine(mr.changes[i]);
      md := md + KindLine(mr.changes[i]);
      Assoc(before, FileLine(mr.changes[i]), KindLine(mr.changes[i]));
      ConcatMapSnoc(mr.changes, i, ChangeSummary);
      Assoc(ReportHead(mr), ChangeSummaries(mr.changes[..i]), ChangeSummary(mr.changes[i]));
    }
    assert mr.changes[..|mr.changes|] == mr.changes;
    ghost var body := md;
    md := md + "\n";
    var content := AnalysisContent(analysis);
    md := md + (content + "\n");
    Assoc(body, "\n", content + "\n");
  }

  /** The report opens with its title, the merge request's title and the
      description (or its default). */
  lemma ReportOpening(mr: MergeRequestInfo, analysis: Completion)
    ensures var head := ReportTitle() + TitleLines(mr) + DescriptionLines(mr);
      var md := Report(mr, analysis);
      |head| <= |md| && md[..|head|] == head
  {
    var head := ReportTitle() + TitleLines(mr) + DescriptionLines(mr);
    var rest := SummaryHeading() + ChangeSummaries(mr.changes);
    Assoc(head, SummaryHeading(), ChangeSummaries(mr.changes));
    Assoc(head, rest, ReportTail(analysis));
    PrefixOfAppend(head, rest + ReportTail(analysis));
  }

  /** The report ends with the analysis content on a line of its own. */
  lemma ReportEnding(mr: MergeRequestInfo, analysis: Completion)
    ensures var tail := "\n" + AnalysisContent(analysis) + "\n";
      var md := Report(mr, analysis);
      |tail| <= |md| && md[|md| - |tail|..] == tail
  {
    var tail := "\n" + AnalysisContent(analysis) + "\n";
    var front := ReportHead(mr) + ChangeSummaries(mr.changes);
    assert Report(mr, analysis) == front + "" + tail;
    SliceOfJoin(front, "", tail);
  }

  /** After the heading of the change summary, the `k`-th changed file's
      lines follow those of the files before it and precede those after it. */
  lemma ReportSummaryAt(mr: MergeRequestInfo, analysis: Completion, k: nat)
    requires k < |mr.changes|
    ensures Report(mr, analysis)
      == ReportHead(mr)
         + (ChangeSummaries(mr.changes[..k]) + ChangeSummary(mr.changes[k]) + ChangeSummaries(mr.changes[k + 1..]))
         + ReportTail(analysis)
  {
    ConcatMapAt(mr.changes, k, ChangeSummary);
  }
}
