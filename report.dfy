/**
 * The reports the diff generator builds from a commit record, the diff text
 * and the change statistics: the JSON report's counts and short hashes, the
 * markdown summary with its conditional initial-commit note, and the choice of
 * which part of the review service's answer is handed to the formatter.
 */
module Report {
  import opened Str
  import opened GitInfo
  import opened Wrappers

  // ---------------------------------------------------------------------------
  // JSON report

  /** Python `h[:8]`: the abbreviated commit hash. */
  function ShortHash(hash: string): (short: string)
    ensures |short| == if |hash| < 8 then |hash| else 8
    ensures StartsWith(hash, short)
  {
    Prefix(hash, 8)
  }

  /** The number of pieces `split('\n')` makes of the diff. */
  function DiffLineCount(diff: string): (n: nat)
    ensures n == CountChar(diff, '\n') + 1
  {
    SplitCount(diff);
    |Split(diff)|
  }

  /** The positions of the lines that contain `c`. */
  function IndicesWith(lines: seq<string>, c: char): set<int> {
    set i | 0 <= i < |lines| && c in lines[i]
  }

  /** How many of `lines` contain `c` (a counting list comprehension). */
  function CountWithChar(lines: seq<string>, c: char): (n: nat)
    ensures n == |IndicesWith(lines, c)|
    ensures n <= |lines|
    ensures n == 0 <==> forall i :: 0 <= i < |lines| ==> c !in lines[i]
  {
    if lines == [] then 0
    else
      var m := |lines| - 1;
      var front := lines[..m];
      assert forall i :: 0 <= i < m ==> front[i] == lines[i];
      assert IndicesWith(lines, c) == IndicesWith(front, c) + (if c in lines[m] then {m} else {});
      CountWithChar(front, c) + (if c in lines[m] then 1 else 0)
  }

  /** The lines of the stripped statistics that contain `|`: one per changed file in `--stat` output. */
  function ChangedFiles(stats: string): (n: nat)
    ensures n == |IndicesWith(Split(Strip(stats)), '|')|
    ensures n == 0 <==> '|' !in stats
    ensures n <= |Split(Strip(stats))|
  {
    NoCharInSplit(Strip(stats), '|');
    StripKeepsNonSpace(stats, '|');
    CountWithChar(Split(Strip(stats)), '|')
  }

  /** The changed-file count never exceeds the newline count of the stripped statistics plus one. */
  lemma ChangedFilesCounted(stats: string)
    ensures ChangedFiles(stats) <= CountChar(Strip(stats), '\n') + 1
  {
    SplitCount(Strip(stats));
  }

  datatype Metadata = Metadata(
    generator: string, version: string, timestamp: string, contextLines: int, isInitialCommit: bool)

  datatype CommitEntry = CommitEntry(hash: string, shortHash: string, message: string)

  datatype Statistics = Statistics(totalDiffLines: nat, changedFiles: nat, contextLines: int)

  /** The JSON report, field for field. */
  datatype JsonReport = JsonReport(
    metadata: Metadata,
    previous: CommitEntry,
    current: CommitEntry,
    author: string,
    statistics: Statistics,
    filesStats: string,
    diffContent: string)

  /** A commit's entry: its hash, the first eight characters of it, and its subject. */
  function Entry(hash: string, message: string): (entry: CommitEntry)
    ensures entry.hash == hash && entry.message == message
    ensures StartsWith(hash, entry.shortHash) && |entry.shortHash| == if |hash| < 8 then |hash| else 8
  {
    CommitEntry(hash, ShortHash(hash), message)
  }

  /**
   * The JSON report: the diff's line count is its newline count plus one, the
   * changed-file count is the number of `|` lines in the stripped statistics,
   * and both texts are carried verbatim.
   */
  function CreateJsonReport(info: CommitInfo, contextLines: int, diff: string, stats: string): (report: JsonReport)
    ensures report.statistics.totalDiffLines == CountChar(diff, '\n') + 1
    ensures report.statistics.changedFiles == |IndicesWith(Split(Strip(stats)), '|')|
    ensures report.statistics.changedFiles == 0 <==> '|' !in stats
    ensures report.statistics.changedFiles <= CountChar(Strip(stats), '\n') + 1
    ensures report.previous.hash == info.previousCommit && report.current.hash == info.currentCommit
    ensures report.previous.message == info.previousMessage && report.current.message == info.currentMessage
    ensures StartsWith(info.previousCommit, report.previous.shortHash)
    ensures |report.previous.shortHash| == if |info.previousCommit| < 8 then |info.previousCommit| else 8
    ensures StartsWith(info.currentCommit, report.current.shortHash)
    ensures |report.current.shortHash| == if |info.currentCommit| < 8 then |info.currentCommit| else 8
    ensures report.author == info.author && report.metadata.timestamp == info.timestamp
    ensures report.metadata.generator == "Python Diff Generator" && report.metadata.version == "1.0.0"
    ensures report.metadata.isInitialCommit == info.isInitialCommit
    ensures report.metadata.contextLines == contextLines == report.statistics.contextLines
    ensures report.filesStats == stats && report.diffContent == diff
  {
    ChangedFilesCounted(stats);
    JsonReport(
      Metadata("Python Diff Generator", "1.0.0", info.timestamp, contextLines, info.isInitialCommit),
      Entry(info.previousCommit, info.previousMessage),
      Entry(info.currentCommit, info.currentMessage),
      info.author,
      Statistics(DiffLineCount(diff), ChangedFiles(stats), contextLines),
      stats,
      diff)
  }

  // ---------------------------------------------------------------------------
  // Markdown summary

  const InitialCommitNote := "\n> **Note:** This appears to be the initial commit in the repository."

  /** The summary up to and including the timestamp value. */
  function SummaryHead(info: CommitInfo, contextLines: int): string {
    "# Code Diff Summary\n\n## Commit Information\n"
    + "- **Previous Commit:** `" + ShortHash(info.previousCommit) + "`\n"
    + "- **Current Commit:** `" + ShortHash(info.currentCommit) + "`\n"
    + "- **Author:** " + info.author + "\n"
    + "- **Context Lines:** ±" + IntToString(contextLines) + "\n"
    + "- **Timestamp:** " + info.timestamp
  }

  function NotePart(info: CommitInfo): string {
    if info.isInitialCommit then InitialCommitNote else ""
  }

  function MessagesSection(info: CommitInfo): string {
    "\n\n## Commit Messages\n- **Previous:** " + info.previousMessage + "\n- **Current:** " + info.currentMessage
  }

  function StatsSection(stats: string): string {
    "\n\n## Changed Files Statistics\n```\n" + stats + "\n```"
  }

  /** The diff inside a `diff` fence. */
  function DiffBlock(diff: string): string {
    "```diff\n" + diff + "\n```"
  }

  const SummaryFooter := "\n\n---\n*Generated by Python Diff Generator Script*\n"

  /** Everything after the timestamp and the optional note. */
  function SummaryTail(info: CommitInfo, diff: string, stats: string): string {
    MessagesSection(info) + StatsSection(stats) + "\n\n## Detailed Diff\n" + DiffBlock(diff) + SummaryFooter
  }

  /**
   * The markdown summary: the commit section, with the initial-commit note
   * right after the timestamp on a first commit, then the messages, the
   * statistics and the diff in a `diff` fence.
   */
  function CreateMarkdownSummary(info: CommitInfo, contextLines: int, diff: string, stats: string): (summary: string)
    ensures StartsWith(summary, SummaryHead(info, contextLines))
    ensures Contains(summary, DiffBlock(diff))
    ensures info.isInitialCommit ==> Contains(summary, InitialCommitNote)
  {
    var head := SummaryHead(info, contextLines);
    var note := NotePart(info);
    var tail := SummaryTail(info, diff, stats);
    SummaryParts(head, note, MessagesSection(info), StatsSection(stats), "\n\n## Detailed Diff\n",
      DiffBlock(diff), SummaryFooter);
    head + note + tail
  }

  /** Where the head, the note and the diff block sit in a summary built from its parts. */
  lemma SummaryParts(head: string, note: string, m: string, s: string, h: string, d: string, f: string)
    ensures var summary := head + note + (m + s + h + d + f);
      && StartsWith(summary, head)
      && Contains(summary, note)
      && Contains(summary, d)
  {
    var summary := head + note + (m + s + h + d + f);
    assert summary[..|head|] == head;
    ContainsMiddle(head, note, m + s + h + d + f);
    assert summary == (head + note + m + s + h) + d + f;
    ContainsMiddle(head + note + m + s + h, d, f);
  }

  /**
   * The initial-commit note is the only difference between the summaries of a
   * first commit and of any other commit with the same fields: it is inserted
   * right after the timestamp.
   */
  lemma InitialNoteInserted(info: CommitInfo, contextLines: int, diff: string, stats: string) returns (k: nat)
    ensures var first := CreateMarkdownSummary(info.(isInitialCommit := true), contextLines, diff, stats);
      var later := CreateMarkdownSummary(info.(isInitialCommit := false), contextLines, diff, stats);
      && k <= |later|
      && first == later[..k] + InitialCommitNote + later[k..]
      && later[..k] == SummaryHead(info, contextLines)
  {
    var head := SummaryHead(info, contextLines);
    var tail := SummaryTail(info, diff, stats);
    assert SummaryHead(info.(isInitialCommit := true), contextLines) == head;
    assert SummaryHead(info.(isInitialCommit := false), contextLines) == head;
    assert SummaryTail(info.(isInitialCommit := true), diff, stats) == tail;
    assert SummaryTail(info.(isInitialCommit := false), diff, stats) == tail;
    var later := head + "" + tail;
    k := |head|;
    assert later[..k] == head && later[k..] == tail;
  }

  // ---------------------------------------------------------------------------
  // Choosing the review text

  /** A decoded JSON value. */
  datatype Json =
    | JNull
    | JBool(b: bool)
    | JNum(n: int)
    | JStr(s: string)
    | JArr(items: seq<Json>)
    | JObj(fields: map<string, Json>)

  /**
   * What is handed to the formatter: a value taken as it is, the `str()`
   * rendering of a value, or an exception raised while looking.
   */
  datatype Selection = Taken(value: Json) | Rendered(value: Json) | Raises

  /** Python `len(v)`, or `None` where it raises. */
  function Length(v: Json): (n: Option<nat>)
    ensures n.Some? <==> v.JStr? || v.JArr? || v.JObj?
  {
    match v
    case JStr(s) => Some(|s|)
    case JArr(items) => Some(|items|)
    case JObj(fields) => Some(|fields|)
    case _ => None
  }

  /** Python `v[0]` on a value whose length is positive, or `None` where it raises. */
  function First(v: Json): (first: Option<Json>)
    requires Length(v).Some? && Length(v).value > 0
    ensures v.JObj? <==> first.None?
  {
    match v
    case JStr(s) => Some(JStr([s[0]]))
    case JArr(items) => Some(items[0])
    case JObj(_) => None
  }

  /**
   * `'content' in m` and `m['content']` on the first message: a dictionary
   * answers by key, a list by element and then fails on the lookup, a string
   * by substring, and any other value fails on the membership test.
   */
  function ContentOf(message: Json): (s: Selection)
    ensures s.Taken? && s.value != JStr("") ==> message.JObj? && "content" in message.fields
    ensures message.JObj? ==> s == Taken(if "content" in message.fields then message.fields["content"] else JStr(""))
  {
    match message
    case JObj(fields) => if "content" in fields then Taken(fields["content"]) else Taken(JStr(""))
    case JArr(items) => if JStr("content") in items then Raises else Taken(JStr(""))
    case JStr(s) => if Contains(s, "content") then Raises else Taken(JStr(""))
    case _ => Raises
  }

  /**
   * The review text: the first message's `content` when `messages` is present
   * and non-empty, otherwise the rendering of `predictions`, otherwise of
   * `response`, otherwise of the whole answer.
   */
  function SelectReviewText(review: Json): (s: Selection)
    ensures !review.JObj? ==> s == Rendered(review)
    ensures review.JObj? && "messages" !in review.fields ==>
      s == if "predictions" in review.fields then Rendered(review.fields["predictions"])
           else if "response" in review.fields then Rendered(review.fields["response"])
           else Rendered(review)
  {
    match review
    case JObj(fields) =>
      if "messages" in fields then
        match Length(fields["messages"])
        case None => Raises
        case Some(n) =>
          if n > 0 then
            match First(fields["messages"])
            case None => Raises
            case Some(message) => ContentOf(message)
          else if "predictions" in fields then Rendered(fields["predictions"])
          else if "response" in fields then Rendered(fields["response"])
          else Rendered(review)
      else if "predictions" in fields then Rendered(fields["predictions"])
      else if "response" in fields then Rendered(fields["response"])
      else Rendered(review)
    case _ => Rendered(review)
  }

  /** A non-empty message list wins over `predictions` and `response`: its first message's content is taken. */
  lemma FirstMessageContentTaken(fields: map<string, Json>, messages: seq<Json>, content: Json)
    requires "messages" in fields && fields["messages"] == JArr(messages) && messages != []
    requires messages[0].JObj? && "content" in messages[0].fields && messages[0].fields["content"] == content
    ensures SelectReviewText(JObj(fields)) == Taken(content)
  {
  }

  /** A first message without `content` gives the empty text, even when `predictions` or `response` are present. */
  lemma MissingContentGivesEmpty(fields: map<string, Json>, messages: seq<Json>)
    requires "messages" in fields && fields["messages"] == JArr(messages) && messages != []
    requires messages[0].JObj? && "content" !in messages[0].fields
    ensures SelectReviewText(JObj(fields)) == Taken(JStr(""))
  {
  }

  /** An empty message list is passed over: `predictions`, then `response`, then the whole answer. */
  lemma EmptyMessagesPassedOver(fields: map<string, Json>)
    requires "messages" in fields && fields["messages"] == JArr([])
    ensures SelectReviewText(JObj(fields)) ==
      if "predictions" in fields then Rendered(fields["predictions"])
      else if "response" in fields then Rendered(fields["response"])
      else Rendered(JObj(fields))
  {
  }
}
