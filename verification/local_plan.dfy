/**
 * The front end's own reader of markdown study plans
 * (`parseMarkdownLocally` in src/lib/dataService.ts), used when the backend
 * parser is unavailable. Each line is trimmed; a `#`/`##` header naming a
 * `DDDD-DD-DD` date sets the current date, and a task-list line
 * `- [ ] …`/`- [x] …` becomes a task whose words are split into hashtags
 * (priority words or lower-cased tags) and title words. Today's date is a
 * parameter.
 */
module LocalPlan {
  import opened Wrappers
  import opened Text
  import opened Numbers
  import opened ClockDate
  import opened TaskService

  /** `ImportReport`: the local reader creates and skips nothing. */
  datatype LocalReport = LocalReport(total: nat, created: nat, skipped: nat, tasks: seq<ImportedTask>)

  predicate KnownPriority(p: string) {
    p == "high" || p == "medium" || p == "low"
  }

  // ---------------------------------------------------------------- the two line patterns

  /** What `(.+)` captures of `s`: everything up to the first line terminator. */
  function CaptureToLineEnd(s: string): string {
    TakeWord(s, IsJsLineTerminator)
  }

  /** `^#{1,2}\s+(.+)` on a trimmed line: the captured header text. */
  function HeaderText(trimmed: string): Option<string> {
    if trimmed == [] || trimmed[0] != '#' then None
    else
      var hashes := if |trimmed| >= 2 && trimmed[1] == '#' then 2 else 1;
      if |trimmed| <= hashes || !IsJsSpace(trimmed[hashes]) then None
      else
        // a trimmed line never ends in white space, so `after` is not empty
        var after := TrimStart(trimmed[hashes..], IsJsSpace);
        if after == [] then None else Some(CaptureToLineEnd(after))
  }

  /** The date a header line sets: the first `\d{4}-\d{2}-\d{2}` of its text. */
  function HeaderDate(trimmed: string): (r: Option<string>)
    ensures r.Some? ==> IsIsoDate(r.value)
  {
    match HeaderText(trimmed)
    case Some(text) => IsoDate(text)
    case None => None
  }

  /** The current date after a line: the header's date, or the one before. */
  function NextDate(trimmed: string, currentDate: string): string {
    match HeaderDate(trimmed)
    case Some(d) => d
    case None => currentDate
  }

  /** `- [` then a space, `x` or `X`, then `]` and white space: the task-list marker. */
  predicate TaskMarker(trimmed: string) {
    |trimmed| >= 6 && trimmed[..3] == "- [" && (trimmed[3] == ' ' || trimmed[3] == 'x' || trimmed[3] == 'X')
    && trimmed[4] == ']' && IsJsSpace(trimmed[5])
  }

  /** `^- \[([ xX])\]\s+(.+)` on a trimmed line: whether the box is ticked, and the captured text. */
  function TaskMatch(trimmed: string): Option<(bool, string)> {
    if !TaskMarker(trimmed) then None
    else
      var after := TrimStart(trimmed[5..], IsJsSpace);
      if after == [] then None else Some((trimmed[3] != ' ', CaptureToLineEnd(after)))
  }

  // ---------------------------------------------------------------- the inline date

  /** The first position at or after `from` of `@` followed by a date window. */
  function FirstAtDate(s: string, from: nat): (r: Option<nat>)
    ensures r.Some? ==> from <= r.value && r.value + 11 <= |s| && s[r.value] == '@' && IsoDateAt(s, r.value + 1)
    ensures r.None? ==> forall j :: from <= j && j + 11 <= |s| ==> !(s[j] == '@' && IsoDateAt(s, j + 1))
    decreases |s| - from
  {
    if from + 11 > |s| then None
    else if s[from] == '@' && IsoDateAt(s, from + 1) then Some(from)
    else FirstAtDate(s, from + 1)
  }

  /**
   * The task's date and remaining text: the first `@date` is cut out, its
   * date taken, and the rest trimmed; without one, the current date and the
   * text as captured.
   */
  function InlineDate(rest: string, currentDate: string): (r: (string, string))
    ensures FirstAtDate(rest, 0).Some? ==> IsIsoDate(r.0)
    ensures FirstAtDate(rest, 0).Some? ==> var k := FirstAtDate(rest, 0).value;
      r == (rest[k + 1..k + 11], Trim(rest[..k] + rest[k + 11..], IsJsSpace))
    ensures FirstAtDate(rest, 0).None? ==> r == (currentDate, rest)
  {
    match FirstAtDate(rest, 0)
    case Some(k) => (rest[k + 1..k + 11], Trim(rest[..k] + rest[k + 11..], IsJsSpace))
    case None => (currentDate, rest)
  }

  // ---------------------------------------------------------------- the words of a task

  /** The priority, tags and title words gathered from a task's words. */
  datatype WordScan = WordScan(priority: string, tags: seq<string>, titleParts: seq<string>)

  const StartScan := WordScan("medium", [], [])

  /** A hashtag naming a priority, in any case: it never becomes a tag. */
  predicate ReservedTag(tag: string) {
    tag == "high" || tag == "urgent" || tag == "low" || tag == "medium"
  }

  /** A word that sets the priority: `#high`, `#urgent` or `#low`, in any case. */
  predicate PriorityWord(w: string) {
    StartsWith(w, "#") && var tag := Lower(w[1..]); tag == "high" || tag == "urgent" || tag == "low"
  }

  function IsTitleWord(w: string): bool {
    !StartsWith(w, "#")
  }

  /** One word of the loop: a hashtag adjusts the priority or adds a tag; any other word is title. */
  function ScanWord(sc: WordScan, word: string): WordScan {
    if StartsWith(word, "#") then
      var tag := Lower(word[1..]);
      if tag == "high" || tag == "urgent" then sc.(priority := "high")
      else if tag == "low" then sc.(priority := "low")
      else if tag != "medium" then sc.(tags := sc.tags + [tag])
      else sc
    else sc.(titleParts := sc.titleParts + [word])
  }

  /** The loop over all the words, left to right. */
  function ScanWords(words: seq<string>): WordScan
    decreases |words|
  {
    if words == [] then StartScan
    else ScanWord(ScanWords(words[..|words| - 1]), words[|words| - 1])
  }

  /** The scan keeps a known priority, which stays medium unless a priority word occurs. */
  lemma {:induction false} ScanPriority(words: seq<string>)
    ensures KnownPriority(ScanWords(words).priority)
    ensures (forall w :: w in words ==> !PriorityWord(w)) ==> ScanWords(words).priority == "medium"
    decreases |words|
  {
    if words != [] {
      var init := words[..|words| - 1];
      var w := words[|words| - 1];
      ScanPriority(init);
      assert w in words;
      assert forall x :: x in init ==> x in words;
    }
  }

  /** Every tag is lower case and never a priority name. */
  lemma {:induction false} ScanTags(words: seq<string>)
    ensures forall tag :: tag in ScanWords(words).tags ==> Lower(tag) == tag && !ReservedTag(tag)
    decreases |words|
  {
    if words != [] {
      var w := words[|words| - 1];
      ScanTags(words[..|words| - 1]);
      if StartsWith(w, "#") {
        LowerIdempotent(w[1..]);
      }
    }
  }

  /** One word adds itself to the title exactly when it is not a hashtag. */
  lemma ScanWordTitle(sc: WordScan, w: string)
    ensures ScanWord(sc, w).titleParts == sc.titleParts + (if IsTitleWord(w) then [w] else [])
  {
  }

  /** The title words are exactly the words that are not hashtags, in order. */
  lemma {:induction false} ScanTitle(words: seq<string>)
    ensures ScanWords(words).titleParts == Filter(words, IsTitleWord)
    decreases |words|
  {
    if words != [] {
      var init := words[..|words| - 1];
      var w := words[|words| - 1];
      calc {
        ScanWords(words).titleParts;
      == { ScanWordTitle(ScanWords(init), w); }
        ScanWords(init).titleParts + (if IsTitleWord(w) then [w] else []);
      == { ScanTitle(init); }
        Filter(init, IsTitleWord) + (if IsTitleWord(w) then [w] else []);
      == { assert Filter([w], IsTitleWord) == if IsTitleWord(w) then [w] else [];
           FilterAppend(init, [w], IsTitleWord);
           assert init + [w] == words; }
        Filter(words, IsTitleWord);
      }
    }
  }

  /** A hashtag that names no priority: it becomes a tag. */
  predicate TagWord(w: string) {
    StartsWith(w, "#") && !ReservedTag(Lower(w[1..]))
  }

  /** The tag a hashtag names: what follows the `#`, in lower case. */
  function TagName(w: string): string {
    if w == "" then "" else Lower(w[1..])
  }

  /** The names of some hashtags, in order. */
  function TagNames(ws: seq<string>): seq<string> {
    seq(|ws|, i requires 0 <= i < |ws| => TagName(ws[i]))
  }

  lemma TagNamesAppend(a: seq<string>, b: seq<string>)
    ensures TagNames(a + b) == TagNames(a) + TagNames(b)
  {
    var joined := TagNames(a + b);
    var apart := TagNames(a) + TagNames(b);
    assert |joined| == |apart|;
    forall i | 0 <= i < |joined|
      ensures joined[i] == apart[i]
    {
      if i < |a| {
        assert (a + b)[i] == a[i];
      } else {
        assert (a + b)[i] == b[i - |a|];
      }
    }
  }

  /** The tags are the lower-cased names of the hashtags naming no priority, in the order of the words. */
  lemma {:induction false} ScanTagsInOrder(words: seq<string>)
    ensures ScanWords(words).tags == TagNames(Filter(words, TagWord))
    decreases |words|
  {
    if words != [] {
      var init := words[..|words| - 1];
      var w := words[|words| - 1];
      ScanTagsInOrder(init);
      assert init + [w] == words;
      FilterAppend(init, [w], TagWord);
      assert Filter([w], TagWord) == if TagWord(w) then [w] else [];
      TagNamesAppend(Filter(init, TagWord), Filter([w], TagWord));
    }
  }

  /** A tag is kept exactly when some hashtag naming no priority names it. */
  lemma ScanTagsMembers(words: seq<string>, tag: string)
    ensures tag in ScanWords(words).tags <==> exists w :: w in words && TagWord(w) && TagName(w) == tag
  {
    ScanTagsInOrder(words);
    var hashtags := Filter(words, TagWord);
    if tag in ScanWords(words).tags {
      var i :| 0 <= i < |hashtags| && TagNames(hashtags)[i] == tag;
      assert hashtags[i] in hashtags;
    }
    if exists w :: w in words && TagWord(w) && TagName(w) == tag {
      var w :| w in words && TagWord(w) && TagName(w) == tag;
      assert w in hashtags;
      var i :| 0 <= i < |hashtags| && hashtags[i] == w;
      assert TagNames(hashtags)[i] == tag;
    }
  }

  /** The priority a priority word sets: low for `#low`, high for `#high` and `#urgent`. */
  function PriorityOf(w: string): string
    requires PriorityWord(w)
  {
    if Lower(w[1..]) == "low" then "low" else "high"
  }

  /** The last priority word decides the priority. */
  lemma {:induction false} LastPriorityWordWins(words: seq<string>, i: nat)
    requires i < |words| && PriorityWord(words[i])
    requires forall j :: i < j < |words| ==> !PriorityWord(words[j])
    ensures ScanWords(words).priority == PriorityOf(words[i])
    decreases |words|
  {
    var init := words[..|words| - 1];
    if i < |words| - 1 {
      assert init[i] == words[i];
      LastPriorityWordWins(init, i);
      assert !PriorityWord(words[|words| - 1]);
    }
  }

  /** `#medium`, in any case, changes nothing: no priority, no tag, no title word. */
  lemma MediumWordIdle(words: seq<string>, w: string)
    requires StartsWith(w, "#") && Lower(w[1..]) == "medium"
    ensures ScanWords(words + [w]) == ScanWords(words)
  {
    assert (words + [w])[..|words|] == words;
  }

  // ---------------------------------------------------------------- one task line

  /**
   * JavaScript's `split(/\s+/)`: the pieces between runs of white space, an
   * empty piece where a run starts or ends the string, and `[""]` for `""`.
   */
  function SpaceSplit(s: string): (r: seq<string>)
    ensures |r| >= 1
    decreases |s|
  {
    var w := TakeWord(s, IsJsSpace);
    if |w| == |s| then [s]
    else
      var tail := TrimStart(s[|w|..], IsJsSpace);
      assert |tail| < |s| by {
        assert IsJsSpace(s[|w|..][0]);
      }
      [w] + SpaceSplit(tail)
  }

  /** The non-empty runs of non-space characters. */
  function JsWords(s: string): seq<string> {
    Words(s, IsJsSpace)
  }

  /** The task a line gives, given the splitter of its text into words. */
  function LineTaskWith(trimmed: string, currentDate: string, today: string, split: string -> seq<string>): Option<ImportedTask> {
    match TaskMatch(trimmed)
    case None => None
    case Some((done, rest)) =>
      var (taskDate, text) := InlineDate(rest, currentDate);
      var sc := ScanWords(split(text));
      if sc.titleParts == [] then None
      else Some(ImportedTask(
        Join(sc.titleParts, " "), if taskDate == "" then today else taskDate,
        sc.priority, sc.tags, if done then "done" else "todo"))
  }

  /** The task a line gives as the reader is written: its text split with `split(/\s+/)`. */
  function LineTask(trimmed: string, currentDate: string, today: string): Option<ImportedTask> {
    LineTaskWith(trimmed, currentDate, today, SpaceSplit)
  }

  /** The corrected reader: only non-empty words count as title words. */
  function TitledLineTask(trimmed: string, currentDate: string, today: string): Option<ImportedTask> {
    LineTaskWith(trimmed, currentDate, today, JsWords)
  }

  /** A date window holds no line terminator. */
  lemma DateHasNoTerminator(d: string)
    requires IsIsoDate(d)
    ensures forall k :: 0 <= k < |d| ==> !IsJsLineTerminator(d[k]) && !IsJsSpace(d[k])
  {
    forall k | 0 <= k < |d|
      ensures !IsJsLineTerminator(d[k]) && !IsJsSpace(d[k])
    {
      assert IsDigit(d[k]) || d[k] == '-';
    }
  }

  /** The marker of an unticked line followed by `@` and a date, and what follows the marker. */
  lemma MarkerLineShape(d: string)
    requires IsIsoDate(d)
    ensures var line := "- [ ] @" + d;
      TaskMarker(line) && line[3] == ' ' && line[5..] == [' '] + ("@" + d)
  {
    var line := "- [ ] @" + d;
    assert line[..3] == "- [" && line[3] == ' ' && line[4] == ']' && line[5] == ' ';
    assert line[5..] == [' '] + ("@" + d);
  }

  /** `@` and a date after the marker's space: no further white space to trim. */
  lemma DateTextTrimmed(d: string)
    requires IsIsoDate(d)
    ensures TrimStart([' '] + ("@" + d), IsJsSpace) == "@" + d
  {
    var text := "@" + d;
    assert ([' '] + text)[1..] == text;
    assert TrimStart(text, IsJsSpace) == text;
  }

  /** `@` and a date holds no line terminator, so the capture takes all of it. */
  lemma DateTextCaptured(d: string)
    requires IsIsoDate(d)
    ensures CaptureToLineEnd("@" + d) == "@" + d
  {
    var text := "@" + d;
    DateHasNoTerminator(d);
    forall k | 0 <= k < |text|
      ensures !IsJsLineTerminator(text[k])
    {
      if k > 0 {
        assert text[k] == d[k - 1];
      }
    }
  }

  /** An unticked task line whose only text is `@` and a date: the whole `@date` is captured. */
  lemma MarkerOfDateOnly(d: string)
    requires IsIsoDate(d)
    ensures TaskMatch("- [ ] @" + d) == Some((false, "@" + d))
  {
    MarkerLineShape(d);
    DateTextTrimmed(d);
    DateTextCaptured(d);
  }

  /** `@` and a date starts with an `@date` window. */
  lemma AtDateFirst(d: string)
    requires IsIsoDate(d)
    ensures FirstAtDate("@" + d, 0) == Some(0)
  {
    var rest := "@" + d;
    assert rest[0] == '@';
    assert IsoDateAt(rest, 1) by {
      assert rest[1..11] == d;
      assert forall k :: 0 <= k < 10 ==> rest[1 + k] == d[k];
    }
  }

  /** Cutting the inline date out of a text that is only that date leaves nothing. */
  lemma InlineDateOnly(d: string, currentDate: string)
    requires IsIsoDate(d)
    ensures InlineDate("@" + d, currentDate) == (d, "")
  {
    var rest := "@" + d;
    AtDateFirst(d);
    assert rest[1..11] == d;
    assert rest[..0] + rest[11..] == [];
    assert Trim([], IsJsSpace) == [];
  }

  /**
   * As written, a task line holding nothing but an inline date (such as
   * `- [ ] @2024-01-01`) gives a task with an empty title: the text left is
   * `""`, whose split is `[""]`, and that one empty word counts as a title word.
   */
  lemma EmptyTitleAsWritten(d: string, currentDate: string, today: string)
    requires IsIsoDate(d)
    ensures LineTask("- [ ] @" + d, currentDate, today)
      == Some(ImportedTask("", d, "medium", [], "todo"))
  {
    DateOnlyWith(d, currentDate, today, SpaceSplit);
    assert SpaceSplit("") == [""];
    assert ScanWords([""]) == WordScan("medium", [], [""]) by {
      assert ScanWords([""]) == ScanWord(StartScan, "");
    }
  }

  /** The same line gives no task once only non-empty words count. */
  lemma DateOnlyLineSkipped(d: string, currentDate: string, today: string)
    requires IsIsoDate(d)
    ensures TitledLineTask("- [ ] @" + d, currentDate, today) == None
  {
    DateOnlyWith(d, currentDate, today, JsWords);
    assert JsWords("") == [];
  }

  /** A line holding only the marker and an `@date`: whatever the splitter, the words scanned are those of `""`. */
  lemma DateOnlyWith(d: string, currentDate: string, today: string, split: string -> seq<string>)
    requires IsIsoDate(d)
    ensures var sc := ScanWords(split(""));
      LineTaskWith("- [ ] @" + d, currentDate, today, split)
      == if sc.titleParts == [] then None
         else Some(ImportedTask(Join(sc.titleParts, " "), d, sc.priority, sc.tags, "todo"))
  {
    MarkerOfDateOnly(d);
    InlineDateOnly(d, currentDate);
  }

  /** The corrected reader never gives a task with an empty title. */
  lemma TitledLineTaskTitled(trimmed: string, currentDate: string, today: string)
    requires TitledLineTask(trimmed, currentDate, today).Some?
    ensures TitledLineTask(trimmed, currentDate, today).value.title != ""
  {
    var m := TaskMatch(trimmed);
    var (taskDate, text) := InlineDate(m.value.1, currentDate);
    var words := JsWords(text);
    ScanTitle(words);
    var parts := Filter(words, IsTitleWord);
    assert parts[0] in words;
    JoinNonEmpty(parts, " ");
  }

  /** On text without white space at either end the two splitters agree, except on `""`. */
  lemma {:induction false} SpaceSplitWords(s: string)
    requires s != [] && Trimmed(s, IsJsSpace)
    ensures SpaceSplit(s) == JsWords(s)
    decreases |s|
  {
    var w := TakeWord(s, IsJsSpace);
    assert TrimStart(s, IsJsSpace) == s;
    if |w| == |s| {
      assert w == s;
      assert Words(s[|w|..], IsJsSpace) == [];
    } else {
      var x := s[|w|..];
      var tail := TrimStart(x, IsJsSpace);
      assert tail != [] && tail[|tail| - 1] == s[|s| - 1];
      assert Trimmed(tail, IsJsSpace);
      assert |tail| < |s| by {
        assert IsJsSpace(x[0]);
      }
      SpaceSplitWords(tail);
      assert TrimStart(tail, IsJsSpace) == tail;
      assert Words(x, IsJsSpace) == Words(tail, IsJsSpace);
    }
  }

  /**
   * The reader as written and the corrected one give the same task whenever
   * the text left after the inline date is not empty and has no white space
   * at either end; they part only on an empty text (a date-only line) and on
   * a text whose captured part ends in white space before a line terminator.
   */
  lemma LineTaskAgrees(trimmed: string, currentDate: string, today: string)
    requires TaskMatch(trimmed).Some?
    requires var text := InlineDate(TaskMatch(trimmed).value.1, currentDate).1;
      text != [] && Trimmed(text, IsJsSpace)
    ensures LineTask(trimmed, currentDate, today) == TitledLineTask(trimmed, currentDate, today)
  {
    SpaceSplitWords(InlineDate(TaskMatch(trimmed).value.1, currentDate).1);
  }

  /**
   * A task comes only from a task-list line; it is done exactly when the box
   * holds `x` or `X`; its priority is known; its date is an inline date, the
   * current date, or today when neither is set. Whatever the splitter, so
   * both for the reader as written and for the corrected one.
   */
  lemma LineTaskFacts(trimmed: string, currentDate: string, today: string, split: string -> seq<string>)
    requires LineTaskWith(trimmed, currentDate, today, split).Some?
    ensures TaskMarker(trimmed)
    ensures LineTaskWith(trimmed, currentDate, today, split).value.status == "done" <==> trimmed[3] == 'x' || trimmed[3] == 'X'
    ensures LineTaskWith(trimmed, currentDate, today, split).value.status == "done" || LineTaskWith(trimmed, currentDate, today, split).value.status == "todo"
    ensures KnownPriority(LineTaskWith(trimmed, currentDate, today, split).value.priority)
    ensures var d := LineTaskWith(trimmed, currentDate, today, split).value.date; IsIsoDate(d) || d == currentDate || (currentDate == "" && d == today)
  {
    var m := TaskMatch(trimmed);
    var (taskDate, text) := InlineDate(m.value.1, currentDate);
    ScanPriority(split(text));
  }

  // ---------------------------------------------------------------- the whole content

  /** What reads a task from a trimmed line under the current date. */
  type LineReader = (string, string) -> Option<ImportedTask>

  /** What moves the current date at one trimmed line. */
  type DateStep = (string, string) -> string

  /** The task lines of `parseMarkdownLocally` under a given today. */
  function Reader(today: string): LineReader {
    (trimmed, date) => LineTask(trimmed, date, today)
  }

  /** The corrected reader's task lines under a given today. */
  function TitledReader(today: string): LineReader {
    (trimmed, date) => TitledLineTask(trimmed, date, today)
  }

  /** The task a line yields, as a list of zero or one task. */
  function AsList(task: Option<ImportedTask>): (r: seq<ImportedTask>)
    ensures task.Some? ==> r == [task.value]
    ensures task.None? ==> r == []
  {
    match task
    case Some(t) => [t]
    case None => []
  }

  /**
   * The tasks of the lines from a given current date on, in order: each line
   * is trimmed, `next` may move the current date, then the line is read under
   * it. Stated for any date step and reader, so that its properties rest only
   * on what those promise.
   */
  function PlanWith(lines: seq<string>, currentDate: string, next: DateStep, read: LineReader): seq<ImportedTask> {
    if lines == [] then []
    else
      var trimmed := Trim(lines[0], IsJsSpace);
      var date := next(trimmed, currentDate);
      AsList(read(trimmed, date)) + PlanWith(lines[1..], date, next, read)
  }

  /** The tasks `parseMarkdownLocally` reads from a document. */
  function PlanTasks(content: string, today: string): seq<ImportedTask> {
    PlanWith(Lines(content), "", NextDate, Reader(today))
  }

  /** The tasks the corrected reader reads from a document. */
  function TitledPlanTasks(content: string, today: string): seq<ImportedTask> {
    PlanWith(Lines(content), "", NextDate, TitledReader(today))
  }

  /**
   * What every task read satisfies: a known priority, status done or todo,
   * and as its date a date window or, when no date was named, today.
   */
  predicate Shaped(t: ImportedTask, today: string) {
    KnownPriority(t.priority) && (t.status == "done" || t.status == "todo")
    && (IsIsoDate(t.date) || t.date == today)
  }

  /** A shaped task with a title: what every task of the corrected reader is. */
  predicate WellFormed(t: ImportedTask, today: string) {
    t.title != "" && Shaped(t, today)
  }

  /** A reader whose tasks satisfy `ok` whenever the current date is empty or a date. */
  ghost predicate ReadsInto(read: LineReader, ok: ImportedTask -> bool) {
    forall trimmed, date :: (date == "" || IsIsoDate(date)) && read(trimmed, date).Some? ==>
      ok(read(trimmed, date).value)
  }

  /** A date step that keeps the current date empty or a date. */
  ghost predicate StepsToDates(next: DateStep) {
    forall trimmed, date :: (date == "" || IsIsoDate(date)) ==> (next(trimmed, date) == "" || IsIsoDate(next(trimmed, date)))
  }

  /** The tasks of `parseMarkdownLocally`'s reader are shaped. */
  lemma ReaderShaped(today: string)
    ensures ReadsInto(Reader(today), (t: ImportedTask) => Shaped(t, today))
  {
    forall trimmed, date | (date == "" || IsIsoDate(date)) && Reader(today)(trimmed, date).Some?
      ensures Shaped(Reader(today)(trimmed, date).value, today)
    {
      LineTaskFacts(trimmed, date, today, SpaceSplit);
    }
  }

  /** The corrected reader's tasks are well formed. */
  lemma TitledReaderWellFormed(today: string)
    ensures ReadsInto(TitledReader(today), (t: ImportedTask) => WellFormed(t, today))
  {
    forall trimmed, date | (date == "" || IsIsoDate(date)) && TitledReader(today)(trimmed, date).Some?
      ensures WellFormed(TitledReader(today)(trimmed, date).value, today)
    {
      TitledLineTaskTitled(trimmed, date, today);
      LineTaskFacts(trimmed, date, today, JsWords);
    }
  }

  /** Headers move the current date only to a date. */
  lemma NextDateSteps()
    ensures StepsToDates(NextDate)
  {
  }

  /** Every task of the fold satisfies `ok` when every task the reader gives does. */
  lemma {:induction false} PlanWithInto(lines: seq<string>, currentDate: string, next: DateStep, read: LineReader,
                                         ok: ImportedTask -> bool)
    requires currentDate == "" || IsIsoDate(currentDate)
    requires StepsToDates(next)
    requires ReadsInto(read, ok)
    ensures forall t :: t in PlanWith(lines, currentDate, next, read) ==> ok(t)
  {
    if lines != [] {
      var trimmed := Trim(lines[0], IsJsSpace);
      var date := next(trimmed, currentDate);
      var step := AsList(read(trimmed, date));
      assert forall t :: t in step ==> ok(t);
      PlanWithInto(lines[1..], date, next, read, ok);
      assert PlanWith(lines, currentDate, next, read) == step + PlanWith(lines[1..], date, next, read);
    }
  }

  /**
   * Every task `parseMarkdownLocally` reads has a known priority, status done
   * or todo, and a date window or today as its date.
   */
  lemma PlanTasksShaped(content: string, today: string)
    ensures forall t :: t in PlanTasks(content, today) ==> Shaped(t, today)
  {
    ReaderShaped(today);
    NextDateSteps();
    PlanWithInto(Lines(content), "", NextDate, Reader(today), (t: ImportedTask) => Shaped(t, today));
  }

  /** Every task the corrected reader gives is well formed, a title included. */
  lemma TitledPlanWellFormed(content: string, today: string)
    ensures forall t :: t in TitledPlanTasks(content, today) ==> WellFormed(t, today)
  {
    TitledReaderWellFormed(today);
    NextDateSteps();
    PlanWithInto(Lines(content), "", NextDate, TitledReader(today), (t: ImportedTask) => WellFormed(t, today));
  }

  /**
   * A document that is the single line `- [ ] @` and a date: as written the
   * reader reports one task with an empty title, where the corrected reader
   * reports none.
   */
  lemma DateOnlyDocument(d: string, today: string)
    requires IsIsoDate(d)
    ensures PlanTasks("- [ ] @" + d, today) == [ImportedTask("", d, "medium", [], "todo")]
    ensures TitledPlanTasks("- [ ] @" + d, today) == []
  {
    var line := "- [ ] @" + d;
    DateOnlyLineRead(d);
    PlanOfOneLine(line, Reader(today));
    PlanOfOneLine(line, TitledReader(today));
    EmptyTitleAsWritten(d, "", today);
    DateOnlyLineSkipped(d, "", today);
  }

  /** The date-only line is a whole line of its own, already trimmed, and sets no date. */
  lemma DateOnlyLineRead(d: string)
    requires IsIsoDate(d)
    ensures var line := "- [ ] @" + d;
      Lines(line) == [line] && Trim(line, IsJsSpace) == line && NextDate(line, "") == ""
  {
    var line := "- [ ] @" + d;
    DateHasNoTerminator(d);
    forall k | 0 <= k < |line|
      ensures line[k] != '\n'
    {
      if k >= 7 {
        assert line[k] == d[k - 7];
      }
    }
    assert line[|line| - 1] == d[9];
    SplitOfFree(line, '\n');
    TrimOfTrimmed(line, IsJsSpace);
  }

  /** A trimmed line that sets no date, read on its own. */
  lemma PlanOfOneLine(line: string, read: LineReader)
    requires Trim(line, IsJsSpace) == line && NextDate(line, "") == ""
    ensures PlanWith([line], "", NextDate, read) == AsList(read(line, ""))
  {
    assert PlanWith([line], "", NextDate, read) == AsList(read(line, "")) + PlanWith([], "", NextDate, read);
  }

  /** One more line read: its task, if any, joins those already read. */
  lemma PlanWithAdvance(lines: seq<string>, currentDate: string, next: DateStep, read: LineReader,
                        found: Option<ImportedTask>, done: seq<ImportedTask>, now: seq<ImportedTask>)
    requires lines != []
    requires var trimmed := Trim(lines[0], IsJsSpace);
      found == read(trimmed, next(trimmed, currentDate))
    requires now == if found.Some? then done + [found.value] else done
    ensures var date := next(Trim(lines[0], IsJsSpace), currentDate);
      now + PlanWith(lines[1..], date, next, read) == done + PlanWith(lines, currentDate, next, read)
  {
    var date := next(Trim(lines[0], IsJsSpace), currentDate);
    var step := AsList(found);
    var later := PlanWith(lines[1..], date, next, read);
    assert now == done + step;
    AppendAssociative(done, step, later);
  }

  /** The words loop of one task line. */
  method ScanTaskWords(words: seq<string>) returns (sc: WordScan)
    ensures sc == ScanWords(words)
  {
    var priority := "medium";
    var tags: seq<string> := [];
    var titleParts: seq<string> := [];
    var i := 0;
    while i < |words|
      invariant 0 <= i <= |words|
      invariant WordScan(priority, tags, titleParts) == ScanWords(words[..i])
    {
      assert words[..i + 1][..i] == words[..i];
      var word := words[i];
      if StartsWith(word, "#") {
        var tag := Lower(word[1..]);
        if tag == "high" || tag == "urgent" {
          priority := "high";
        } else if tag == "low" {
          priority := "low";
        } else if tag != "medium" {
          tags := tags + [tag];
        }
      } else {
        titleParts := titleParts + [word];
      }
      i := i + 1;
    }
    assert words[..i] == words;
    sc := WordScan(priority, tags, titleParts);
  }

  /** The header step of one line: the current date after it. */
  method ReadHeader(trimmed: string, currentDate: string) returns (date: string)
    ensures date == NextDate(trimmed, currentDate)
  {
    date := currentDate;
    var header := HeaderText(trimmed);
    if header.Some? {
      var d := IsoDate(header.value);
      if d.Some? {
        date := d.value;
      }
    }
  }

  /** The task step of one line: the task it yields, if any. */
  method ReadTaskLine(trimmed: string, currentDate: string, today: string) returns (found: Option<ImportedTask>)
    ensures found == LineTask(trimmed, currentDate, today)
  {
    found := None;
    var m := TaskMatch(trimmed);
    if m.Some? {
      var done := m.value.0;
      var (taskDate, text) := InlineDate(m.value.1, currentDate);
      var sc := ScanTaskWords(SpaceSplit(text));
      if sc.titleParts != [] {
        found := Some(ImportedTask(
          Join(sc.titleParts, " "), if taskDate == "" then today else taskDate,
          sc.priority, sc.tags, if done then "done" else "todo"));
      }
    }
  }

  /** One line: the current date after it and the task it yields, if any. */
  method ReadLine(line: string, currentDate: string, today: string) returns (date: string, found: Option<ImportedTask>)
    ensures date == NextDate(Trim(line, IsJsSpace), currentDate)
    ensures found == Reader(today)(Trim(line, IsJsSpace), date)
  {
    var trimmed := Trim(line, IsJsSpace);
    date := ReadHeader(trimmed, currentDate);
    found := ReadTaskLine(trimmed, date, today);
  }

  /** The pass over the lines, carrying the current date from header to header. */
  method ReadLines(lines: seq<string>, today: string) returns (tasks: seq<ImportedTask>)
    ensures tasks == PlanWith(lines, "", NextDate, Reader(today))
  {
    tasks := [];
    var currentDate := "";
    var rest := lines;
    AppendEmpty(PlanWith(lines, currentDate, NextDate, Reader(today)));
    while rest != []
      invariant tasks + PlanWith(rest, currentDate, NextDate, Reader(today)) == PlanWith(lines, "", NextDate, Reader(today))
      decreases |rest|
    {
      ghost var before := currentDate;
      ghost var done := tasks;
      var found;
      currentDate, found := ReadLine(rest[0], currentDate, today);
      if found.Some? {
        tasks := tasks + [found.value];
      }
      PlanWithAdvance(rest, before, NextDate, Reader(today), found, done, tasks);
      rest := rest[1..];
    }
  }

  /** `parseMarkdownLocally`: the tasks of every line of the content, nothing created or skipped. */
  method ParseMarkdownLocally(content: string, today: string) returns (report: LocalReport)
    ensures report.tasks == PlanTasks(content, today)
    ensures report.total == |report.tasks| && report.created == 0 && report.skipped == 0
  {
    var tasks := ReadLines(Lines(content), today);
    report := LocalReport(|tasks|, 0, 0, tasks);
  }
}
