/**
 * Daily-log files (src-tauri/src/lib.rs): a log is written as a `---`
 * frontmatter block of `key: value` lines followed by its markdown content,
 * and read back key by key, each missing key taking a fallback. The file-name
 * helpers `sanitize_title_for_filename` and `normalize_log_date` sit beside
 * them.
 */
module DailyLogs {
  import opened Wrappers
  import opened Text
  import opened Numbers

  /** A daily log record. */
  datatype DailyLog = DailyLog(
    id: string,
    date: string,
    title: string,
    content: string,
    mood: string,
    syncRate: int,
    tags: string,
    autoGenerated: bool,
    createdAt: string,
    updatedAt: string)

  /**
   * The clock readings the reader may take: today's local date (for a file
   * name without a date) and the two `now_iso` calls for the timestamps.
   */
  datatype Clock = Clock(today: string, createdNow: string, updatedNow: string)

  /** The frontmatter fence, with its line break. */
  const Fence: string := "---\n"

  predicate IsNewline(c: char) {
    c == '\n'
  }

  predicate IsDash(c: char) {
    c == '-'
  }

  // ---------------------------------------------------------------- writer

  /** The frontmatter fields of a log, in the order the writer emits them. */
  function LogFields(log: DailyLog): seq<(string, string)> {
    [ ("id", log.id),
      ("date", log.date),
      ("title", log.title),
      ("mood", log.mood),
      ("sync_rate", FormatInt(log.syncRate)),
      ("tags", log.tags),
      ("auto_generated", if log.autoGenerated then "true" else "false"),
      ("created_at", log.createdAt),
      ("updated_at", log.updatedAt) ]
  }

  /** One `key: value` line, without its line break. */
  function FieldLine(field: (string, string)): string {
    field.0 + ": " + field.1
  }

  /** The frontmatter lines, each followed by a line break. */
  function FrontText(fields: seq<(string, string)>): string {
    if fields == [] then "" else FieldLine(fields[0]) + "\n" + FrontText(fields[1..])
  }

  /** `daily_log_to_markdown`. */
  function LogToMarkdown(log: DailyLog): (r: string)
    ensures StartsWith(r, Fence) && EndsWith(r, log.content + "\n")
  {
    Fence + FrontText(LogFields(log)) + Fence + "\n" + log.content + "\n"
  }

  // ---------------------------------------------------------------- reader

  /**
   * `raw.splitn(3, "---\n")` behind a leading fence: the frontmatter text up
   * to the next fence and everything after it, when there is such a fence.
   */
  function SplitFrontmatter(raw: string): (r: Option<(string, string)>)
    ensures r.Some? ==> raw == Fence + r.value.0 + Fence + r.value.1
    ensures r.Some? ==> forall j :: 0 <= j < |r.value.0| ==> !OccursAt(r.value.0 + Fence, Fence, j)
    ensures r.None? <==> !StartsWith(raw, Fence) || forall j :: 4 <= j ==> !OccursAt(raw, Fence, j)
  {
    if !StartsWith(raw, Fence) then None
    else
      match FindFrom(raw, Fence, 4)
      case Some(k) =>
        FenceSplit(raw, k);
        Some((raw[4..k], raw[k + 4..]))
      case None => None
  }

  /** The text between the leading fence and the first later one holds no fence, even with the closing one after it. */
  lemma FenceSplit(raw: string, k: nat)
    requires StartsWith(raw, Fence) && 4 <= k && OccursAt(raw, Fence, k)
    requires forall j :: 4 <= j < k ==> !OccursAt(raw, Fence, j)
    ensures raw == Fence + raw[4..k] + Fence + raw[k + 4..]
    ensures forall j :: 0 <= j < |raw[4..k]| ==> !OccursAt(raw[4..k] + Fence, Fence, j)
  {
    var fm := raw[4..k];
    assert raw[..4] == Fence && raw[k..k + 4] == Fence;
    assert raw == raw[..4] + raw[4..k] + raw[k..k + 4] + raw[k + 4..];
    forall j | 0 <= j < |fm|
      ensures !OccursAt(fm + Fence, Fence, j)
    {
      assert !OccursAt(raw, Fence, j + 4);
      if j + 4 <= |fm + Fence| {
        assert (fm + Fence)[j..j + 4] == raw[j + 4..j + 8];
      }
    }
  }

  /** Each line trimmed, in order. */
  function TrimLines(lines: seq<string>): (r: seq<string>)
    ensures |r| == |lines|
  {
    if lines == [] then [] else [Trim(lines[0], IsRustSpace)] + TrimLines(lines[1..])
  }

  /** `fm.lines().map(|s| s.trim())`. */
  function FrontLines(fm: string): seq<string> {
    TrimLines(Lines(fm))
  }

  /** `parse_frontmatter_value`: the trimmed rest of the first line that starts with `key:`. */
  function FrontmatterValue(lines: seq<string>, key: string): Option<string> {
    if lines == [] then None
    else if StartsWith(lines[0], key + ":") then Some(Trim(lines[0][|key| + 1..], IsRustSpace))
    else FrontmatterValue(lines[1..], key)
  }

  /** The value found is trimmed, and none is found exactly when no line starts with `key:`. */
  lemma {:induction false} FrontmatterValueFound(lines: seq<string>, key: string)
    ensures FrontmatterValue(lines, key).Some? ==> Trimmed(FrontmatterValue(lines, key).value, IsRustSpace)
    ensures FrontmatterValue(lines, key).None? <==> forall l :: l in lines ==> !StartsWith(l, key + ":")
  {
    if lines != [] {
      FrontmatterValueFound(lines[1..], key);
      assert forall l :: l in lines ==> l == lines[0] || l in lines[1..];
    }
  }

  /** Rust's `eq_ignore_ascii_case`. */
  predicate EqIgnoreAsciiCase(a: string, b: string) {
    Lower(a) == Lower(b)
  }

  /**
   * `normalize_log_date`: the first ten characters of the trimmed input when
   * they have the `YYYY-MM-DD` dashes, and otherwise today's date.
   */
  function NormalizeLogDate(input: string, today: string): (r: string)
    ensures r == today || (|r| == 10 && r[4] == '-' && r[7] == '-' && StartsWith(Trim(input, IsRustSpace), r))
    ensures HasDateDashes(Trim(input, IsRustSpace)) ==> r == Trim(input, IsRustSpace)[..10]
    ensures !HasDateDashes(Trim(input, IsRustSpace)) ==> r == today
  {
    var trimmed := Trim(input, IsRustSpace);
    if HasDateDashes(trimmed) then trimmed[..10] else today
  }

  /** At least ten characters, with dashes at positions 4 and 7. */
  predicate HasDateDashes(s: string) {
    |s| >= 10 && s[4] == '-' && s[7] == '-'
  }

  // ---------------------------------------------------------------- the byte slice as written

  /** The number of bytes of a character's UTF-8 encoding. */
  function Utf8Width(c: char): nat {
    if c as int < 0x80 then 1 else if c as int < 0x800 then 2 else if c as int < 0x1_0000 then 3 else 4
  }

  /** Rust's `str::len`: the number of bytes of the UTF-8 encoding. */
  function Utf8Len(s: string): nat {
    if s == [] then 0 else Utf8Width(s[0]) + Utf8Len(s[1..])
  }

  /**
   * How many leading characters make exactly `n` bytes, if byte `n` falls
   * between two characters; `None` when it falls inside one or past the end.
   */
  function CharsInBytes(s: string, n: nat): (r: Option<nat>)
    ensures r.Some? ==> r.value <= |s|
  {
    if n == 0 then Some(0)
    else if s == [] || Utf8Width(s[0]) > n then None
    else
      match CharsInBytes(s[1..], n - Utf8Width(s[0]))
      case Some(k) => Some(k + 1)
      case None => None
  }

  /**
   * `normalize_log_date` as written: `trimmed.len() >= 10` counts bytes and
   * `&trimmed[0..10]` slices bytes, which panics, here `None`, when byte 10
   * falls inside a character; `chars().nth(4)` and `nth(7)` then look at
   * characters of the slice.
   */
  function NormalizeLogDateAsWritten(input: string, today: string): Option<string> {
    var trimmed := Trim(input, IsRustSpace);
    if Utf8Len(trimmed) < 10 then Some(today)
    else
      match CharsInBytes(trimmed, 10)
      case None => None
      case Some(k) =>
        var prefix := trimmed[..k];
        if |prefix| > 7 && prefix[4] == '-' && prefix[7] == '-' then Some(prefix) else Some(today)
  }

  /** A text of characters below 0x80 takes one byte per character. */
  predicate IsAscii(s: string) {
    forall k :: 0 <= k < |s| ==> s[k] as int < 0x80
  }

  lemma {:induction false} AsciiBytes(s: string, n: nat)
    requires IsAscii(s)
    ensures Utf8Len(s) == |s|
    ensures n <= |s| ==> CharsInBytes(s, n) == Some(n)
    ensures n > |s| ==> CharsInBytes(s, n) == None
  {
    if s != [] {
      assert IsAscii(s[1..]) by {
        assert forall k :: 0 <= k < |s[1..]| ==> s[1..][k] == s[k + 1];
      }
      assert Utf8Width(s[0]) == 1;
      if n > 0 {
        AsciiBytes(s[1..], n - 1);
      } else {
        AsciiBytes(s[1..], 0);
      }
    }
  }

  /** On ASCII input the byte slice never panics and agrees with the character reading. */
  lemma LogDateAsciiAgrees(input: string, today: string)
    requires IsAscii(input)
    ensures NormalizeLogDateAsWritten(input, today) == Some(NormalizeLogDate(input, today))
  {
    var trimmed := Trim(input, IsRustSpace);
    TrimKeepsClass(input, IsRustSpace, (c: char) => c as int < 0x80);
    AsciiBytes(trimmed, 10);
  }

  /**
   * As written, a date such as `2024年1月1日` makes `normalize_log_date` panic:
   * it is fifteen bytes long, and byte 10 falls inside `月`, whose three bytes
   * are bytes 8 to 10, counting from 0.
   */
  lemma LogDateSplitsCharacter(today: string)
    ensures NormalizeLogDateAsWritten("2024年1月1日", today).None?
    ensures NormalizeLogDate("2024年1月1日", today) == today
  {
    var s := "2024年1月1日";
    assert Trimmed(s, IsRustSpace);
    TrimOfTrimmed(s, IsRustSpace);
    assert Utf8Len(s) == 15 by {
      assert Utf8Len(s[9..]) == 0;
      assert Utf8Len(s[8..]) == 3;
      assert Utf8Len(s[7..]) == 4;
      assert Utf8Len(s[6..]) == 7;
      assert Utf8Len(s[5..]) == 8;
      assert Utf8Len(s[4..]) == 11;
    }
    assert CharsInBytes(s[6..], 2) == None;
    assert CharsInBytes(s[4..], 6) == None;
  }

  /** `parse_daily_log_markdown`: the frontmatter lines and the body, when a block is there. */
  function ParseDailyLog(raw: string, fallbackStem: string, clock: Clock): DailyLog {
    match SplitFrontmatter(raw)
    case Some((fm, rest)) => LogFrom(FrontLines(fm), rest, fallbackStem, NormalizeLogDate(fallbackStem, clock.today), clock)
    case None => LogFrom([], raw, fallbackStem, NormalizeLogDate(fallbackStem, clock.today), clock)
  }

  /** The log read from frontmatter lines and a body: each key with its fallback. */
  function LogFrom(lines: seq<string>, body: string, fallbackStem: string, fallbackDate: string, clock: Clock): DailyLog {
    DailyLog(
      FrontmatterValue(lines, "id").GetOr(fallbackStem),
      FrontmatterValue(lines, "date").GetOr(fallbackDate),
      FrontmatterValue(lines, "title").GetOr("留痕 " + fallbackDate),
      TrimStart(body, IsNewline),
      FrontmatterValue(lines, "mood").GetOr("neutral"),
      SyncRateOf(FrontmatterValue(lines, "sync_rate")),
      FrontmatterValue(lines, "tags").GetOr(""),
      match FrontmatterValue(lines, "auto_generated") {
        case Some(v) => EqIgnoreAsciiCase(v, "true")
        case None => false
      },
      FrontmatterValue(lines, "created_at").GetOr(clock.createdNow),
      FrontmatterValue(lines, "updated_at").GetOr(clock.updatedNow))
  }

  /** `sync_rate`: the value when it parses as an `i32`, else 80. */
  function SyncRateOf(value: Option<string>): (r: int)
    ensures InI32(r)
  {
    match value
    case Some(v) => ParseI32(v).GetOr(80)
    case None => 80
  }

  // ---------------------------------------------------------------- round trip

  /** A value the writer and the reader agree on: one line, no surrounding whitespace, no trailing `---`. */
  predicate SafeValue(v: string) {
    '\n' !in v && Trimmed(v, IsRustSpace) && !EndsWith(v, "---")
  }

  /** A key as the writer spells it. */
  predicate SafeKey(k: string) {
    k != "" && ':' !in k && '\n' !in k && !IsRustSpace(k[0])
  }

  predicate SafeFields(fields: seq<(string, string)>) {
    forall f :: f in fields ==> SafeKey(f.0) && SafeValue(f.1)
  }

  /** The fields a log's text can be read back from without loss. */
  predicate SafeLog(log: DailyLog) {
    && SafeValue(log.id) && SafeValue(log.date) && SafeValue(log.title) && SafeValue(log.mood)
    && SafeValue(log.tags) && SafeValue(log.createdAt) && SafeValue(log.updatedAt)
    && InI32(log.syncRate)
  }

  /** The value first written for `key`, as an association list reads it. */
  function FirstValue(fields: seq<(string, string)>, key: string): Option<string> {
    if fields == [] then None
    else if fields[0].0 == key then Some(fields[0].1)
    else FirstValue(fields[1..], key)
  }

  predicate DistinctKeys(fields: seq<(string, string)>) {
    forall i, j :: 0 <= i < j < |fields| ==> fields[i].0 != fields[j].0
  }

  /** With distinct keys, the value at position `i` is the one found for its key. */
  lemma {:induction false} FirstValueAt(fields: seq<(string, string)>, i: nat)
    requires i < |fields| && DistinctKeys(fields)
    ensures FirstValue(fields, fields[i].0) == Some(fields[i].1)
  {
    if i > 0 {
      assert fields[0].0 != fields[i].0;
      assert DistinctKeys(fields[1..]) by {
        forall a, b | 0 <= a < b < |fields[1..]|
          ensures fields[1..][a].0 != fields[1..][b].0
        {
          assert fields[1..][a] == fields[a + 1] && fields[1..][b] == fields[b + 1];
        }
      }
      FirstValueAt(fields[1..], i - 1);
    }
  }

  /** The nine keys of a log are distinct and safe, and so are its written values when the log is. */
  lemma LogFieldsSafe(log: DailyLog)
    requires SafeLog(log)
    ensures DistinctKeys(LogFields(log))
    ensures SafeFields(LogFields(log))
  {
    var fields := LogFields(log);
    LogKeysDistinct(log);
    LogKeysSafe(log);
    FormattedRateSafe(log.syncRate);
    assert forall i :: 0 <= i < |fields| ==> SafeValue(fields[i].1);
  }

  lemma LogKeysSafe(log: DailyLog)
    ensures forall i :: 0 <= i < |LogFields(log)| ==> SafeKey(LogFields(log)[i].0)
  {
    KeysSafe();
  }

  /** The nine keys, one by one. */
  lemma KeysSafe()
    ensures SafeKey("id") && SafeKey("date") && SafeKey("title") && SafeKey("mood") && SafeKey("sync_rate")
    ensures SafeKey("tags") && SafeKey("auto_generated") && SafeKey("created_at") && SafeKey("updated_at")
  {
    KeyCharsSafe("id");
    KeyCharsSafe("date");
    KeyCharsSafe("title");
    KeyCharsSafe("mood");
    KeyCharsSafe("sync_rate");
    KeyCharsSafe("tags");
    KeyCharsSafe("auto_generated");
    KeyCharsSafe("created_at");
    KeyCharsSafe("updated_at");
  }

  /** Lower-case letters and `_`, as every key of a log is spelt. */
  predicate KeyChars(k: string) {
    k != "" && forall c :: c in k ==> 'a' <= c <= 'z' || c == '_'
  }

  lemma KeyCharsSafe(k: string)
    requires KeyChars(k)
    ensures SafeKey(k)
  {
    assert k[0] in k;
  }

  lemma LogKeysDistinct(log: DailyLog)
    ensures DistinctKeys(LogFields(log))
  {
    var fields := LogFields(log);
    forall i, j | 0 <= i < j < |fields|
      ensures fields[i].0 != fields[j].0
    {
      var a, b := fields[i].0, fields[j].0;
      assert |a| != |b| || a[0] != b[0];
    }
  }

  /** A written `i32` is a safe value: a digit ends it and no whitespace or line break is in it. */
  lemma FormattedRateSafe(n: int)
    ensures SafeValue(FormatInt(n))
  {
    if n < 0 {
      DigitsSafe(FormatNat(-n));
    } else {
      DigitsSafe(FormatNat(n));
    }
  }

  lemma DigitsSafe(d: string)
    requires |d| >= 1 && AllDigits(d)
    ensures SafeValue(d) && SafeValue("-" + d)
  {
    var m := "-" + d;
    assert IsDigit(d[0]) && IsDigit(d[|d| - 1]);
    assert m[|m| - 1] == d[|d| - 1];
    if |m| >= 3 {
      assert m[|m| - 3..][2] == d[|d| - 1];
    }
    assert forall k :: 0 <= k < |m| ==> m[k] == '-' || IsDigit(m[k]) by {
      forall k | 0 <= k < |m|
        ensures m[k] == '-' || IsDigit(m[k])
      {
        if k > 0 {
          assert m[k] == d[k - 1];
        }
      }
    }
  }

  /** A fence at `j` is three dashes, then a line break. */
  lemma FenceShape(s: string, j: int)
    requires 0 <= j && j + 4 <= |s|
    ensures OccursAt(s, Fence, j) <==> s[j..j + 4] == Fence
  {
  }

  /** No line of safe fields ends in `---`, so their text holds no fence. */
  lemma {:induction false} NoFenceInFront(fields: seq<(string, string)>)
    requires SafeFields(fields)
    ensures forall j :: !OccursAt(FrontText(fields), Fence, j)
  {
    if fields != [] {
      var line := FieldLine(fields[0]);
      var rest := FrontText(fields[1..]);
      var s := FrontText(fields);
      assert s == line + "\n" + rest;
      NoFenceInFront(fields[1..]);
      LineIsSafe(fields[0].0, fields[0].1);
      forall j | 0 <= j && j + 4 <= |s|
        ensures !OccursAt(s, Fence, j)
      {
        var w := s[j..j + 4];
        if j + 3 < |line| {
          assert w[3] == line[j + 3] != '\n';
        } else if j + 3 == |line| {
          assert w[..3] == line[|line| - 3..] != "---";
        } else if j <= |line| {
          assert w[|line| - j] == s[|line|] == '\n';
        } else {
          assert w == rest[j - |line| - 1..j - |line| + 3];
          assert !OccursAt(rest, Fence, j - |line| - 1);
        }
      }
    }
  }

  /** The line of a safe key and value holds no line break and does not end in `---`. */
  lemma LineIsSafe(k: string, v: string)
    requires SafeKey(k) && SafeValue(v)
    ensures '\n' !in FieldLine((k, v)) && !EndsWith(FieldLine((k, v)), "---")
  {
    var line := FieldLine((k, v));
    if |v| < 3 {
      assert line[|line| - |v| - 1] == ' ';
    } else {
      assert line[|line| - 3..] == v[|v| - 3..];
    }
  }

  /** Text written as fence, frontmatter, fence and rest splits back into frontmatter and rest. */
  lemma SplitWritten(raw: string, fm: string, rest: string)
    requires raw == Fence + fm + Fence + rest
    requires forall j :: !OccursAt(fm, Fence, j)
    ensures SplitFrontmatter(raw) == Some((fm, rest))
  {
    var k := 4 + |fm|;
    assert raw[..4] == Fence;
    assert raw[k..k + 4] == Fence;
    forall j | 4 <= j < k
      ensures !OccursAt(raw, Fence, j)
    {
      var w := raw[j..j + 4];
      if j + 4 <= k {
        assert w == fm[j - 4..j];
        assert !OccursAt(fm, Fence, j - 4);
      } else {
        assert w[3] == raw[j + 3] == Fence[j + 3 - k] == '-';
      }
    }
    assert OccursAt(raw, Fence, k);
    assert raw[4..k] == fm;
    assert raw[k + 4..] == rest;
  }

  /** A written line as the reader sees it once trimmed. */
  function CompactLine(field: (string, string)): string {
    if field.1 == "" then field.0 + ":" else FieldLine(field)
  }

  function CompactLines(fields: seq<(string, string)>): seq<string> {
    if fields == [] then [] else [CompactLine(fields[0])] + CompactLines(fields[1..])
  }

  lemma TrimFieldLine(field: (string, string))
    requires SafeKey(field.0) && SafeValue(field.1)
    ensures Trim(FieldLine(field), IsRustSpace) == CompactLine(field)
  {
    var k := field.0;
    var line := FieldLine(field);
    if field.1 == "" {
      assert TrimStart(line, IsRustSpace) == line;
      assert line[..|line| - 1] == k + ":";
      assert TrimEnd(line, IsRustSpace) == TrimEnd(k + ":", IsRustSpace);
    } else {
      assert Trimmed(line, IsRustSpace);
      TrimOfTrimmed(line, IsRustSpace);
    }
  }

  /** The trimmed lines of the frontmatter text are the compact lines, then one empty line. */
  lemma {:induction false} FrontLinesOfText(fields: seq<(string, string)>)
    requires SafeFields(fields)
    ensures FrontLines(FrontText(fields)) == CompactLines(fields) + [""]
  {
    if fields == [] {
      SplitOfFree("", '\n');
    } else {
      var line := FieldLine(fields[0]);
      var rest := FrontText(fields[1..]);
      LineIsSafe(fields[0].0, fields[0].1);
      SplitAppend(line, '\n', rest);
      assert line + "\n" + rest == line + ['\n'] + rest;
      var pieces := Split(rest, '\n');
      assert ([line] + pieces)[1..] == pieces;
      TrimFieldLine(fields[0]);
      FrontLinesOfText(fields[1..]);
      AppendAssociative([CompactLine(fields[0])], CompactLines(fields[1..]), [""]);
    }
  }

  /** A compact line starts with `key:` exactly when it is the line of that key. */
  lemma KeyPrefix(field: (string, string), key: string)
    requires SafeKey(field.0) && SafeKey(key)
    ensures StartsWith(CompactLine(field), key + ":") <==> field.0 == key
  {
    var line := CompactLine(field);
    var k := field.0;
    assert line[..|k| + 1] == k + ":";
    if |key| == |k| {
      assert (k + ":")[..|k|] == k && (key + ":")[..|key|] == key;
    } else if |key| < |k| {
      assert line[|key|] == k[|key|] != ':' == (key + ":")[|key|];
    } else if |key| + 1 <= |line| {
      assert line[|k|] == ':' != key[|k|] == (key + ":")[|k|];
    }
  }

  /** The value after `key:` in a compact line, trimmed, is the value written. */
  lemma CompactValue(field: (string, string))
    requires SafeKey(field.0) && SafeValue(field.1)
    ensures Trim(CompactLine(field)[|field.0| + 1..], IsRustSpace) == field.1
  {
    var v := field.1;
    if v != "" {
      var tail := CompactLine(field)[|field.0| + 1..];
      assert tail == [' '] + v;
      TrimSkipsLead(' ', v, IsRustSpace);
      TrimOfTrimmed(v, IsRustSpace);
    }
  }

  /** The reader finds, for every key, the value the writer wrote first for it. */
  lemma {:induction false} LookupWritten(fields: seq<(string, string)>, key: string)
    requires SafeFields(fields) && SafeKey(key)
    ensures FrontmatterValue(CompactLines(fields) + [""], key) == FirstValue(fields, key)
  {
    var lines := CompactLines(fields) + [""];
    if fields == [] {
      assert lines == [""];
    } else {
      var rest := CompactLines(fields[1..]) + [""];
      AppendAssociative([CompactLine(fields[0])], CompactLines(fields[1..]), [""]);
      LookupHead(fields[0], rest, key);
      if fields[0].0 != key {
        LookupWritten(fields[1..], key);
      }
    }
  }

  /** The line of a field in front: its value when the key is its own, else the rest decides. */
  lemma LookupHead(field: (string, string), rest: seq<string>, key: string)
    requires SafeKey(field.0) && SafeValue(field.1) && SafeKey(key)
    ensures FrontmatterValue([CompactLine(field)] + rest, key)
      == if field.0 == key then Some(field.1) else FrontmatterValue(rest, key)
  {
    assert ([CompactLine(field)] + rest)[1..] == rest;
    KeyPrefix(field, key);
    if field.0 == key {
      CompactValue(field);
    }
  }

  /** Frontmatter lines that hold every field of `log`, as the writer spelt it. */
  predicate HoldsFields(lines: seq<string>, log: DailyLog) {
    && FrontmatterValue(lines, "id") == Some(log.id)
    && FrontmatterValue(lines, "date") == Some(log.date)
    && FrontmatterValue(lines, "title") == Some(log.title)
    && FrontmatterValue(lines, "mood") == Some(log.mood)
    && FrontmatterValue(lines, "sync_rate") == Some(FormatInt(log.syncRate))
    && FrontmatterValue(lines, "tags") == Some(log.tags)
    && FrontmatterValue(lines, "auto_generated") == Some(if log.autoGenerated then "true" else "false")
    && FrontmatterValue(lines, "created_at") == Some(log.createdAt)
    && FrontmatterValue(lines, "updated_at") == Some(log.updatedAt)
  }

  /** What the reader finds for each key in the text of a safe log. */
  lemma LogLookups(log: DailyLog, lines: seq<string>)
    requires SafeLog(log)
    requires lines == CompactLines(LogFields(log)) + [""]
    ensures HoldsFields(lines, log)
  {
    var fields := LogFields(log);
    LogFieldsSafe(log);
    LookupAt(fields, lines, 0);
    LookupAt(fields, lines, 1);
    LookupAt(fields, lines, 2);
    LookupAt(fields, lines, 3);
    LookupAt(fields, lines, 4);
    LookupAt(fields, lines, 5);
    LookupAt(fields, lines, 6);
    LookupAt(fields, lines, 7);
    LookupAt(fields, lines, 8);
  }

  /** With distinct keys, the reader finds the value written at each position. */
  lemma LookupAt(fields: seq<(string, string)>, lines: seq<string>, i: nat)
    requires SafeFields(fields) && DistinctKeys(fields) && i < |fields|
    requires lines == CompactLines(fields) + [""]
    ensures FrontmatterValue(lines, fields[i].0) == Some(fields[i].1)
  {
    assert fields[i] in fields;
    LookupWritten(fields, fields[i].0);
    FirstValueAt(fields, i);
  }

  /**
   * Reading back what the writer wrote gives the same log, but for the
   * content: its leading line breaks are dropped and one is appended (an
   * empty content, or one of line breaks only, comes back empty).
   */
  lemma RoundTrip(log: DailyLog, fallbackStem: string, clock: Clock)
    requires SafeLog(log)
    ensures ParseDailyLog(LogToMarkdown(log), fallbackStem, clock)
      == log.(content := TrimStart(log.content + "\n", IsNewline))
  {
    var fm := FrontText(LogFields(log));
    var rest := "\n" + log.content + "\n";
    WrittenSplits(log, LogToMarkdown(log), fm, rest);
    ReadWritten(log, FrontLines(fm), rest, fallbackStem, NormalizeLogDate(fallbackStem, clock.today), clock);
  }

  /** The writer's text splits into its frontmatter, whose lines are the compact lines, and its body. */
  lemma WrittenSplits(log: DailyLog, text: string, fm: string, rest: string)
    requires SafeLog(log) && text == LogToMarkdown(log)
    requires fm == FrontText(LogFields(log)) && rest == "\n" + log.content + "\n"
    ensures SplitFrontmatter(text) == Some((fm, rest))
    ensures FrontLines(fm) == CompactLines(LogFields(log)) + [""]
  {
    LogFieldsSafe(log);
    NoFenceInFront(LogFields(log));
    MarkdownShape(log);
    SplitWritten(text, fm, rest);
    FrontLinesOfText(LogFields(log));
  }

  /** The writer's text is the fenced frontmatter followed by the body block. */
  lemma MarkdownShape(log: DailyLog)
    ensures LogToMarkdown(log) == Fence + FrontText(LogFields(log)) + Fence + ("\n" + log.content + "\n")
  {
  }

  /** The written lines and body of a safe log give back the log. */
  lemma ReadWritten(log: DailyLog, lines: seq<string>, body: string, fallbackStem: string, fallbackDate: string, clock: Clock)
    requires SafeLog(log) && lines == CompactLines(LogFields(log)) + [""]
    requires body == "\n" + log.content + "\n"
    ensures LogFrom(lines, body, fallbackStem, fallbackDate, clock) == log.(content := TrimStart(log.content + "\n", IsNewline))
  {
    LogLookups(log, lines);
    ReadFields(log, lines, body, fallbackStem, fallbackDate, clock);
  }

  /** Lines holding every field and the written body give back the log. */
  lemma ReadFields(log: DailyLog, lines: seq<string>, body: string, fallbackStem: string, fallbackDate: string, clock: Clock)
    requires InI32(log.syncRate) && HoldsFields(lines, log)
    requires body == "\n" + log.content + "\n"
    ensures LogFrom(lines, body, fallbackStem, fallbackDate, clock) == log.(content := TrimStart(log.content + "\n", IsNewline))
  {
    var got := LogFrom(lines, body, fallbackStem, fallbackDate, clock);
    assert got.id == log.id && got.date == log.date && got.title == log.title;
    assert got.mood == log.mood && got.tags == log.tags;
    assert got.createdAt == log.createdAt && got.updatedAt == log.updatedAt;
    assert got.syncRate == log.syncRate by {
      RateReadBack(log.syncRate);
    }
    assert got.autoGenerated == log.autoGenerated by {
      FlagReadBack(log.autoGenerated);
    }
    BodyReadBack(log.content, body);
  }

  lemma RateReadBack(n: int)
    requires InI32(n)
    ensures SyncRateOf(Some(FormatInt(n))) == n
  {
    ParseFormatI32(n);
  }

  lemma FlagReadBack(b: bool)
    ensures EqIgnoreAsciiCase(if b then "true" else "false", "true") == b
  {
    assert |Lower("false")| != |Lower("true")|;
  }

  lemma BodyReadBack(content: string, body: string)
    requires body == "\n" + content + "\n"
    ensures TrimStart(body, IsNewline) == TrimStart(content + "\n", IsNewline)
  {
    assert body[1..] == content + "\n";
  }

  /** Content that starts with neither a line break nor nothing comes back with one line break appended. */
  lemma RoundTripContent(log: DailyLog, fallbackStem: string, clock: Clock)
    requires SafeLog(log) && log.content != "" && log.content[0] != '\n'
    ensures ParseDailyLog(LogToMarkdown(log), fallbackStem, clock) == log.(content := log.content + "\n")
  {
    RoundTrip(log, fallbackStem, clock);
  }

  /** Text without a leading fence keeps its body, and every field takes its fallback. */
  lemma NoFrontmatter(raw: string, fallbackStem: string, clock: Clock)
    requires !StartsWith(raw, Fence)
    ensures var log := ParseDailyLog(raw, fallbackStem, clock);
      var date := NormalizeLogDate(fallbackStem, clock.today);
      && log.id == fallbackStem && log.date == date && log.title == "留痕 " + date
      && log.content == TrimStart(raw, IsNewline)
      && log.mood == "neutral" && log.syncRate == 80 && log.tags == "" && !log.autoGenerated
      && log.createdAt == clock.createdNow && log.updatedAt == clock.updatedNow
  {
  }

  // ---------------------------------------------------------------- file names

  /** Kept in a slug: alphanumerics (the Unicode class is a parameter), `-` and `_`. */
  function SlugChar(c: char, isAlphanumeric: char -> bool): char {
    if isAlphanumeric(c) || c == '-' || c == '_' then c else '-'
  }

  /** Every character mapped to its slug character. */
  function SlugChars(title: string, isAlphanumeric: char -> bool): (r: string)
    ensures |r| == |title|
    ensures forall k :: 0 <= k < |r| ==> r[k] == SlugChar(title[k], isAlphanumeric)
  {
    seq(|title|, k requires 0 <= k < |title| => SlugChar(title[k], isAlphanumeric))
  }

  /** `sanitize_title_for_filename`: other characters become `-`, dashes are trimmed at both ends, 24 characters are kept. */
  function SanitizeTitle(title: string, isAlphanumeric: char -> bool): string {
    var trimmed := Trim(SlugChars(title, isAlphanumeric), IsDash);
    trimmed[..if |trimmed| <= 24 then |trimmed| else 24]
  }

  /** A slug has at most 24 characters, all alphanumeric, `-` or `_`, and does not start with a dash. */
  lemma SanitizeShape(title: string, isAlphanumeric: char -> bool)
    ensures var r := SanitizeTitle(title, isAlphanumeric);
      && |r| <= 24
      && (forall k :: 0 <= k < |r| ==> isAlphanumeric(r[k]) || r[k] == '-' || r[k] == '_')
      && (r == [] || r[0] != '-')
  {
    var trimmed := Trim(SlugChars(title, isAlphanumeric), IsDash);
    SlugTrimmed(title, isAlphanumeric);
    var r := SanitizeTitle(title, isAlphanumeric);
    assert r == trimmed[..|r|];
  }

  /** The slug characters with dashes trimmed keep to the slug class and do not start with a dash. */
  lemma SlugTrimmed(title: string, isAlphanumeric: char -> bool)
    ensures var trimmed := Trim(SlugChars(title, isAlphanumeric), IsDash);
      (forall k :: 0 <= k < |trimmed| ==> isAlphanumeric(trimmed[k]) || trimmed[k] == '-' || trimmed[k] == '_')
      && (trimmed == [] || trimmed[0] != '-')
  {
    var mapped := SlugChars(title, isAlphanumeric);
    TrimKeepsClass(mapped, IsDash, c => isAlphanumeric(c) || c == '-' || c == '_');
  }

  /** A character that survives as itself into a slug and is not a dash. */
  predicate Sluggable(c: char, isAlphanumeric: char -> bool) {
    (isAlphanumeric(c) || c == '_') && c != '-'
  }

  /** The slug is empty exactly when the title has no alphanumeric character and no `_`. */
  lemma SanitizeEmpty(title: string, isAlphanumeric: char -> bool)
    ensures SanitizeTitle(title, isAlphanumeric) == [] <==> forall c :: c in title ==> !Sluggable(c, isAlphanumeric)
  {
    var mapped := SlugChars(title, isAlphanumeric);
    var none := forall c :: c in title ==> !Sluggable(c, isAlphanumeric);
    assert SanitizeTitle(title, isAlphanumeric) == [] <==> Trim(mapped, IsDash) == [];
    assert Trim(mapped, IsDash) == [] <==> none by {
      TrimEmptyIffBlank(mapped, IsDash);
      SlugsBlank(title, isAlphanumeric);
    }
  }

  /** Every slug character is a dash exactly when no title character is sluggable. */
  lemma SlugsBlank(title: string, isAlphanumeric: char -> bool)
    ensures Blank(SlugChars(title, isAlphanumeric), IsDash) <==> forall c :: c in title ==> !Sluggable(c, isAlphanumeric)
  {
    var mapped := SlugChars(title, isAlphanumeric);
    if !Blank(mapped, IsDash) {
      var k :| 0 <= k < |mapped| && !IsDash(mapped[k]);
      assert Sluggable(title[k], isAlphanumeric);
    } else {
      forall c | c in title
        ensures !Sluggable(c, isAlphanumeric)
      {
        var k :| 0 <= k < |title| && title[k] == c;
        assert IsDash(mapped[k]);
      }
    }
  }
}
