/**
 * The video helpers of a note (src/lib/videoBookmark.ts): `[m:ss]` and
 * `[h:mm:ss]` timestamp tags, the `---` frontmatter block at the top of a
 * note, and the `video` key kept in it. A frontmatter object is a list of
 * key/value pairs in insertion order, the order `Object.entries` lists
 * string keys in.
 */
module VideoBookmark {
  import opened Wrappers
  import opened Text
  import opened Numbers

  // ---------------------------------------------------------------- timestamp tags

  /** `[0-5]`: the leading digit of a minutes or seconds field. */
  predicate IsSexagesimalLead(c: char) {
    '0' <= c <= '5'
  }

  /** The number two digits denote. */
  function TwoDigits(hi: char, lo: char): (n: nat)
    requires IsDigit(hi) && IsDigit(lo)
    ensures n < 100
    ensures IsSexagesimalLead(hi) ==> n < 60
  {
    DigitValue(hi) * 10 + DigitValue(lo)
  }

  /** A matched tag: its first field, its second, its optional third, and its length in characters. */
  datatype Stamp = Stamp(lead: nat, middle: nat, last: Option<nat>, length: nat)

  /**
   * `\[(\d{1,2}):([0-5]\d)(?::([0-5]\d))?\]` tried at position `p`. The one
   * or two leading digits are the ones a `:` follows; the optional third
   * field is taken when it and the closing `]` are there, and otherwise the
   * `]` must follow the second field.
   */
  function StampAt(s: string, p: nat): (r: Option<Stamp>)
    ensures r.Some? ==> p + r.value.length <= |s| && 6 <= r.value.length <= 10
    ensures r.Some? ==> s[p] == '[' && s[p + r.value.length - 1] == ']'
    ensures r.Some? ==> r.value.lead < 100 && r.value.middle < 60
    ensures r.Some? && r.value.last.Some? ==> r.value.last.value < 60
  {
    if p + 6 > |s| || s[p] != '[' || !IsDigit(s[p + 1]) then None
    else
      var width := if s[p + 2] == ':' then 1 else if IsDigit(s[p + 2]) && s[p + 3] == ':' then 2 else 0;
      if width == 0 then None
      else
        var lead := if width == 1 then DigitValue(s[p + 1]) else TwoDigits(s[p + 1], s[p + 2]);
        var q := p + width + 2;
        if q + 3 > |s| || !IsSexagesimalLead(s[q]) || !IsDigit(s[q + 1]) then None
        else
          var middle := TwoDigits(s[q], s[q + 1]);
          if q + 6 <= |s| && s[q + 2] == ':' && IsSexagesimalLead(s[q + 3]) && IsDigit(s[q + 4]) && s[q + 5] == ']' then
            Some(Stamp(lead, middle, Some(TwoDigits(s[q + 3], s[q + 4])), q + 6 - p))
          else if s[q + 2] == ']' then Some(Stamp(lead, middle, None, q + 3 - p))
          else None
  }

  /** The seconds a tag stands for: hours, minutes and seconds, or minutes and seconds. */
  function Seconds(st: Stamp): nat {
    match st.last
    case Some(sec) => st.lead * 3600 + st.middle * 60 + sec
    case None => st.lead * 60 + st.middle
  }

  /** `timestampToSeconds`: the tag pattern anchored at both ends, or nothing. */
  function TimestampSeconds(s: string): (r: Option<nat>)
    ensures r.Some? ==> 6 <= |s| <= 10 && s[0] == '[' && s[|s| - 1] == ']'
    ensures r.Some? ==> r.value < 100 * 3600
  {
    match StampAt(s, 0)
    case Some(st) => if st.length == |s| then Some(Seconds(st)) else None
    case None => None
  }

  /** Two digits denote what `TwoDigits` says. */
  lemma TwoDigitValue(d: string)
    requires |d| == 2 && IsDigit(d[0]) && IsDigit(d[1])
    ensures AllDigits(d)
    ensures Value(d) == TwoDigits(d[0], d[1])
  {
    assert d[..1][..0] == [] && d[..1][0] == d[0];
    assert Value(d[..1]) == DigitValue(d[0]);
  }

  /** One or two digits denote their number. */
  lemma LeadValue(d: string)
    requires 1 <= |d| <= 2 && AllDigits(d)
    ensures Value(d) == if |d| == 1 then DigitValue(d[0]) else TwoDigits(d[0], d[1])
  {
    if |d| == 1 {
      assert d[..0] == [];
    } else {
      TwoDigitValue(d);
    }
  }

  /** A short tag, character by character: `[`, `w` digits, `:`, a seconds field, `]`. */
  lemma ShortTagChars(s: string, w: nat)
    requires (w == 1 || w == 2) && |s| == w + 5 && s[0] == '[' && AllDigits(s[1..w + 1])
    requires s[w + 1] == ':' && IsSexagesimalLead(s[w + 2]) && IsDigit(s[w + 3]) && s[w + 4] == ']'
    ensures TimestampSeconds(s) == Some(Value(s[1..w + 1]) * 60 + TwoDigits(s[w + 2], s[w + 3]))
  {
    assert IsDigit(s[1..w + 1][0]);
    LeadValue(s[1..w + 1]);
    if w == 2 {
      assert IsDigit(s[1..w + 1][1]);
    }
  }

  /** A long tag, character by character: `[`, `w` digits, `:`, two sexagesimal fields, `]`. */
  lemma LongTagChars(s: string, w: nat)
    requires (w == 1 || w == 2) && |s| == w + 8 && s[0] == '[' && AllDigits(s[1..w + 1])
    requires s[w + 1] == ':' && IsSexagesimalLead(s[w + 2]) && IsDigit(s[w + 3])
    requires s[w + 4] == ':' && IsSexagesimalLead(s[w + 5]) && IsDigit(s[w + 6]) && s[w + 7] == ']'
    ensures TimestampSeconds(s) == Some(Value(s[1..w + 1]) * 3600 + TwoDigits(s[w + 2], s[w + 3]) * 60 + TwoDigits(s[w + 5], s[w + 6]))
  {
    assert IsDigit(s[1..w + 1][0]);
    LeadValue(s[1..w + 1]);
    if w == 2 {
      assert IsDigit(s[1..w + 1][1]);
    }
  }

  /** A seconds field from 60 up is no tag. */
  lemma SecondsOutOfRange(m: string, ss: string)
    requires 1 <= |m| <= 2 && AllDigits(m)
    requires |ss| == 2 && '6' <= ss[0] <= '9' && IsDigit(ss[1])
    ensures TimestampSeconds("[" + m + ":" + ss + "]") == None
  {
    var s := "[" + m + ":" + ss + "]";
    if |m| == 1 {
      assert s[2] == ':' && s[3] == ss[0];
    } else {
      assert s[2] == m[1] && s[3] == ':' && s[4] == ss[0];
    }
  }

  /** The link that replaces a matched tag, or the tag itself when it gives no seconds. */
  function Anchor(full: string): string {
    match TimestampSeconds(full)
    case None => full
    case Some(secs) =>
      "<a href=\"#\" data-video-seconds=\"" + FormatNat(secs) + "\" class=\"video-timestamp-tag\">" + full + "</a>"
  }

  /** The global replace from position `p`: each tag found left to right becomes its link. */
  function ReplaceStampsFrom(s: string, p: nat): string
    decreases |s| - p
  {
    if p >= |s| then []
    else
      match StampAt(s, p)
      case Some(st) => Anchor(s[p..p + st.length]) + ReplaceStampsFrom(s, p + st.length)
      case None => [s[p]] + ReplaceStampsFrom(s, p + 1)
  }

  /** `replaceTimestampTagsWithLinks`: without a video URL the html is left as it is. */
  function ReplaceTimestampTagsWithLinks(html: string, videoUrl: Option<string>): (r: string)
    ensures videoUrl.None? || videoUrl.value == "" ==> r == html
  {
    if videoUrl.None? || videoUrl.value == "" then html else ReplaceStampsFrom(html, 0)
  }

  /** Html without a `[` holds no tag and comes back unchanged, with or without a URL. */
  lemma ReplaceWithoutBrackets(html: string, videoUrl: Option<string>)
    requires '[' !in html
    ensures ReplaceTimestampTagsWithLinks(html, videoUrl) == html
  {
    assert html[0..] == html;
    NoTagWithoutBracket(html, 0);
  }

  /** Every tag the global replace finds is one `timestampToSeconds` reads, so the fallback never applies. */
  lemma StampIsTimestamp(s: string, p: nat)
    requires StampAt(s, p).Some?
    ensures var st := StampAt(s, p).value;
      TimestampSeconds(s[p..p + st.length]) == Some(Seconds(st))
  {
    var st := StampAt(s, p).value;
    var t := s[p..p + st.length];
    assert forall k :: 0 <= k < |t| ==> t[k] == s[p + k];
    var r := StampAt(t, 0);
    assert r == Some(st);
  }

  /** Text from `p` on without a `[` passes through unchanged. */
  lemma {:induction false} NoTagWithoutBracket(s: string, p: nat)
    requires p <= |s| && '[' !in s[p..]
    ensures ReplaceStampsFrom(s, p) == s[p..]
    decreases |s| - p
  {
    if p < |s| {
      assert s[p] == s[p..][0];
      assert StampAt(s, p).None?;
      assert '[' !in s[p + 1..] by {
        assert forall k :: p + 1 <= k < |s| ==> s[k] in s[p..];
      }
      NoTagWithoutBracket(s, p + 1);
      assert s[p..] == [s[p]] + s[p + 1..];
    }
  }

  // ---------------------------------------------------------------- frontmatter objects

  type Entries = seq<(string, string)>

  /** No key occurs twice: what a plain object guarantees. */
  predicate UniqueKeys(es: Entries) {
    forall i, j :: 0 <= i < j < |es| ==> es[i].0 != es[j].0
  }

  /** `frontmatter[key]`. */
  function Lookup(es: Entries, key: string): (r: Option<string>)
    ensures r.None? <==> forall i :: 0 <= i < |es| ==> es[i].0 != key
  {
    if es == [] then None
    else if es[0].0 == key then Some(es[0].1)
    else Lookup(es[1..], key)
  }

  /**
   * `frontmatter[key] = value`: an existing key keeps its place and takes the
   * new value; a new key goes last.
   */
  function Put(es: Entries, key: string, value: string): (r: Entries)
    ensures Lookup(es, key).None? ==> r == es + [(key, value)]
    ensures Lookup(es, key).Some? ==> |r| == |es| && forall i :: 0 <= i < |es| ==> r[i].0 == es[i].0
  {
    if es == [] then [(key, value)]
    else if es[0].0 == key then [(key, value)] + es[1..]
    else [es[0]] + Put(es[1..], key, value)
  }

  /** After the assignment the key reads as the new value and every other key as before. */
  lemma {:induction false} PutLookup(es: Entries, key: string, value: string, other: string)
    ensures Lookup(Put(es, key, value), key) == Some(value)
    ensures other != key ==> Lookup(Put(es, key, value), other) == Lookup(es, other)
  {
    if es != [] && es[0].0 != key {
      PutLookup(es[1..], key, value, other);
    }
  }

  /** The assignment keeps keys unique. */
  lemma {:induction false} PutUnique(es: Entries, key: string, value: string)
    requires UniqueKeys(es)
    ensures UniqueKeys(Put(es, key, value))
  {
    var r := Put(es, key, value);
    if Lookup(es, key).Some? {
      assert forall i :: 0 <= i < |es| ==> r[i].0 == es[i].0;
    } else {
      assert forall i :: 0 <= i < |es| ==> es[i].0 != key;
    }
  }

  // ---------------------------------------------------------------- parseFrontmatter

  /**
   * `^---\n([\s\S]*?)\n---\n?`: the text between the opening `---` line and
   * the first later `\n---`, and the length of the whole match, which takes
   * one more newline when there is one.
   */
  function FrontBlock(content: string): (r: Option<(string, nat)>)
    ensures r.Some? ==> r.value.1 <= |content|
  {
    if !StartsWith(content, "---\n") then None
    else
      match FindFrom(content, "\n---", 4)
      case None => None
      case Some(k) =>
        var end := k + 4;
        Some((content[4..k], if end < |content| && content[end] == '\n' then end + 1 else end))
  }

  /** The key and value of one frontmatter line: split at its first `:`, which must not be its first character. */
  function LineEntry(line: string): Option<(string, string)> {
    match IndexOfChar(line, ':')
    case None => None
    case Some(idx) =>
      if idx == 0 then None
      else Some((Trim(line[..idx], IsJsSpace), Trim(line[idx + 1..], IsJsSpace)))
  }

  /** How a line is read as an entry; `LineEntry` is the reading `parseFrontmatter` uses. */
  type LineRead = string -> Option<(string, string)>

  /** One step of the loop: the line's entry, if any, is assigned. */
  function AssignEntry(es: Entries, entry: Option<(string, string)>): Entries {
    match entry
    case Some((key, value)) => Put(es, key, value)
    case None => es
  }

  /** The object lines build when each line's entry is assigned in turn. */
  function EntriesWith(lines: seq<string>, read: LineRead): Entries
    decreases |lines|
  {
    if lines == [] then []
    else AssignEntry(EntriesWith(lines[..|lines| - 1], read), read(lines[|lines| - 1]))
  }

  /** The object `parseFrontmatter` builds from the lines of the block. */
  function EntriesOf(lines: seq<string>): Entries {
    EntriesWith(lines, LineEntry)
  }

  /** `parseFrontmatter`: the frontmatter object and the body after the block. */
  function Parsed(content: string): (r: (Entries, string))
    ensures !StartsWith(content, "---\n") ==> r == ([], content)
  {
    match FrontBlock(content)
    case None => ([], content)
    case Some((raw, n)) => (EntriesOf(Split(raw, '\n')), content[n..])
  }

  /** The entry assigns `key`. */
  predicate Sets(entry: Option<(string, string)>, key: string) {
    entry.Some? && entry.value.0 == key
  }

  /** An entry for another key, or none, leaves a key's value alone; an entry for it sets it. */
  lemma AssignLookup(es: Entries, entry: Option<(string, string)>, key: string)
    ensures !Sets(entry, key) ==> Lookup(AssignEntry(es, entry), key) == Lookup(es, key)
    ensures Sets(entry, key) ==> Lookup(AssignEntry(es, entry), key) == Some(entry.value.1)
  {
    match entry
    case Some((k, v)) => PutLookup(es, k, v, key);
    case None =>
  }

  lemma {:induction false} UnassignedWith(lines: seq<string>, read: LineRead, key: string)
    requires forall i :: 0 <= i < |lines| ==> !Sets(read(lines[i]), key)
    ensures Lookup(EntriesWith(lines, read), key) == None
    decreases |lines|
  {
    if lines != [] {
      var init := lines[..|lines| - 1];
      UnassignedWith(init, read, key);
      AssignLookup(EntriesWith(init, read), read(lines[|lines| - 1]), key);
    }
  }

  /** A key no line of the block assigns is absent. */
  lemma UnassignedKeyAbsent(lines: seq<string>, key: string)
    requires forall i :: 0 <= i < |lines| ==> !Sets(LineEntry(lines[i]), key)
    ensures Lookup(EntriesOf(lines), key) == None
  {
    UnassignedWith(lines, LineEntry, key);
  }

  lemma {:induction false} LastWith(lines: seq<string>, read: LineRead, i: nat, key: string, value: string)
    requires i < |lines| && read(lines[i]) == Some((key, value))
    requires forall j :: i < j < |lines| ==> !Sets(read(lines[j]), key)
    ensures Lookup(EntriesWith(lines, read), key) == Some(value)
    decreases |lines|
  {
    var init := lines[..|lines| - 1];
    AssignLookup(EntriesWith(init, read), read(lines[|lines| - 1]), key);
    if i < |lines| - 1 {
      LastWith(init, read, i, key, value);
    }
  }

  /** The last line assigning a key decides its value: a later duplicate overwrites an earlier one. */
  lemma LastAssignmentWins(lines: seq<string>, i: nat, key: string, value: string)
    requires i < |lines| && LineEntry(lines[i]) == Some((key, value))
    requires forall j :: i < j < |lines| ==> !Sets(LineEntry(lines[j]), key)
    ensures Lookup(EntriesOf(lines), key) == Some(value)
  {
    LastWith(lines, LineEntry, i, key, value);
  }

  /** Lines read as entries, one per line, rebuild those entries when their keys are unique. */
  lemma {:induction false} ReadsBackWith(lines: seq<string>, read: LineRead, es: Entries)
    requires |lines| == |es| && UniqueKeys(es)
    requires forall i :: 0 <= i < |lines| ==> read(lines[i]) == Some(es[i])
    ensures EntriesWith(lines, read) == es
    decreases |lines|
  {
    if lines != [] {
      var n := |lines| - 1;
      var init := es[..n];
      var e := es[n];
      ReadsBackWith(lines[..n], read, init);
      assert Lookup(init, e.0).None? by {
        assert forall i :: 0 <= i < |init| ==> init[i].0 != e.0;
      }
      assert init + [e] == es;
    }
  }

  /** What every entry of a parsed object satisfies: keys and values trimmed and on one line, keys without `:`. */
  predicate CleanEntry(e: (string, string)) {
    && Trimmed(e.0, IsJsSpace) && Trimmed(e.1, IsJsSpace)
    && '\n' !in e.0 && '\n' !in e.1 && ':' !in e.0
  }

  /** The entry of a single-line line is clean. */
  lemma LineEntryClean(line: string)
    requires '\n' !in line && LineEntry(line).Some?
    ensures CleanEntry(LineEntry(line).value)
  {
    var idx := IndexOfChar(line, ':').value;
    assert forall c :: c in line[..idx] ==> c in line;
    assert forall c :: c in line[idx + 1..] ==> c in line;
    TrimKeepsAbsence(line[..idx], IsJsSpace, '\n');
    TrimKeepsAbsence(line[..idx], IsJsSpace, ':');
    TrimKeepsAbsence(line[idx + 1..], IsJsSpace, '\n');
  }

  /** No entry, or a clean one. */
  predicate CleanRead(entry: Option<(string, string)>) {
    entry.Some? ==> CleanEntry(entry.value)
  }

  /** Lines read as clean entries build an object with unique keys and clean entries. */
  lemma {:induction false} EntriesWithClean(lines: seq<string>, read: LineRead)
    requires forall i :: 0 <= i < |lines| ==> CleanRead(read(lines[i]))
    ensures UniqueKeys(EntriesWith(lines, read))
    ensures forall e :: e in EntriesWith(lines, read) ==> CleanEntry(e)
    decreases |lines|
  {
    if lines != [] {
      var init := lines[..|lines| - 1];
      var entry := read(lines[|lines| - 1]);
      EntriesWithClean(init, read);
      if entry.Some? {
        PutUnique(EntriesWith(init, read), entry.value.0, entry.value.1);
        PutClean(EntriesWith(init, read), entry.value.0, entry.value.1);
      }
    }
  }

  /** Assigning a clean entry keeps every entry clean. */
  lemma {:induction false} PutClean(es: Entries, key: string, value: string)
    requires forall e :: e in es ==> CleanEntry(e)
    requires CleanEntry((key, value))
    ensures forall e :: e in Put(es, key, value) ==> CleanEntry(e)
  {
    if es != [] && es[0].0 != key {
      assert forall e :: e in es[1..] ==> e in es;
      PutClean(es[1..], key, value);
    }
  }

  /** A parsed object has unique keys and clean entries. */
  lemma ParsedClean(content: string)
    ensures UniqueKeys(Parsed(content).0)
    ensures forall e :: e in Parsed(content).0 ==> CleanEntry(e)
  {
    match FrontBlock(content)
    case None =>
    case Some((raw, n)) =>
      var lines := Split(raw, '\n');
      SplitPiecesFree(raw, '\n');
      forall i | 0 <= i < |lines|
        ensures CleanRead(LineEntry(lines[i]))
      {
        assert lines[i] in lines;
        if LineEntry(lines[i]).Some? {
          LineEntryClean(lines[i]);
        }
      }
      EntriesWithClean(lines, LineEntry);
  }

  /** One pass of the loop body: a line with a `:` past its start assigns its trimmed key and value. */
  method AssignLine(frontmatter: Entries, line: string) returns (updated: Entries)
    ensures updated == AssignEntry(frontmatter, LineEntry(line))
  {
    updated := frontmatter;
    var idx := IndexOfChar(line, ':');
    if idx.Some? && idx.value > 0 {
      var key := Trim(line[..idx.value], IsJsSpace);
      var value := Trim(line[idx.value + 1..], IsJsSpace);
      updated := Put(frontmatter, key, value);
    }
  }

  /** `parseFrontmatter`: the block's lines assigned in order, and the body after the block. */
  method ParseFrontmatter(content: string) returns (frontmatter: Entries, body: string)
    ensures (frontmatter, body) == Parsed(content)
  {
    var block := FrontBlock(content);
    if block.None? {
      return [], content;
    }
    var raw := block.value.0;
    var lines := Split(raw, '\n');
    frontmatter := [];
    var i := 0;
    while i < |lines|
      invariant 0 <= i <= |lines|
      invariant frontmatter == EntriesOf(lines[..i])
    {
      assert lines[..i + 1][..i] == lines[..i];
      frontmatter := AssignLine(frontmatter, lines[i]);
      i := i + 1;
    }
    assert lines[..i] == lines;
    body := content[block.value.1..];
  }

  // ---------------------------------------------------------------- the video key

  /** One `key: value` line per entry. */
  function Render(es: Entries): (r: seq<string>)
    ensures |r| == |es|
  {
    seq(|es|, i requires 0 <= i < |es| => es[i].0 + ": " + es[i].1)
  }

  /** `upsertVideoFrontmatter`: the object with `video` assigned, written back as a block above the body. */
  function Upsert(content: string, videoUrl: string): string {
    var (frontmatter, body) := Parsed(content);
    var es := Put(frontmatter, "video", videoUrl);
    "---\n" + Join(Render(es), "\n") + "\n---\n\n" + body
  }

  /** `getVideoUrlFromMarkdown`: the `video` value, when it is not empty. */
  function VideoUrl(content: string): Option<string> {
    match Lookup(Parsed(content).0, "video")
    case Some(v) => if v == "" then None else Some(v)
    case None => None
  }

  /** A key the round trip keeps: not empty, so its line does not start with `:`, and not opening with `---`. */
  predicate SafeKey(key: string) {
    key != "" && !StartsWith(key, "---")
  }

  /** A written line: on one line, and its first three characters are not `---`. */
  predicate SafeLine(line: string) {
    '\n' !in line && |line| >= 3 && line[..3] != "---"
  }

  lemma RenderedLineSafe(e: (string, string))
    requires CleanEntry(e) && SafeKey(e.0)
    ensures SafeLine(e.0 + ": " + e.1)
  {
    var line := e.0 + ": " + e.1;
    if |e.0| >= 3 {
      assert line[..3] == e.0[..3];
    } else {
      assert line[|e.0|] == ':';
    }
  }

  /** `\n---` starts nowhere inside lines joined with newlines, whatever follows them. */
  lemma {:induction false} NoCloseInside(parts: seq<string>, tail: string)
    requires |parts| >= 1 && forall p :: p in parts ==> SafeLine(p)
    ensures forall j :: 0 <= j < |Join(parts, "\n")| ==> !OccursAt(Join(parts, "\n") + tail, "\n---", j)
    decreases |parts|
  {
    assert SafeLine(parts[0]);
    if |parts| == 1 {
      NoCloseInLine(parts[0], tail);
    } else {
      var rest := Join(parts[1..], "\n");
      assert forall p :: p in parts[1..] ==> p in parts;
      NoCloseInside(parts[1..], tail);
      assert SafeLine(parts[1]);
      assert rest[..3] == parts[1][..3] by {
        if |parts| > 2 {
          assert rest == parts[1] + "\n" + Join(parts[2..], "\n");
        }
      }
      NoCloseAcrossNewline(parts[0], rest, tail);
      assert Join(parts, "\n") + tail == (parts[0] + "\n") + (rest + tail);
    }
  }

  /** A safe line holds no newline, so `\n---` starts nowhere inside it. */
  lemma NoCloseInLine(line: string, tail: string)
    requires SafeLine(line)
    ensures forall j :: 0 <= j < |line| ==> !OccursAt(line + tail, "\n---", j)
  {
    forall j | 0 <= j < |line|
      ensures !OccursAt(line + tail, "\n---", j)
    {
      assert (line + tail)[j] == line[j];
    }
  }

  /** A safe line, a newline, then text not opening with `---` and free of `\n---`: no `\n---` starts before that text ends. */
  lemma NoCloseAcrossNewline(line: string, rest: string, tail: string)
    requires SafeLine(line) && |rest| >= 3 && rest[..3] != "---"
    requires forall j :: 0 <= j < |rest| ==> !OccursAt(rest + tail, "\n---", j)
    ensures forall j :: 0 <= j < |line| + 1 + |rest| ==> !OccursAt((line + "\n") + (rest + tail), "\n---", j)
  {
    var s := (line + "\n") + (rest + tail);
    forall j | 0 <= j < |line| + 1 + |rest|
      ensures !OccursAt(s, "\n---", j)
    {
      if j < |line| {
        assert s[j] == line[j];
      } else if j == |line| {
        assert s[j + 1..j + 4] == rest[..3];
      } else {
        OccursAfterPrefix(line + "\n", rest + tail, "\n---", j);
      }
    }
  }

  /** A line written from a clean entry reads back as that entry. */
  lemma RenderedLineEntry(e: (string, string))
    requires CleanEntry(e) && e.0 != ""
    ensures LineEntry(e.0 + ": " + e.1) == Some(e)
  {
    var line := e.0 + ": " + e.1;
    var idx := |e.0|;
    assert IndexOfChar(line, ':') == Some(idx) by {
      assert line[..idx] == e.0 && line[idx] == ':';
      IndexOfCharAt(line, ':', idx);
    }
    assert Trim(line[..idx], IsJsSpace) == e.0 by {
      assert line[..idx] == e.0;
      TrimOfTrimmed(e.0, IsJsSpace);
    }
    assert Trim(line[idx + 1..], IsJsSpace) == e.1 by {
      assert line[idx + 1..] == [' '] + e.1;
      TrimSkipsLead(' ', e.1, IsJsSpace);
      TrimOfTrimmed(e.1, IsJsSpace);
    }
  }

  /** Writing an object and reading the lines back gives the same object. */
  lemma RenderReadsBack(es: Entries)
    requires UniqueKeys(es)
    requires forall e :: e in es ==> CleanEntry(e) && e.0 != ""
    ensures EntriesOf(Render(es)) == es
  {
    var lines := Render(es);
    forall i | 0 <= i < |lines|
      ensures LineEntry(lines[i]) == Some(es[i])
    {
      assert es[i] in es;
      RenderedLineEntry(es[i]);
    }
    ReadsBackWith(lines, LineEntry, es);
  }

  /** A block whose text holds no `\n---` ends at the closing line, and the blank line after it begins the body. */
  lemma ClosingLineFound(joined: string, body: string)
    requires forall j :: 0 <= j < |joined| ==> !OccursAt(joined + ("\n---\n\n" + body), "\n---", j)
    ensures FrontBlock("---\n" + (joined + ("\n---\n\n" + body))) == Some((joined, |joined| + 9))
  {
    var tail := "\n---\n\n" + body;
    var out := "---\n" + (joined + tail);
    assert StartsWith(out, "---\n");
    assert OccursAt(out, "\n---", 4 + |joined|) by {
      assert out[4 + |joined|..8 + |joined|] == tail[..4];
    }
    forall j | 4 <= j < 4 + |joined|
      ensures !OccursAt(out, "\n---", j)
    {
      OccursAfterPrefix("---\n", joined + tail, "\n---", j);
    }
    FindFromAt(out, "\n---", 4, 4 + |joined|);
    assert out[8 + |joined|] == '\n';
    assert out[4..4 + |joined|] == joined;
  }

  /** The lines written for a clean object with safe keys are safe. */
  lemma RenderSafe(es: Entries)
    requires forall e :: e in es ==> CleanEntry(e) && SafeKey(e.0)
    ensures forall p :: p in Render(es) ==> SafeLine(p)
  {
    var lines := Render(es);
    forall p | p in lines
      ensures SafeLine(p)
    {
      var i :| 0 <= i < |lines| && lines[i] == p;
      assert es[i] in es;
      RenderedLineSafe(es[i]);
    }
  }

  /**
   * Reading back what `upsertVideoFrontmatter` wrote gives the object with
   * `video` assigned and the body behind one more newline, when every key is
   * safe and the URL is non-empty, trimmed and on one line.
   */
  lemma UpsertReadsBack(content: string, videoUrl: string)
    requires videoUrl != "" && '\n' !in videoUrl && Trimmed(videoUrl, IsJsSpace)
    requires forall e :: e in Parsed(content).0 ==> SafeKey(e.0)
    ensures Parsed(Upsert(content, videoUrl)) == (Put(Parsed(content).0, "video", videoUrl), "\n" + Parsed(content).1)
  {
    var (frontmatter, body) := Parsed(content);
    var es := Put(frontmatter, "video", videoUrl);
    ParsedClean(content);
    VideoAssigned(frontmatter, videoUrl);
    var joined := Join(Render(es), "\n");
    assert Upsert(content, videoUrl) == "---\n" + joined + "\n---\n\n" + body;
    WrittenReadsBack(Upsert(content, videoUrl), joined, body, es);
  }

  /** Assigning a clean URL to `video` in a clean object with safe keys leaves a non-empty, clean object with safe keys. */
  lemma VideoAssigned(frontmatter: Entries, videoUrl: string)
    requires videoUrl != "" && '\n' !in videoUrl && Trimmed(videoUrl, IsJsSpace)
    requires UniqueKeys(frontmatter) && forall e :: e in frontmatter ==> CleanEntry(e) && SafeKey(e.0)
    ensures var es := Put(frontmatter, "video", videoUrl);
      es != [] && UniqueKeys(es) && forall e :: e in es ==> CleanEntry(e) && SafeKey(e.0)
  {
    PutUnique(frontmatter, "video", videoUrl);
    PutClean(frontmatter, "video", videoUrl);
    assert SafeKey("video") by {
      assert "video"[..3][0] != '-';
    }
    PutKeys(frontmatter, "video", videoUrl);
    if Lookup(frontmatter, "video").Some? {
      assert frontmatter != [];
    }
  }

  /** A block written from a clean object with safe keys, above a body, parses back to the object and the body behind a newline. */
  lemma WrittenReadsBack(out: string, joined: string, body: string, es: Entries)
    requires UniqueKeys(es) && forall e :: e in es ==> CleanEntry(e) && SafeKey(e.0)
    requires es != [] && joined == Join(Render(es), "\n")
    requires out == "---\n" + joined + "\n---\n\n" + body
    ensures Parsed(out) == (es, "\n" + body)
  {
    var lines := Render(es);
    RenderSafe(es);
    WrittenBlockFound(out, lines, body);
    assert EntriesOf(Split(joined, '\n')) == es by {
      assert forall p :: p in lines ==> '\n' !in p;
      SplitJoin(lines, '\n');
      RenderReadsBack(es);
    }
  }

  /** Safe lines written as a block above a body: the block holds exactly the joined lines, and the body follows behind a newline. */
  lemma WrittenBlockFound(out: string, lines: seq<string>, body: string)
    requires |lines| >= 1 && forall p :: p in lines ==> SafeLine(p)
    requires out == "---\n" + Join(lines, "\n") + "\n---\n\n" + body
    ensures var joined := Join(lines, "\n");
      FrontBlock(out) == Some((joined, |joined| + 9)) && out[|joined| + 9..] == "\n" + body
  {
    var joined := Join(lines, "\n");
    var tail := "\n---\n\n" + body;
    assert out == "---\n" + (joined + tail);
    NoCloseInside(lines, tail);
    ClosingLineFound(joined, body);
    var head := "---\n" + joined + "\n---\n";
    assert out == head + ("\n" + body);
    assert out[|head|..] == "\n" + body;
  }

  /** The keys after assigning `video`: the old ones, and `video` if it was new; all are safe when the old ones were. */
  lemma PutKeys(es: Entries, key: string, value: string)
    requires forall e :: e in es ==> SafeKey(e.0)
    requires SafeKey(key)
    ensures forall e :: e in Put(es, key, value) ==> SafeKey(e.0)
  {
    var r := Put(es, key, value);
    if Lookup(es, key).Some? {
      forall e | e in r
        ensures SafeKey(e.0)
      {
        var i :| 0 <= i < |r| && r[i] == e;
        assert es[i] in es;
      }
    }
  }

  /** After the upsert the note reads back with exactly the URL written. */
  lemma UpsertThenGet(content: string, videoUrl: string)
    requires videoUrl != "" && '\n' !in videoUrl && Trimmed(videoUrl, IsJsSpace)
    requires forall e :: e in Parsed(content).0 ==> SafeKey(e.0)
    ensures VideoUrl(Upsert(content, videoUrl)) == Some(videoUrl)
  {
    UpsertReadsBack(content, videoUrl);
    PutLookup(Parsed(content).0, "video", videoUrl, "video");
  }

  /** The upsert keeps every other key's value. */
  lemma UpsertKeepsOthers(content: string, videoUrl: string, key: string)
    requires videoUrl != "" && '\n' !in videoUrl && Trimmed(videoUrl, IsJsSpace)
    requires forall e :: e in Parsed(content).0 ==> SafeKey(e.0)
    requires key != "video"
    ensures Lookup(Parsed(Upsert(content, videoUrl)).0, key) == Lookup(Parsed(content).0, key)
  {
    UpsertReadsBack(content, videoUrl);
    PutLookup(Parsed(content).0, "video", videoUrl, key);
  }
}
