/**
 * The list logic of the resources page (src/pages/Resources.tsx): selecting
 * resources, the saved Bilibili video bookmarks (reading a BV id out of the
 * input, refusing duplicates, adding and removing) and the duration text of
 * a video. The metadata request, the clock, random ids and storage are left
 * out: their results are parameters and the stored list is the result.
 */
module Resources {
  import opened Wrappers
  import opened Text
  import opened Numbers
  import opened ClockText

  // ---------------------------------------------------------------- selection

  /** The test `x !== id` the selection is filtered with. */
  function Unselected(id: int): int -> bool {
    x => x != id
  }

  /** `toggleSelection(id)`: a selected id is dropped, any other appended. */
  function ToggleSelection(selected: seq<int>, id: int): seq<int> {
    if id in selected then Filter(selected, Unselected(id)) else selected + [id]
  }

  /**
   * Toggling flips whether the id is selected and leaves every other id as it
   * was; toggling twice restores what is selected, and restores the very list
   * when the id was not selected before.
   */
  lemma ToggleSelectionTwice(selected: seq<int>, id: int)
    ensures id in ToggleSelection(selected, id) <==> id !in selected
    ensures forall x :: x != id ==> (x in ToggleSelection(selected, id) <==> x in selected)
    ensures forall x :: x in ToggleSelection(ToggleSelection(selected, id), id) <==> x in selected
    ensures id !in selected ==> ToggleSelection(ToggleSelection(selected, id), id) == selected
  {
    if id !in selected {
      var once := selected + [id];
      assert forall k :: 0 <= k < |selected| ==> Unselected(id)(selected[k]);
      FilterAll(selected, Unselected(id));
      FilterAppend(selected, [id], Unselected(id));
      assert Filter([id], Unselected(id)) == [];
      assert selected + [] == selected;
    }
  }

  // ---------------------------------------------------------------- BV ids

  /** A character of the class `[0-9A-Za-z]`. */
  predicate IsAsciiAlnum(c: char) {
    ('0' <= c <= '9') || ('A' <= c <= 'Z') || ('a' <= c <= 'z')
  }

  /** A match of `/BV[0-9A-Za-z]+/i` starts at `i`. */
  predicate BvStart(s: string, i: int) {
    0 <= i && i + 2 < |s|
    && (s[i] == 'B' || s[i] == 'b') && (s[i + 1] == 'V' || s[i + 1] == 'v') && IsAsciiAlnum(s[i + 2])
  }

  /** Text the pattern matches as a whole: `BV` in any case, then at least one letter or digit. */
  predicate IsBvid(b: string) {
    |b| >= 3 && (b[0] == 'B' || b[0] == 'b') && (b[1] == 'V' || b[1] == 'v')
    && forall k :: 2 <= k < |b| ==> IsAsciiAlnum(b[k])
  }

  /** The length of the run of letters and digits starting at `j`. */
  function AlnumRun(s: string, j: nat): (n: nat)
    requires j <= |s|
    ensures j + n <= |s|
    ensures forall k :: j <= k < j + n ==> IsAsciiAlnum(s[k])
    ensures j + n == |s| || !IsAsciiAlnum(s[j + n])
    decreases |s| - j
  {
    if j < |s| && IsAsciiAlnum(s[j]) then 1 + AlnumRun(s, j + 1) else 0
  }

  /** The first position at or after `i` where a match starts, if any. */
  function FirstBvStart(s: string, i: nat): (r: Option<nat>)
    ensures r.Some? ==> i <= r.value && BvStart(s, r.value)
    ensures r.Some? ==> forall j :: i <= j < r.value ==> !BvStart(s, j)
    ensures r.None? ==> forall j :: i <= j ==> !BvStart(s, j)
    decreases |s| - i
  {
    if i + 2 >= |s| then None
    else if BvStart(s, i) then Some(i)
    else FirstBvStart(s, i + 1)
  }

  /**
   * `s.match(/BV[0-9A-Za-z]+/i)?.[0]`: the leftmost match, as long as it
   * goes.
   */
  function MatchBv(s: string): (r: Option<string>)
    ensures r.Some? ==> IsBvid(r.value)
    ensures r.None? <==> forall j :: 0 <= j < |s| ==> !BvStart(s, j)
  {
    match FirstBvStart(s, 0)
    case Some(k) =>
      var n := AlnumRun(s, k + 2);
      var b := s[k..k + 2 + n];
      assert forall m :: 2 <= m < |b| ==> b[m] == s[k + m];
      Some(b)
    case None => None
  }

  /** The match starts at the first matching position and runs to the end of its letters and digits. */
  lemma MatchBvLeftmost(s: string)
    requires MatchBv(s).Some?
    ensures exists k :: (0 <= k && BvStart(s, k) && (forall j :: 0 <= j < k ==> !BvStart(s, j))
      && MatchBv(s) == Some(s[k..k + 2 + AlnumRun(s, k + 2)]))
  {
    var k := FirstBvStart(s, 0).value;
    assert BvStart(s, k) && forall j :: 0 <= j < k ==> !BvStart(s, j);
  }

  /**
   * `parseBvid(input)`: the BV id in the input itself, else the one in the
   * video link found in it (`extractUrl` stands for `extractBilibiliVideoUrl`),
   * else none.
   */
  function ParseBvid(input: string, extractUrl: string -> Option<string>): (r: Option<string>)
    ensures r.Some? ==> IsBvid(r.value)
    ensures MatchBv(input).Some? ==> r == MatchBv(input)
  {
    match MatchBv(input)
    case Some(b) => Some(b)
    case None =>
      match extractUrl(input)
      case Some(url) => if url == "" then None else MatchBv(url)
      case None => None
  }

  // ---------------------------------------------------------------- bookmarks

  /** `VideoBookmark`. */
  datatype VideoBookmark = VideoBookmark(
    id: string, url: string, bvid: string, title: string, pic: string,
    ownerName: string, duration: int, createdAt: string)

  const InvalidInput := "请输入有效 B 站链接或 BV 号"
  const DuplicateVideo := "该视频已存在书签"
  const UnknownOwner := "未知UP主"

  /** The bookmark made when no metadata arrives. */
  function FallbackBookmark(bvid: string, freshId: string, nowIso: string): VideoBookmark {
    VideoBookmark(freshId, "https://www.bilibili.com/video/" + bvid, bvid, bvid, "", UnknownOwner, 0, nowIso)
  }

  /** Some bookmark has the BV id, compared without regard to case. */
  predicate HasBvid(bookmarks: seq<VideoBookmark>, bvid: string) {
    exists i :: 0 <= i < |bookmarks| && Lower(bookmarks[i].bvid) == Lower(bvid)
  }

  /**
   * `addVideoBookmark()` on the bookmark list: the trimmed input must yield a
   * BV id that no bookmark has yet, and then the bookmark built from the
   * metadata, or the fallback one when `metadata` is none, goes first.
   */
  function AddVideoBookmark(bookmarks: seq<VideoBookmark>, input: string, extractUrl: string -> Option<string>,
                            metadata: Option<VideoBookmark>, freshId: string, nowIso: string)
    : Result<seq<VideoBookmark>, string>
  {
    AddParsed(bookmarks, ParseBvid(Trim(input, IsJsSpace), extractUrl), metadata, freshId, nowIso)
  }

  /** The steps of `addVideoBookmark()` after the BV id has been read. */
  function AddParsed(bookmarks: seq<VideoBookmark>, parsed: Option<string>,
                     metadata: Option<VideoBookmark>, freshId: string, nowIso: string)
    : Result<seq<VideoBookmark>, string>
  {
    match parsed
    case None => Err(InvalidInput)
    case Some(bvid) =>
      if HasBvid(bookmarks, bvid) then Err(DuplicateVideo)
      else
        var bookmark := if metadata.Some? then metadata.value else FallbackBookmark(bvid, freshId, nowIso);
        Ok([bookmark] + bookmarks)
  }

  /**
   * Input without a BV id is refused, a BV id already saved is refused, and
   * otherwise exactly one bookmark is put in front of the unchanged list.
   */
  lemma AddVideoBookmarkEffect(bookmarks: seq<VideoBookmark>, input: string, extractUrl: string -> Option<string>,
                               metadata: Option<VideoBookmark>, freshId: string, nowIso: string)
    ensures var parsed := ParseBvid(Trim(input, IsJsSpace), extractUrl);
      var r := AddVideoBookmark(bookmarks, input, extractUrl, metadata, freshId, nowIso);
      && (parsed.None? <==> r == Err(InvalidInput))
      && (parsed.Some? && HasBvid(bookmarks, parsed.value) <==> r == Err(DuplicateVideo))
      && (r.Ok? ==> |r.value| == |bookmarks| + 1 && r.value[1..] == bookmarks)
      && (r.Ok? && metadata.None? ==> r.value[0].bvid == parsed.value && r.value[0].id == freshId)
  {
    AddParsedEffect(bookmarks, ParseBvid(Trim(input, IsJsSpace), extractUrl), metadata, freshId, nowIso);
  }

  lemma AddParsedEffect(bookmarks: seq<VideoBookmark>, parsed: Option<string>,
                        metadata: Option<VideoBookmark>, freshId: string, nowIso: string)
    ensures var r := AddParsed(bookmarks, parsed, metadata, freshId, nowIso);
      && (parsed.None? <==> r == Err(InvalidInput))
      && (parsed.Some? && HasBvid(bookmarks, parsed.value) <==> r == Err(DuplicateVideo))
      && (r.Ok? ==> |r.value| == |bookmarks| + 1 && r.value[1..] == bookmarks)
      && (r.Ok? && metadata.None? ==> r.value[0].bvid == parsed.value && r.value[0].id == freshId)
  {
    var r := AddParsed(bookmarks, parsed, metadata, freshId, nowIso);
    assert InvalidInput != DuplicateVideo;
    if r.Ok? {
      assert r.value[1..] == bookmarks;
    }
  }

  /** Adding the same input again right after it was added is refused as a duplicate. */
  lemma AddTwiceRefused(bookmarks: seq<VideoBookmark>, input: string, extractUrl: string -> Option<string>,
                        metadata: Option<VideoBookmark>, freshId: string, nowIso: string,
                        later: Option<VideoBookmark>, laterId: string, laterIso: string)
    requires AddVideoBookmark(bookmarks, input, extractUrl, metadata, freshId, nowIso).Ok?
    requires metadata.Some? ==> metadata.value.bvid == ParseBvid(Trim(input, IsJsSpace), extractUrl).value
    ensures var added := AddVideoBookmark(bookmarks, input, extractUrl, metadata, freshId, nowIso).value;
      AddVideoBookmark(added, input, extractUrl, later, laterId, laterIso) == Err(DuplicateVideo)
  {
    var parsed := ParseBvid(Trim(input, IsJsSpace), extractUrl);
    AddParsedTwice(bookmarks, parsed, metadata, freshId, nowIso, later, laterId, laterIso);
  }

  lemma AddParsedTwice(bookmarks: seq<VideoBookmark>, parsed: Option<string>,
                       metadata: Option<VideoBookmark>, freshId: string, nowIso: string,
                       later: Option<VideoBookmark>, laterId: string, laterIso: string)
    requires AddParsed(bookmarks, parsed, metadata, freshId, nowIso).Ok?
    requires metadata.Some? ==> metadata.value.bvid == parsed.value
    ensures var added := AddParsed(bookmarks, parsed, metadata, freshId, nowIso).value;
      AddParsed(added, parsed, later, laterId, laterIso) == Err(DuplicateVideo)
  {
    var added := AddParsed(bookmarks, parsed, metadata, freshId, nowIso).value;
    assert Lower(added[0].bvid) == Lower(parsed.value);
  }

  /** The test `x.id !== id` the bookmarks are filtered with. */
  function OtherBookmark(id: string): VideoBookmark -> bool {
    (x: VideoBookmark) => x.id != id
  }

  /** `removeVideoBookmark(id)`: every bookmark with the id is dropped, the rest kept in order. */
  function RemoveVideoBookmark(bookmarks: seq<VideoBookmark>, id: string): (r: seq<VideoBookmark>)
    ensures forall b :: b in r <==> b in bookmarks && b.id != id
  {
    Filter(bookmarks, OtherBookmark(id))
  }

  /** Removing keeps the order of the other bookmarks: it acts on two joined lists one list at a time. */
  lemma RemoveAppend(a: seq<VideoBookmark>, b: seq<VideoBookmark>, id: string)
    ensures RemoveVideoBookmark(a + b, id) == RemoveVideoBookmark(a, id) + RemoveVideoBookmark(b, id)
  {
    FilterAppend(a, b, OtherBookmark(id));
  }

  /** Removing a bookmark just added under an id no other bookmark has gives the old list back. */
  lemma AddThenRemove(bookmarks: seq<VideoBookmark>, input: string, extractUrl: string -> Option<string>,
                      metadata: Option<VideoBookmark>, freshId: string, nowIso: string, added: seq<VideoBookmark>)
    requires AddVideoBookmark(bookmarks, input, extractUrl, metadata, freshId, nowIso) == Ok(added)
    requires forall k :: 1 <= k < |added| ==> added[k].id != added[0].id
    ensures |added| >= 1 && RemoveVideoBookmark(added, added[0].id) == bookmarks
  {
    AddParsedEffect(bookmarks, ParseBvid(Trim(input, IsJsSpace), extractUrl), metadata, freshId, nowIso);
    var keep := OtherBookmark(added[0].id);
    assert added == [added[0]] + bookmarks;
    assert forall k :: 0 <= k < |bookmarks| ==> bookmarks[k] == added[k + 1];
    FilterAppend([added[0]], bookmarks, keep);
    FilterAll(bookmarks, keep);
  }

  // ---------------------------------------------------------------- duration text

  /** What is shown for a video without a known duration. */
  const NoDuration := "--:--"

  /**
   * `formatDuration(seconds)`: `--:--` unless positive, the hours unpadded
   * when there is at least one, then minutes and seconds padded to two digits.
   */
  function FormatDuration(seconds: int): string {
    if seconds <= 0 then NoDuration
    else
      var h := seconds / 3600;
      var m := (seconds % 3600) / 60;
      var s := seconds % 60;
      if h > 0 then FormatNat(h) + ":" + ZeroPad(m, 2) + ":" + ZeroPad(s, 2)
      else ZeroPad(m, 2) + ":" + ZeroPad(s, 2)
  }

  /**
   * A positive duration is shown as `h:mm:ss` with an hour field without a
   * leading zero from one hour up, and as `mm:ss` below; either way the text
   * shows exactly the given seconds. Anything else is shown as `--:--`.
   */
  lemma FormatDurationReadsBack(seconds: int)
    ensures seconds <= 0 ==> FormatDuration(seconds) == NoDuration
    ensures seconds > 0 ==> var fields := Split(FormatDuration(seconds), ':');
      && ClockFields(fields) && Seconds(fields) == seconds
      && (|fields| == 3 <==> seconds >= 3600)
      && (|fields| == 3 ==> fields[0][0] != '0')
      && (|fields| != 3 ==> |fields| == 2 && |fields[0]| == 2)
  {
    if seconds > 0 {
      var h := seconds / 3600;
      var m := (seconds % 3600) / 60;
      var s := seconds % 60;
      ClockPlaces(seconds);
      TwoDigitField(m);
      TwoDigitField(s);
      if h > 0 {
        SplitThree(FormatNat(h), ZeroPad(m, 2), ZeroPad(s, 2));
        ClockFieldsThree(FormatNat(h), ZeroPad(m, 2), ZeroPad(s, 2));
      } else {
        SplitTwo(ZeroPad(m, 2), ZeroPad(s, 2));
        ClockFieldsTwo(ZeroPad(m, 2), ZeroPad(s, 2));
      }
    }
  }
}
