/**
 * Focus-run tags (src-tauri/src/lib.rs): `parse_focus_tags` cleans the tag
 * list stored with a template or run, `normalize_focus_dimension` picks the
 * grouping of the statistics view, and the tag branch of the statistics
 * handler sums whole minutes and run counts per tag. The JSON decoding of
 * the stored list is a parameter: `None` stands for a document that does not
 * decode to a list of strings.
 */
module FocusTags {
  import opened Wrappers
  import opened Text

  /** The tag given to a run that has no usable tag. */
  const Uncategorised := "未分类"

  // ---------------------------------------------------------------- tag cleanup

  /**
   * The tags kept from `tags`, read left to right: each one trimmed, blanks
   * dropped, and a tag equal to one already kept skipped.
   */
  function KeptTags(tags: seq<string>): seq<string> {
    if tags == [] then []
    else
      var prev := KeptTags(tags[..|tags| - 1]);
      var t := Trim(tags[|tags| - 1], IsRustSpace);
      if t == "" || t in prev then prev else prev + [t]
  }

  /** What `parse_focus_tags` returns for a decoded list (or a failed decode). */
  function FocusTags(parsed: Option<seq<string>>): seq<string> {
    var kept := KeptTags(parsed.GetOr([]));
    if kept == [] then [Uncategorised] else kept
  }

  /** `parse_focus_tags`: a push loop over the decoded list. */
  method ParseFocusTags(parsed: Option<seq<string>>) returns (clean: seq<string>)
    ensures clean == FocusTags(parsed)
  {
    var tags := parsed.GetOr([]);
    clean := [];
    var i := 0;
    while i < |tags|
      invariant 0 <= i <= |tags|
      invariant clean == KeptTags(tags[..i])
    {
      assert tags[..i + 1][..i] == tags[..i];
      var normalized := Trim(tags[i], IsRustSpace);
      if normalized != "" && normalized !in clean {
        clean := clean + [normalized];
      }
      i := i + 1;
    }
    assert tags[..i] == tags;
    if clean == [] {
      clean := [Uncategorised];
    }
  }

  /** Every kept tag is trimmed, non-empty and kept once. */
  lemma {:induction false} KeptTagsClean(tags: seq<string>)
    ensures NoDuplicates(KeptTags(tags))
    ensures forall t :: t in KeptTags(tags) ==> t != "" && Trimmed(t, IsRustSpace)
  {
    if tags != [] {
      var prev := KeptTags(tags[..|tags| - 1]);
      var t := Trim(tags[|tags| - 1], IsRustSpace);
      KeptTagsClean(tags[..|tags| - 1]);
      if t != "" && t !in prev {
        NoDuplicatesSnoc(prev, t);
      }
    }
  }

  /** Each input tag trimmed, in order. */
  function TrimAll(tags: seq<string>): (r: seq<string>)
    ensures |r| == |tags|
  {
    if tags == [] then []
    else TrimAll(tags[..|tags| - 1]) + [Trim(tags[|tags| - 1], IsRustSpace)]
  }

  lemma {:induction false} TrimAllAt(tags: seq<string>, i: nat)
    requires i < |tags|
    ensures TrimAll(tags)[i] == Trim(tags[i], IsRustSpace)
  {
    if i < |tags| - 1 {
      TrimAllAt(tags[..|tags| - 1], i);
    }
  }

  /** A tag is kept exactly when it is not blank and some input trims to it. */
  lemma {:induction false} KeptTagsMember(tags: seq<string>, t: string)
    ensures t in KeptTags(tags) <==> t != "" && t in TrimAll(tags)
  {
    if tags != [] {
      var init := tags[..|tags| - 1];
      KeptTagsMember(init, t);
      var last := Trim(tags[|tags| - 1], IsRustSpace);
      assert t in TrimAll(tags) <==> t in TrimAll(init) || t == last;
    }
  }

  lemma KeptTagsMembers(tags: seq<string>)
    ensures forall t :: t in KeptTags(tags) <==> t != "" && t in TrimAll(tags)
  {
    forall t ensures t in KeptTags(tags) <==> t != "" && t in TrimAll(tags) {
      KeptTagsMember(tags, t);
    }
  }

  /**
   * The tags kept from a prefix of the input start the tags kept from the
   * whole input: a tag keeps the place of its first occurrence.
   */
  lemma {:induction false} KeptTagsPrefix(tags: seq<string>, n: nat)
    requires n <= |tags|
    ensures KeptTags(tags[..n]) <= KeptTags(tags)
    decreases |tags| - n
  {
    if n < |tags| {
      var init := tags[..|tags| - 1];
      assert init[..n] == tags[..n];
      KeptTagsPrefix(init, n);
    } else {
      assert tags[..n] == tags;
    }
  }

  /** `parse_focus_tags` never returns an empty list, and its list is clean. */
  lemma FocusTagsClean(parsed: Option<seq<string>>)
    ensures |FocusTags(parsed)| >= 1
    ensures NoDuplicates(FocusTags(parsed))
    ensures forall t :: t in FocusTags(parsed) ==> t != "" && Trimmed(t, IsRustSpace)
  {
    KeptTagsClean(parsed.GetOr([]));
  }

  /** With no usable tag, or no decodable list, the result is exactly the fallback tag. */
  lemma FocusTagsFallback(parsed: Option<seq<string>>)
    requires parsed.None? || forall i :: 0 <= i < |parsed.value| ==> Blank(parsed.value[i], IsRustSpace)
    ensures FocusTags(parsed) == [Uncategorised]
  {
    var tags := parsed.GetOr([]);
    KeptTagsMembers(tags);
    forall i | 0 <= i < |tags| ensures TrimAll(tags)[i] == "" {
      TrimAllAt(tags, i);
      TrimEmptyIffBlank(tags[i], IsRustSpace);
    }
    if KeptTags(tags) != [] {
      assert KeptTags(tags)[0] in KeptTags(tags);
    }
  }

  // ---------------------------------------------------------------- dimension

  /** `normalize_focus_dimension`: "template" and "timer_type" (any case, any padding) or else "tag". */
  function NormalizeFocusDimension(raw: Option<string>): (r: string)
    ensures r == "template" || r == "timer_type" || r == "tag"
    ensures raw.None? ==> r == "tag"
  {
    var key := Lower(Trim(raw.GetOr("tag"), IsRustSpace));
    if key == "template" then "template"
    else if key == "timer_type" then "timer_type"
    else "tag"
  }

  /** A normalised dimension normalises to itself. */
  lemma NormalizeDimensionIdempotent(raw: Option<string>)
    ensures NormalizeFocusDimension(Some(NormalizeFocusDimension(raw))) == NormalizeFocusDimension(raw)
  {
    var r := NormalizeFocusDimension(raw);
    if r == "template" {
      DimensionNameFixed("template");
    } else if r == "timer_type" {
      DimensionNameFixed("timer_type");
    } else {
      DimensionNameFixed("tag");
    }
  }

  /** Each dimension name reads as itself. */
  lemma DimensionNameFixed(name: string)
    requires name == "template" || name == "timer_type" || name == "tag"
    ensures Lower(Trim(name, IsRustSpace)) == name
  {
    if name == "template" {
      assert LowerIdentifier(name);
    } else if name == "timer_type" {
      assert LowerIdentifier(name);
    } else {
      assert LowerIdentifier(name);
    }
    LowerIdentifierFixed(name);
  }

  /** A non-empty word of lower-case ASCII letters and underscores. */
  predicate LowerIdentifier(s: string) {
    s != [] && forall k :: 0 <= k < |s| ==> 'a' <= s[k] <= 'z' || s[k] == '_'
  }

  lemma LowerIdentifierFixed(name: string)
    requires LowerIdentifier(name)
    ensures Lower(Trim(name, IsRustSpace)) == name
  {
    assert !IsRustSpace(name[0]) && !IsRustSpace(name[|name| - 1]);
    TrimOfTrimmed(name, IsRustSpace);
    LowerIdle(name);
  }

  // ---------------------------------------------------------------- aggregation

  /** A completed run as the statistics query returns it: its decoded tag list and its length in seconds. */
  datatype TagRow = TagRow(tagsJson: Option<seq<string>>, actualSeconds: int)

  /** Whole minutes and run count per tag. */
  type TagTotals = map<string, (int, int)>

  /** Adds one run of `minutes` minutes to each of `tags`. */
  function AddRun(totals: TagTotals, tags: seq<string>, minutes: int): TagTotals
    decreases |tags|
  {
    if tags == [] then totals
    else
      var t := tags[|tags| - 1];
      var before := AddRun(totals, tags[..|tags| - 1], minutes);
      var entry := if t in before then before[t] else (0, 0);
      before[t := (entry.0 + minutes, entry.1 + 1)]
  }

  /** The per-tag totals of the rows; a row shorter than a minute is skipped. */
  function Totals(rows: seq<TagRow>): TagTotals {
    if rows == [] then map[]
    else
      var before := Totals(rows[..|rows| - 1]);
      var row := rows[|rows| - 1];
      var minutes := row.actualSeconds / 60;
      if minutes <= 0 then before else AddRun(before, FocusTags(row.tagsJson), minutes)
  }

  /** The inner loop of the aggregation: one run added to each of its tags. */
  method AddRunInPlace(start: TagTotals, tags: seq<string>, minutes: int) returns (tagMap: TagTotals)
    ensures tagMap == AddRun(start, tags, minutes)
  {
    tagMap := start;
    var j := 0;
    while j < |tags|
      invariant 0 <= j <= |tags|
      invariant tagMap == AddRun(start, tags[..j], minutes)
    {
      assert tags[..j + 1][..j] == tags[..j];
      var entry := if tags[j] in tagMap then tagMap[tags[j]] else (0, 0);
      tagMap := tagMap[tags[j] := (entry.0 + minutes, entry.1 + 1)];
      j := j + 1;
    }
    assert tags[..j] == tags;
  }

  /** The tag aggregation loop: `entry.0 += minutes; entry.1 += 1` for each tag of each long enough run. */
  method AggregateTags(rows: seq<TagRow>) returns (tagMap: TagTotals)
    ensures tagMap == Totals(rows)
  {
    tagMap := map[];
    var i := 0;
    while i < |rows|
      invariant 0 <= i <= |rows|
      invariant tagMap == Totals(rows[..i])
    {
      assert rows[..i + 1][..i] == rows[..i];
      tagMap := AggregateRow(tagMap, rows[i]);
      i := i + 1;
    }
    assert rows[..i] == rows;
  }

  /** One turn of the aggregation loop: a run of at least a minute is added to each of its tags. */
  method AggregateRow(tagMap: TagTotals, row: TagRow) returns (next: TagTotals)
    ensures next == if row.actualSeconds / 60 <= 0 then tagMap
                    else AddRun(tagMap, FocusTags(row.tagsJson), row.actualSeconds / 60)
  {
    next := tagMap;
    var minutes := row.actualSeconds / 60;
    if minutes > 0 {
      var tags := ParseFocusTags(row.tagsJson);
      next := AddRunInPlace(tagMap, tags, minutes);
    }
  }

  /** Totals in which every tag has at least one run and at least a minute per run. */
  predicate WellCounted(totals: TagTotals) {
    forall t :: t in totals ==> totals[t].1 >= 1 && totals[t].0 >= totals[t].1
  }

  lemma {:induction false} AddRunWellCounted(totals: TagTotals, tags: seq<string>, minutes: int)
    requires WellCounted(totals) && minutes >= 1
    ensures WellCounted(AddRun(totals, tags, minutes))
    ensures forall t :: t in AddRun(totals, tags, minutes) <==> t in totals || t in tags
    decreases |tags|
  {
    if tags != [] {
      var init := tags[..|tags| - 1];
      AddRunWellCounted(totals, init, minutes);
      assert forall t :: t in tags <==> t in init || t == tags[|tags| - 1] by {
        assert tags == init + [tags[|tags| - 1]];
      }
    }
  }

  /** A run of at least a minute that carries tag `t`. */
  predicate Carries(row: TagRow, t: string) {
    row.actualSeconds / 60 > 0 && t in FocusTags(row.tagsJson)
  }

  /** Every tag of the statistics has at least one run and at least one minute per run. */
  lemma {:induction false} TotalsWellCounted(rows: seq<TagRow>)
    ensures WellCounted(Totals(rows))
  {
    if rows != [] {
      var init := rows[..|rows| - 1];
      var last := rows[|rows| - 1];
      TotalsWellCounted(init);
      if last.actualSeconds / 60 > 0 {
        AddRunWellCounted(Totals(init), FocusTags(last.tagsJson), last.actualSeconds / 60);
      }
    }
  }

  /** A tag appears in the statistics exactly when some run of a minute or more carries it. */
  lemma {:induction false} TotalsMembers(rows: seq<TagRow>, t: string)
    ensures t in Totals(rows) <==> exists i :: 0 <= i < |rows| && Carries(rows[i], t)
  {
    if rows != [] {
      var init := rows[..|rows| - 1];
      var last := rows[|rows| - 1];
      TotalsMembers(init, t);
      TotalsStep(rows, t);
      CarriedSnoc(rows, init, t);
    }
  }

  /** The last row adds its tags to the totals of the rows before it, when it lasts a minute. */
  lemma TotalsStep(rows: seq<TagRow>, t: string)
    requires rows != []
    ensures t in Totals(rows) <==> t in Totals(rows[..|rows| - 1]) || Carries(rows[|rows| - 1], t)
  {
    var init := rows[..|rows| - 1];
    var last := rows[|rows| - 1];
    TotalsWellCounted(init);
    if last.actualSeconds / 60 > 0 {
      AddRunWellCounted(Totals(init), FocusTags(last.tagsJson), last.actualSeconds / 60);
    }
  }

  lemma CarriedSnoc(rows: seq<TagRow>, init: seq<TagRow>, t: string)
    requires rows != [] && init == rows[..|rows| - 1]
    ensures (exists i :: 0 <= i < |rows| && Carries(rows[i], t))
      <==> (exists i :: 0 <= i < |init| && Carries(init[i], t)) || Carries(rows[|rows| - 1], t)
  {
    assert forall i :: 0 <= i < |init| ==> init[i] == rows[i];
    ExistsSnoc(rows, r => Carries(r, t));
  }
}
