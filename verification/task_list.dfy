/**
 * The list logic of the task page (src/pages/Tasks.tsx): merging tag lists,
 * the short most-recently-used list of focus presets kept in browser
 * storage, the countdown display and toggling a task between done and to-do.
 * Rendering, timers and the calls that persist a task are left out; what is
 * handed to storage or to the task service is part of each result.
 */
module TaskList {
  import opened Wrappers
  import opened Text
  import opened Numbers
  import opened ClockText
  import opened TaskService

  // ---------------------------------------------------------------- tags

  /**
   * The tags of a list trimmed, blank ones dropped and repeats dropped, each
   * kept at its first occurrence.
   */
  function UniqueTrimmed(tags: seq<string>): seq<string> {
    if tags == [] then []
    else
      var kept := UniqueTrimmed(tags[..|tags| - 1]);
      var normalized := Trim(tags[|tags| - 1], IsJsSpace);
      if normalized == "" || normalized in kept then kept else kept + [normalized]
  }

  /** `mergeUniqueTags(first, second)`: one pass over both lists, pushing each new trimmed tag. */
  method MergeUniqueTags(first: seq<string>, second: seq<string>) returns (merged: seq<string>)
    ensures merged == UniqueTrimmed(first + second)
  {
    var all := first + second;
    merged := [];
    for i := 0 to |all|
      invariant merged == UniqueTrimmed(all[..i])
    {
      UniqueTrimmedStep(all, i);
      var normalized := Trim(all[i], IsJsSpace);
      if normalized != "" && normalized !in merged {
        merged := merged + [normalized];
      }
    }
    assert all[..|all|] == all;
  }

  /** One more tag: merged in when it is non-blank once trimmed and new. */
  lemma UniqueTrimmedStep(tags: seq<string>, i: nat)
    requires i < |tags|
    ensures var kept := UniqueTrimmed(tags[..i]);
      var normalized := Trim(tags[i], IsJsSpace);
      UniqueTrimmed(tags[..i + 1]) == if normalized == "" || normalized in kept then kept else kept + [normalized]
  {
    assert tags[..i + 1][..i] == tags[..i];
  }

  /** Every tag trimmed, blank ones included. */
  function TrimmedTags(tags: seq<string>): seq<string> {
    if tags == [] then [] else TrimmedTags(tags[..|tags| - 1]) + [Trim(tags[|tags| - 1], IsJsSpace)]
  }

  /** The merged tags are distinct, trimmed and non-empty. */
  lemma {:induction false} UniqueTrimmedClean(tags: seq<string>)
    ensures NoDuplicates(UniqueTrimmed(tags))
    ensures forall t :: t in UniqueTrimmed(tags) ==> t != "" && Trimmed(t, IsJsSpace)
  {
    if tags != [] {
      var init := tags[..|tags| - 1];
      UniqueTrimmedClean(init);
      var normalized := Trim(tags[|tags| - 1], IsJsSpace);
      if normalized != "" && normalized !in UniqueTrimmed(init) {
        NoDuplicatesSnoc(UniqueTrimmed(init), normalized);
      }
    }
  }

  /** The merged tags are exactly the non-blank trimmed input tags. */
  lemma {:induction false} UniqueTrimmedMembers(tags: seq<string>)
    ensures forall t :: t in UniqueTrimmed(tags) <==> t != "" && t in TrimmedTags(tags)
  {
    if tags != [] {
      var init := tags[..|tags| - 1];
      UniqueTrimmedMembers(init);
    }
  }

  /** The tags of the first list come first, in the order the first list alone gives them. */
  lemma {:induction false} UniqueTrimmedPrefix(first: seq<string>, second: seq<string>)
    ensures UniqueTrimmed(first) <= UniqueTrimmed(first + second)
  {
    if second == [] {
      assert first + second == first;
    } else {
      var init := second[..|second| - 1];
      UniqueTrimmedPrefix(first, init);
      assert (first + second)[..|first + second| - 1] == first + init;
    }
  }

  /** Merging a list that is already distinct, trimmed and non-blank gives it back. */
  lemma {:induction false} UniqueTrimmedOfClean(tags: seq<string>)
    requires NoDuplicates(tags)
    requires forall k :: 0 <= k < |tags| ==> tags[k] != "" && Trimmed(tags[k], IsJsSpace)
    ensures UniqueTrimmed(tags) == tags
  {
    if tags != [] {
      var init := tags[..|tags| - 1];
      var last := tags[|tags| - 1];
      assert forall k :: 0 <= k < |init| ==> init[k] == tags[k];
      UniqueTrimmedOfClean(init);
      TrimOfTrimmed(last, IsJsSpace);
      assert last !in init by {
        forall k | 0 <= k < |init| ensures init[k] != last {
          assert init[k] == tags[k];
        }
      }
      assert init + [last] == tags;
    }
  }

  /** Merging again changes nothing. */
  lemma MergeIdempotent(tags: seq<string>)
    ensures UniqueTrimmed(UniqueTrimmed(tags)) == UniqueTrimmed(tags)
  {
    var merged := UniqueTrimmed(tags);
    UniqueTrimmedClean(tags);
    assert forall k :: 0 <= k < |merged| ==> merged[k] in merged;
    UniqueTrimmedOfClean(merged);
  }

  // ---------------------------------------------------------------- recent presets

  /** How many preset ids are remembered. */
  const MaxRecent := 3

  /** The preset id meaning "no preset". */
  const NoPreset := "none"

  /** `ids.slice(0, 3)`. */
  function Recent(ids: seq<string>): seq<string> {
    ids[..if |ids| <= MaxRecent then |ids| else MaxRecent]
  }

  /** `saveRecentPresetIds(ids)`: the list written to storage, at most three leading ids. */
  function SavedRecent(ids: seq<string>): (saved: seq<string>)
    ensures |saved| <= MaxRecent && saved <= ids
    ensures |ids| <= MaxRecent ==> saved == ids
  {
    Recent(ids)
  }

  /** The test `id !== presetId` the presets are filtered with. */
  function Other(presetId: string): string -> bool {
    id => id != presetId
  }

  /** `rememberPreset(presetId)` on the previous list: the id moves to the front. */
  function Remember(prev: seq<string>, presetId: string): seq<string> {
    if presetId == "" || presetId == NoPreset then prev
    else Recent([presetId] + Filter(prev, Other(presetId)))
  }

  /** `forgetPreset(presetId)` on the previous list: every copy of the id is dropped. */
  function Forget(prev: seq<string>, presetId: string): (next: seq<string>)
    ensures presetId != "" ==> presetId !in next
    ensures forall id :: id in next <==> id in prev && (presetId == "" || id != presetId)
  {
    if presetId == "" then prev else Filter(prev, Other(presetId))
  }

  /** Forgetting keeps the order of the other ids: it acts on two joined lists one list at a time. */
  lemma ForgetAppend(a: seq<string>, b: seq<string>, presetId: string)
    ensures Forget(a + b, presetId) == Forget(a, presetId) + Forget(b, presetId)
  {
    if presetId != "" {
      FilterAppend(a, b, Other(presetId));
    }
  }

  /**
   * Remembering a real preset puts it first, followed by at most two of the
   * other ids in their old order; the empty id and `"none"` change nothing.
   * A list without repeats stays without repeats.
   */
  lemma RememberShape(prev: seq<string>, presetId: string)
    ensures presetId == "" || presetId == NoPreset ==> Remember(prev, presetId) == prev
    ensures presetId != "" && presetId != NoPreset ==>
      var next := Remember(prev, presetId);
      && 1 <= |next| <= MaxRecent
      && next[0] == presetId
      && presetId !in next[1..]
      && next[1..] <= Filter(prev, Other(presetId))
    ensures NoDuplicates(prev) ==> NoDuplicates(Remember(prev, presetId))
  {
    if presetId != "" && presetId != NoPreset {
      var others := Filter(prev, Other(presetId));
      var next := Remember(prev, presetId);
      assert next[1..] == others[..|next| - 1];
      assert presetId !in others;
      if NoDuplicates(prev) {
        FilterNoDuplicates(prev, Other(presetId));
        forall i, j | 0 <= i < j < |next| ensures next[i] != next[j] {
          assert next[j] in others;
        }
      }
    }
  }

  /** Filtering keeps a list without repeats without repeats. */
  lemma {:induction false} FilterNoDuplicates(xs: seq<string>, keep: string -> bool)
    requires NoDuplicates(xs)
    ensures NoDuplicates(Filter(xs, keep))
  {
    if xs != [] {
      FilterNoDuplicates(xs[1..], keep);
      var rest := Filter(xs[1..], keep);
      if keep(xs[0]) {
        assert xs[0] !in xs[1..];
        forall i, j | 0 <= i < j < |[xs[0]] + rest| ensures ([xs[0]] + rest)[i] != ([xs[0]] + rest)[j] {
          if i == 0 {
            assert ([xs[0]] + rest)[j] in rest;
          }
        }
      }
    }
  }

  /** Remembering the same preset twice in a row is the same as once. */
  lemma RememberIdempotent(prev: seq<string>, presetId: string)
    ensures Remember(Remember(prev, presetId), presetId) == Remember(prev, presetId)
  {
    if presetId != "" && presetId != NoPreset {
      var next := Remember(prev, presetId);
      RememberShape(prev, presetId);
      assert next == [presetId] + next[1..];
      FilterAll(next[1..], Other(presetId));
      FilterAppend([presetId], next[1..], Other(presetId));
    }
  }

  /** Forgetting a preset just remembered leaves the other ids the remembering kept. */
  lemma ForgetRemembered(prev: seq<string>, presetId: string)
    requires presetId != "" && presetId != NoPreset
    ensures Forget(Remember(prev, presetId), presetId) == Remember(prev, presetId)[1..]
  {
    var next := Remember(prev, presetId);
    RememberShape(prev, presetId);
    assert next == [presetId] + next[1..];
    FilterAll(next[1..], Other(presetId));
    FilterAppend([presetId], next[1..], Other(presetId));
  }

  // ---------------------------------------------------------------- countdown text

  /** `formatTime(seconds)`: minutes and seconds, each padded to two digits. */
  function FormatTime(seconds: nat): string {
    ZeroPad(seconds / 60, 2) + ":" + ZeroPad(seconds % 60, 2)
  }

  /**
   * The countdown text is a field of at least two digits, a colon and two
   * digits below 60, and it shows exactly the given seconds.
   */
  lemma FormatTimeReadsBack(seconds: nat)
    ensures var fields := Split(FormatTime(seconds), ':');
      && |fields| == 2 && |fields[0]| >= 2
      && ClockFields(fields) && Seconds(fields) == seconds
  {
    var m := ZeroPad(seconds / 60, 2);
    var s := ZeroPad(seconds % 60, 2);
    TwoDigitField(seconds % 60);
    SplitTwo(m, s);
    ClockFieldsTwo(m, s);
  }

  // ---------------------------------------------------------------- status toggle

  /** The status a toggle gives: `"done"` becomes `"todo"`, anything else `"done"`. */
  function Flipped(status: string): (r: string)
    ensures r == "done" || r == "todo"
    ensures r == "done" <==> status != "done"
  {
    if status == "done" then "todo" else "done"
  }

  /** `tasks.map(...)` in `toggleTaskStatus(id)`: every task with the id has its status flipped. */
  function ToggleStatus(tasks: seq<LegacyTask>, id: string): (r: seq<LegacyTask>)
    ensures |r| == |tasks|
    ensures forall i :: 0 <= i < |tasks| ==> r[i].id == tasks[i].id
    ensures forall i :: 0 <= i < |tasks| && tasks[i].id != id ==> r[i] == tasks[i]
    ensures forall i :: 0 <= i < |tasks| && tasks[i].id == id ==>
      r[i] == tasks[i].(status := Flipped(tasks[i].status))
  {
    seq(|tasks|, i requires 0 <= i < |tasks| =>
      if tasks[i].id == id then tasks[i].(status := Flipped(tasks[i].status)) else tasks[i])
  }

  /** Toggling twice restores every task whose status was `"done"` or `"todo"`. */
  lemma ToggleTwice(tasks: seq<LegacyTask>, id: string)
    requires forall i :: 0 <= i < |tasks| && tasks[i].id == id ==> tasks[i].status in {"done", "todo"}
    ensures ToggleStatus(ToggleStatus(tasks, id), id) == tasks
  {
    var once := ToggleStatus(tasks, id);
    var twice := ToggleStatus(once, id);
    forall i | 0 <= i < |tasks| ensures twice[i] == tasks[i] {
      if tasks[i].id == id {
        assert twice[i] == once[i].(status := Flipped(once[i].status));
      }
    }
  }

  /**
   * `pendingUpdate`: the task handed to `modifyTask`, the last toggled one, if
   * any task has the id.
   */
  function PendingUpdate(tasks: seq<LegacyTask>, id: string): (r: Option<LegacyTask>)
    ensures r.Some? <==> exists i :: 0 <= i < |tasks| && tasks[i].id == id
    ensures r.Some? ==> r.value.id == id && r.value in ToggleStatus(tasks, id)
    decreases |tasks|
  {
    if tasks == [] then None
    else
      var last := tasks[|tasks| - 1];
      if last.id == id then
        assert ToggleStatus(tasks, id)[|tasks| - 1] == last.(status := Flipped(last.status));
        Some(last.(status := Flipped(last.status)))
      else
        var r := PendingUpdate(tasks[..|tasks| - 1], id);
        assert r.Some? ==> r.value in ToggleStatus(tasks, id) by {
          if r.Some? {
            var j :| 0 <= j < |tasks| - 1 && ToggleStatus(tasks[..|tasks| - 1], id)[j] == r.value;
            assert ToggleStatus(tasks, id)[j] == r.value;
          }
        }
        r
  }
}
