/**
 * Workspace-relative path sanitising (`sanitize_relative_path` in
 * src-tauri/src/lib.rs): the path handed in by the UI is trimmed, its
 * backslashes read as slashes, and it is rebuilt from its normal components;
 * a parent-directory step, a root or a drive prefix is refused.
 */
module RelativePath {
  import opened Wrappers
  import opened Text

  /** The platform decides whether a drive prefix such as "C:" exists. */
  datatype Platform = Unix | Windows

  /** `std::path::Component`, as far as this function tells them apart. */
  datatype Component = Prefix(drive: char) | RootDir | CurDir | ParentDir | Normal(name: string)

  /** `str::replace('\\', "/")`. */
  function BackslashToSlash(s: string): (r: string)
    ensures |r| == |s| && '\\' !in r
    ensures forall k :: 0 <= k < |s| ==> r[k] == if s[k] == '\\' then '/' else s[k]
  {
    seq(|s|, k requires 0 <= k < |s| => if s[k] == '\\' then '/' else s[k])
  }

  predicate IsAsciiLetter(c: char) {
    ('a' <= c <= 'z') || ('A' <= c <= 'Z')
  }

  /** A Windows disk prefix: an ASCII letter followed by a colon. */
  predicate HasDrivePrefix(s: string, platform: Platform) {
    platform == Windows && |s| >= 2 && IsAsciiLetter(s[0]) && s[1] == ':'
  }

  /** The component a non-empty, slash-free segment stands for. */
  function SegmentComponent(seg: string): Component {
    if seg == "." then CurDir else if seg == ".." then ParentDir else Normal(seg)
  }

  /** The segments of a slash-separated path with empty ones (repeated or trailing slashes) skipped. */
  function SegmentComponents(segs: seq<string>): (cs: seq<Component>)
    ensures forall c :: c in cs ==> c != RootDir && !c.Prefix?
  {
    if segs == [] then []
    else (if segs[0] == "" then [] else [SegmentComponent(segs[0])]) + SegmentComponents(segs[1..])
  }

  /**
   * `Path::components` on a path whose separators are all "/": an optional
   * drive prefix, a root when the rest starts with "/", then one component per
   * non-empty segment. A "." segment stands for CurDir (Rust drops interior
   * ones altogether; both are skipped below).
   */
  function Components(path: string, platform: Platform): seq<Component> {
    if HasDrivePrefix(path, platform) then [Prefix(path[0])] + RootAndSegments(path[2..])
    else RootAndSegments(path)
  }

  function RootAndSegments(path: string): seq<Component> {
    (if path != [] && path[0] == '/' then [RootDir] else []) + SegmentComponents(Split(path, '/'))
  }

  /** The names of the normal components, in order. */
  function NormalNames(cs: seq<Component>): seq<string> {
    if cs == [] then []
    else (if cs[0].Normal? then [cs[0].name] else []) + NormalNames(cs[1..])
  }

  lemma NormalNamesAppend(a: seq<Component>, b: seq<Component>)
    ensures NormalNames(a + b) == NormalNames(a) + NormalNames(b)
  {
    if a == [] {
      assert a + b == b;
    } else {
      assert (a + b)[1..] == a[1..] + b;
      NormalNamesAppend(a[1..], b);
    }
  }

  lemma NormalNamesSnoc(cs: seq<Component>, i: nat)
    requires i < |cs|
    ensures NormalNames(cs[..i + 1]) == NormalNames(cs[..i]) + (if cs[i].Normal? then [cs[i].name] else [])
  {
    assert cs[..i + 1] == cs[..i] + [cs[i]];
    NormalNamesAppend(cs[..i], [cs[i]]);
  }

  /** A component the sanitiser keeps. */
  predicate IsNormalSegment(seg: string) {
    seg != "" && seg != "." && seg != ".."
  }

  /** What the sanitiser refuses: a parent step, a root or a drive prefix. */
  predicate Unsafe(trimmed: string, platform: Platform) {
    HasDrivePrefix(trimmed, platform)
    || (trimmed != [] && trimmed[0] == '/')
    || ".." in Split(trimmed, '/')
  }

  /** The trimmed, slash-normalised form the source works on. */
  function Prepared(relative: string): string {
    BackslashToSlash(Trim(relative, IsRustSpace))
  }

  function InvalidMessage(relative: string): string {
    "Invalid relative path: " + relative
  }

  lemma {:induction false} SegmentComponentsNormal(segs: seq<string>)
    ensures forall c :: c in SegmentComponents(segs) && c.Normal? ==> IsNormalSegment(c.name)
  {
    if segs != [] {
      SegmentComponentsNormal(segs[1..]);
    }
  }

  lemma {:induction false} SegmentComponentsParent(segs: seq<string>)
    ensures ParentDir in SegmentComponents(segs) <==> ".." in segs
  {
    if segs != [] {
      SegmentComponentsParent(segs[1..]);
      assert ".." in segs <==> segs[0] == ".." || ".." in segs[1..] by {
        assert segs == [segs[0]] + segs[1..];
      }
    }
  }

  lemma {:induction false} SegmentComponentsNames(segs: seq<string>)
    ensures NormalNames(SegmentComponents(segs)) == Filter(segs, IsNormalSegment)
  {
    if segs != [] {
      SegmentComponentsNames(segs[1..]);
      var head := if segs[0] == "" then [] else [SegmentComponent(segs[0])];
      NormalNamesAppend(head, SegmentComponents(segs[1..]));
    }
  }

  /**
   * What `sanitize_relative_path` answers: the empty path for blank input, a
   * refusal quoting the input for an unsafe path, and otherwise the normal
   * segments in order.
   */
  function Sanitized(relative: string, platform: Platform): Result<seq<string>, string> {
    var trimmed := Prepared(relative);
    if trimmed == [] then Ok([])
    else if Unsafe(trimmed, platform) then Err(InvalidMessage(relative))
    else Ok(Filter(Split(trimmed, '/'), IsNormalSegment))
  }

  /** The promises of the sanitiser, read off its specification. */
  lemma SanitizedProperties(relative: string, platform: Platform)
    ensures Blank(relative, IsRustSpace) ==> Sanitized(relative, platform) == Ok([])
    ensures Sanitized(relative, platform).Err? <==> Unsafe(Prepared(relative), platform)
    ensures Sanitized(relative, platform).Err? ==> Sanitized(relative, platform).error == InvalidMessage(relative)
    ensures Sanitized(relative, platform).Ok? ==>
      forall seg :: seg in Sanitized(relative, platform).value ==> IsNormalSegment(seg) && '/' !in seg && '\\' !in seg
  {
    var trimmed := Prepared(relative);
    TrimEmptyIffBlank(relative, IsRustSpace);
    PreparedSegmentsClean(trimmed);
    if trimmed == [] {
      assert Split(trimmed, '/') == [""];
    }
  }

  /**
   * `sanitize_relative_path`. The components are visited in order, normal
   * ones pushed, "." skipped, and any other kind refused.
   */
  method SanitizeRelativePath(relative: string, platform: Platform) returns (r: Result<seq<string>, string>)
    ensures r == Sanitized(relative, platform)
  {
    var trimmed := Prepared(relative);
    if trimmed == [] {
      return Ok([]);
    }
    var components := Components(trimmed, platform);
    var names := NormalComponents(components);
    if names.None? {
      ComponentsRefuse(trimmed, platform);
      return Err(InvalidMessage(relative));
    }
    ComponentsAccept(trimmed, platform);
    r := Ok(names.value);
  }

  /** The component loop: the names of the normal components, or nothing once a component other than a name or "." shows up. */
  method NormalComponents(components: seq<Component>) returns (names: Option<seq<string>>)
    ensures names.None? <==> exists c :: c in components && (c.ParentDir? || c.RootDir? || c.Prefix?)
    ensures names.Some? ==> names.value == NormalNames(components)
  {
    var out: seq<string> := [];
    var i := 0;
    while i < |components|
      invariant 0 <= i <= |components|
      invariant forall c :: c in components[..i] ==> c.Normal? || c.CurDir?
      invariant out == NormalNames(components[..i])
    {
      var c := components[i];
      if c.ParentDir? || c.RootDir? || c.Prefix? {
        assert c in components;
        return None;
      }
      NormalNamesSnoc(components, i);
      assert forall x :: x in components[..i + 1] ==> x in components[..i] || x == c by {
        assert components[..i + 1] == components[..i] + [c];
      }
      if c.Normal? {
        out := out + [c.name];
      }
      i := i + 1;
    }
    assert components[..i] == components;
    names := Some(out);
  }

  /** The kept segments of a slash-normalised path are normal and hold no separator. */
  lemma PreparedSegmentsClean(trimmed: string)
    requires '\\' !in trimmed
    ensures forall seg :: seg in Filter(Split(trimmed, '/'), IsNormalSegment) ==>
      IsNormalSegment(seg) && '/' !in seg && '\\' !in seg
  {
    SplitPiecesFree(trimmed, '/');
    SplitPiecesKeepAbsence(trimmed, '/', '\\');
  }

  /** Whenever a refused component shows up, the prepared path is unsafe. */
  lemma ComponentsRefuse(path: string, platform: Platform)
    ensures (exists c :: c in Components(path, platform) && (c.ParentDir? || c.RootDir? || c.Prefix?))
      ==> Unsafe(path, platform)
  {
    SegmentComponentsParent(Split(path, '/'));
  }

  /** A drive prefix and a leading slash each show up as a component of their own. */
  lemma LeadingComponents(path: string, platform: Platform)
    ensures HasDrivePrefix(path, platform) ==> Prefix(path[0]) in Components(path, platform)
    ensures !HasDrivePrefix(path, platform) && path != [] && path[0] == '/' ==>
      RootDir in Components(path, platform)
  {
    if HasDrivePrefix(path, platform) {
      assert Components(path, platform)[0] == Prefix(path[0]);
    } else if path != [] && path[0] == '/' {
      assert Components(path, platform)[0] == RootDir;
    }
  }

  /** When every component is normal or ".", the path is safe and its components are its normal segments. */
  lemma ComponentsAccept(path: string, platform: Platform)
    requires forall c :: c in Components(path, platform) ==> c.Normal? || c.CurDir?
    ensures !Unsafe(path, platform)
    ensures NormalNames(Components(path, platform)) == Filter(Split(path, '/'), IsNormalSegment)
  {
    var cs := Components(path, platform);
    LeadingComponents(path, platform);
    SegmentComponentsParent(Split(path, '/'));
    SegmentComponentsNames(Split(path, '/'));
    assert cs == SegmentComponents(Split(path, '/'));
  }
}
