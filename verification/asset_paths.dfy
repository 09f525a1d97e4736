/**
 * The static-asset fallback of the LAN gateway (src-tauri/src/lib.rs): a
 * request path that matches no API route is normalised into an asset key, and
 * the embedded bundle answers with that asset, or with the index document
 * (single-page-app convention), or with 404 when even that is missing.
 */
module EmbeddedAssets {
  import opened Text

  const IndexDocument: string := "index.html"

  /** How the response's content type is chosen; the MIME guess from a file name is a library call. */
  datatype ContentType = GuessedFromPath(path: string) | HtmlUtf8 | PlainUtf8

  datatype Response = Response(status: nat, contentType: ContentType, body: seq<bv8>)

  /** The embedded bundle: asset key to file contents. */
  type Assets = map<string, seq<bv8>>

  predicate IsSlash(c: char) {
    c == '/'
  }

  /** A path segment that survives normalisation. */
  predicate KeptSegment(seg: string) {
    seg != "" && seg != "." && seg != ".."
  }

  /** `normalize_embedded_asset_path`: strip leading slashes; nothing left means the index document;
      otherwise drop empty, "." and ".." segments and rejoin with "/". */
  function NormalizeAssetPath(uriPath: string): string {
    var trimmed := TrimStart(uriPath, IsSlash);
    if trimmed == [] then IndexDocument
    else Join(Filter(Split(trimmed, '/'), KeptSegment), "/")
  }

  /** An empty request path, or one made only of slashes, asks for the index document. */
  lemma BlankPathIsIndex(uriPath: string)
    requires Blank(uriPath, IsSlash)
    ensures NormalizeAssetPath(uriPath) == IndexDocument
  {
  }

  lemma KeptSegmentsHaveNoSlash(segs: seq<string>)
    requires forall p :: p in segs ==> '/' !in p
    ensures forall p :: p in Filter(segs, KeptSegment) ==> '/' !in p && KeptSegment(p)
  {
  }

  /**
   * Otherwise the result is either empty (every segment was dropped, as for "/./")
   * or a "/"-joined list of segments none of which is empty, "." or "..".
   */
  lemma {:induction false} NormalizedSegmentsAreClean(uriPath: string)
    requires !Blank(uriPath, IsSlash)
    ensures var r := NormalizeAssetPath(uriPath);
      r == "" || forall p :: p in Split(r, '/') ==> KeptSegment(p)
  {
    var trimmed := TrimStart(uriPath, IsSlash);
    var segs := Filter(Split(trimmed, '/'), KeptSegment);
    SplitPiecesFree(trimmed, '/');
    KeptSegmentsHaveNoSlash(Split(trimmed, '/'));
    if |segs| >= 1 {
      SplitJoin(segs, '/');
    }
  }

  lemma FilterKeepsAll(segs: seq<string>)
    requires forall p :: p in segs ==> KeptSegment(p)
    ensures Filter(segs, KeptSegment) == segs
  {
    if segs != [] {
      FilterKeepsAll(segs[1..]);
    }
  }

  /** Normalising an already normalised, non-empty asset path changes nothing. */
  lemma {:induction false} NormalizeIdempotent(uriPath: string)
    requires NormalizeAssetPath(uriPath) != ""
    ensures NormalizeAssetPath(NormalizeAssetPath(uriPath)) == NormalizeAssetPath(uriPath)
  {
    if Blank(uriPath, IsSlash) {
      BlankPathIsIndex(uriPath);
      IndexDocumentFixed();
    } else {
      var trimmed := TrimStart(uriPath, IsSlash);
      SplitPiecesFree(trimmed, '/');
      KeptSegmentsHaveNoSlash(Split(trimmed, '/'));
      JoinedSegmentsFixed(Filter(Split(trimmed, '/'), KeptSegment));
    }
  }

  lemma IndexDocumentFixed()
    ensures NormalizeAssetPath(IndexDocument) == IndexDocument
  {
    var r := IndexDocument;
    assert TrimStart(r, IsSlash) == r by {
      assert !IsSlash(r[0]);
    }
    assert Split(r, '/') == [r] by {
      SplitOfFree(r, '/');
    }
    assert Filter([r], KeptSegment) == [r] by {
      assert KeptSegment(r);
    }
  }

  /** A "/"-join of kept, slash-free segments is its own normal form. */
  lemma JoinedSegmentsFixed(segs: seq<string>)
    requires forall p :: p in segs ==> '/' !in p && KeptSegment(p)
    ensures segs != [] ==> NormalizeAssetPath(Join(segs, "/")) == Join(segs, "/")
  {
    if segs != [] {
      var r := Join(segs, "/");
      SplitJoin(segs, '/');
      assert r[0] != '/' by {
        assert segs[0] in segs;
        JoinStartsWithFirst(segs, "/");
      }
      assert TrimStart(r, IsSlash) == r;
      FilterKeepsAll(segs);
    }
  }

  lemma JoinStartsWithFirst(parts: seq<string>, sep: string)
    requires |parts| >= 1 && parts[0] != ""
    ensures Join(parts, sep) != "" && Join(parts, sep)[0] == parts[0][0]
  {
  }

  /** `embedded_asset_response`: the asset itself, else the index document, else 404. */
  function AssetResponse(path: string, assets: Assets): (r: Response)
    ensures path in assets ==> r == Response(200, GuessedFromPath(path), assets[path])
    ensures path !in assets && IndexDocument in assets ==> r == Response(200, HtmlUtf8, assets[IndexDocument])
    ensures r.status == 404 <==> path !in assets && IndexDocument !in assets
    ensures r.status == 200 || r.status == 404
  {
    if path in assets then Response(200, GuessedFromPath(path), assets[path])
    else if IndexDocument in assets then Response(200, HtmlUtf8, assets[IndexDocument])
    else Response(404, PlainUtf8, StringBytes("Embedded frontend assets not found"))
  }

  /** The bytes of an ASCII message. */
  function StringBytes(s: string): seq<bv8>
    requires forall k :: 0 <= k < |s| ==> s[k] as int < 128
  {
    seq(|s|, k requires 0 <= k < |s| => s[k] as int as bv8)
  }

  /** `embedded_static_handler`: the gateway's fallback route. */
  function ServeStatic(uriPath: string, assets: Assets): Response {
    AssetResponse(NormalizeAssetPath(uriPath), assets)
  }

  /** With the index document embedded, no unmatched path is ever answered with 404. */
  lemma FallbackNeverNotFound(uriPath: string, assets: Assets)
    requires IndexDocument in assets
    ensures ServeStatic(uriPath, assets).status == 200
    ensures NormalizeAssetPath(uriPath) !in assets ==> ServeStatic(uriPath, assets).body == assets[IndexDocument]
  {
  }

  /** The root path serves the index document's bytes whenever it is embedded. */
  lemma RootServesIndex(assets: Assets)
    requires IndexDocument in assets
    ensures ServeStatic("/", assets).body == assets[IndexDocument]
  {
    BlankPathIsIndex("/");
  }
}
