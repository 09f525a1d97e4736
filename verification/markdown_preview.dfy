/**
 * The plain-text previews of markdown notes (src/lib/markdown.ts): the
 * length limit of `toPlainPreview` and the fallback title of
 * `toQuestionTitle`. The chains of regular-expression replacements are
 * parameters (`rewrite` for the math delimiters, `strip` for the markup);
 * only their final `trim()` is part of the model.
 */
module MarkdownPreview {
  import opened Text

  /** The title of a question whose preview is empty. */
  const Untitled := "未命名错题"

  /** What marks a cut preview. */
  const Ellipsis := "..."

  /** The default limits of the two previews and of the text a title is cut from. */
  const PreviewLength := 120
  const TitleLength := 48
  const TitleSource := 300

  /** `normalizeMathDelimiters(input)`: empty input stays empty; other input goes through the rewrites. */
  function NormalizeMathDelimiters(input: string, rewrite: string -> string): (r: string)
    ensures input == "" ==> r == ""
  {
    if input == "" then "" else rewrite(input)
  }

  /** `text.slice(0, maxLength)` followed by `...` when the text is longer than the limit. */
  function Truncate(text: string, maxLength: nat): (r: string)
    ensures |r| <= maxLength + |Ellipsis|
    ensures |text| <= maxLength ==> r == text
    ensures |text| > maxLength ==> |r| == maxLength + |Ellipsis|
    ensures |text| > maxLength ==> r[..maxLength] == text[..maxLength] && r[maxLength..] == Ellipsis
  {
    if |text| <= maxLength then text else text[..maxLength] + Ellipsis
  }

  /** `toPlainPreview(markdown, maxLength)`: the stripped, trimmed text cut to the limit. */
  function ToPlainPreview(markdown: string, maxLength: nat, rewrite: string -> string, strip: string -> string): string {
    Truncate(Trim(strip(NormalizeMathDelimiters(markdown, rewrite)), IsJsSpace), maxLength)
  }

  /**
   * A preview is the stripped text itself when it fits, and otherwise its
   * first `maxLength` characters and `...`; it never exceeds the limit by
   * more than three characters, and a preview that fits has no surrounding
   * white space.
   */
  lemma PreviewBounds(markdown: string, maxLength: nat, rewrite: string -> string, strip: string -> string)
    ensures var stripped := Trim(strip(NormalizeMathDelimiters(markdown, rewrite)), IsJsSpace);
      var preview := ToPlainPreview(markdown, maxLength, rewrite, strip);
      && |preview| <= maxLength + 3
      && (|stripped| <= maxLength ==> preview == stripped && Trimmed(preview, IsJsSpace))
      && (|stripped| > maxLength ==> preview == stripped[..maxLength] + Ellipsis)
  {
    var stripped := Trim(strip(NormalizeMathDelimiters(markdown, rewrite)), IsJsSpace);
    var preview := Truncate(stripped, maxLength);
    if |stripped| > maxLength {
      assert preview == preview[..maxLength] + preview[maxLength..];
    }
  }

  /** `toQuestionTitle(markdown, maxLength)`: the preview of up to 300 characters, cut again, or the fallback title. */
  function ToQuestionTitle(markdown: string, maxLength: nat, rewrite: string -> string, strip: string -> string): string {
    var plain := ToPlainPreview(markdown, TitleSource, rewrite, strip);
    if plain == "" then Untitled else Truncate(plain, maxLength)
  }

  /**
   * An empty preview gives the fallback title; any other preview gives a
   * title that is never empty, starts with the preview's first characters,
   * equals the preview when it fits, and exceeds the limit by at most three.
   */
  lemma QuestionTitleShape(markdown: string, maxLength: nat, rewrite: string -> string, strip: string -> string)
    ensures var plain := ToPlainPreview(markdown, TitleSource, rewrite, strip);
      var title := ToQuestionTitle(markdown, maxLength, rewrite, strip);
      && title != ""
      && (plain == "" ==> title == Untitled)
      && (plain != "" ==> |title| <= maxLength + 3)
      && (plain != "" && |plain| <= maxLength ==> title == plain)
      && (plain != "" && |plain| > maxLength ==> title[..maxLength] == plain[..maxLength])
  {
    var plain := ToPlainPreview(markdown, TitleSource, rewrite, strip);
    if plain != "" && |plain| > maxLength {
      assert |Truncate(plain, maxLength)| == maxLength + 3;
    }
  }

  /** Markdown that strips to nothing gets the fallback title. */
  lemma EmptyNoteUntitled(maxLength: nat, rewrite: string -> string, strip: string -> string)
    requires strip("") == ""
    ensures ToQuestionTitle("", maxLength, rewrite, strip) == Untitled
  {
    assert Trim("", IsJsSpace) == "";
  }
}
