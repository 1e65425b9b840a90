/**
 * `setTextColor`: wrapping the editor's selection in an inline-color span.
 * The editor is reduced to the text before the selection, the selection and
 * the text after it.
 */
module Coloring {
  import opened Wrappers

  const SpanOpen: string := "<span style=\"color: "
  const SpanMid: string := "\">"
  const SpanClose: string := "</span>"

  /** Characters the markup adds around the color and the text. */
  const Overhead: nat := |SpanOpen| + |SpanMid| + |SpanClose|

  /**
   * The replacement for selection `text` when coloring it with `color`: none
   * for an empty selection, otherwise the span with the color inserted into
   * its style attribute and the text inserted verbatim, unescaped, as its body.
   */
  function Wrap(text: string, color: string): (r: Option<string>)
    ensures r.None? <==> text == []
    ensures r.Some? ==>
      && |r.value| == Overhead + |color| + |text|
      && r.value[..|SpanOpen|] == SpanOpen
      && r.value[|SpanOpen|..|SpanOpen| + |color|] == color
      && r.value[|SpanOpen| + |color|..|SpanOpen| + |color| + |SpanMid|] == SpanMid
      && r.value[|SpanOpen| + |color| + |SpanMid|..|r.value| - |SpanClose|] == text
      && r.value[|r.value| - |SpanClose|..] == SpanClose
  {
    if text == [] then None
    else
      var head := SpanOpen + color + SpanMid;
      var w := head + text + SpanClose;
      assert w[..|SpanOpen|] == SpanOpen;
      assert w[|SpanOpen|..|SpanOpen| + |color|] == color;
      assert w[|SpanOpen| + |color|..|head|] == SpanMid;
      assert w[|head|..|w| - |SpanClose|] == text;
      assert w[|w| - |SpanClose|..] == SpanClose;
      Some(w)
  }

  /**
   * The inverse reading: the selected text a span of `color` carries, if `s`
   * is such a span around non-empty text.
   */
  function Unwrap(s: string, color: string): (r: Option<string>)
    ensures r.Some? ==> |r.value| + Overhead + |color| == |s| && r.value != []
  {
    var head := SpanOpen + color + SpanMid;
    if |s| > |head| + |SpanClose| && s[..|head|] == head && s[|s| - |SpanClose|..] == SpanClose then
      Some(s[|head|..|s| - |SpanClose|])
    else
      None
  }

  /** Round trip: the text a wrap inserted is read back out of it. */
  lemma UnwrapWrap(text: string, color: string)
    requires text != []
    ensures Unwrap(Wrap(text, color).value, color) == Some(text)
  {
  }

  /** The other direction: whatever `Unwrap` accepts is exactly the wrap of the text it returns. */
  lemma WrapUnwrap(s: string, color: string)
    requires Unwrap(s, color).Some?
    ensures Wrap(Unwrap(s, color).value, color) == Some(s)
  {
    var head := SpanOpen + color + SpanMid;
    assert s == s[..|head|] + s[|head|..|s| - |SpanClose|] + s[|s| - |SpanClose|..];
  }

  /** Different selections never produce the same result for one color. */
  lemma WrapInjective(t1: string, t2: string, color: string)
    requires Wrap(t1, color) == Wrap(t2, color)
    ensures t1 == t2
  {
  }

  /** The editor: the document is `before + selection + after`. */
  datatype Editor = Editor(before: string, selection: string, after: string)

  function Content(e: Editor): string {
    e.before + e.selection + e.after
  }

  /**
   * `setTextColor(editor, color)`: the document after the command. An empty
   * selection leaves the document as it was; otherwise the selection is
   * replaced by its wrap and the text around it is kept.
   */
  function SetTextColor(e: Editor, color: string): (doc: string)
    ensures e.selection == [] ==> doc == Content(e)
    ensures e.selection != [] ==>
      && |doc| == |Content(e)| + Overhead + |color|
      && doc[..|e.before|] == e.before
      && doc[|doc| - |e.after|..] == e.after
      && Unwrap(doc[|e.before|..|doc| - |e.after|], color) == Some(e.selection)
  {
    match Wrap(e.selection, color)
    case None => Content(e)
    case Some(w) =>
      var doc := e.before + w + e.after;
      assert doc[|e.before|..|doc| - |e.after|] == w;
      UnwrapWrap(e.selection, color);
      doc
  }

  /** Coloring "hello" with #0000FF. */
  lemma WrapExample()
    ensures Wrap("hello", "#0000FF") == Some("<span style=\"color: #0000FF\">hello</span>")
  {
    var w := "<span style=\"color: #0000FF\">hello</span>";
    assert w == SpanOpen + "#0000FF" + SpanMid + "hello" + SpanClose;
  }
}
