/**
 * The commands `onload` registers: one per palette color, in palette order,
 * each coloring the selection with its own color.
 */
module Commands {
  import opened Wrappers
  import opened Settings
  import Coloring

  const IdPrefix: string := "set-text-"
  const LabelPrefix: string := "Set Text To "
  /** The marker shown when a color has no usable emoji. */
  const FallbackEmoji: string := "\U{2B24}"

  /** A registered command: its id, its name in the command palette and the color its callback applies. */
  datatype Command = Command(id: string, name: string, color: string)

  /** The command id `set-text-<color>`. */
  function CommandId(color: string): (id: string)
    ensures |id| == |IdPrefix| + |color|
    ensures id[..|IdPrefix|] == IdPrefix && id[|IdPrefix|..] == color
  {
    IdPrefix + color
  }

  /** The color a command id was derived from, if it is one of ours. */
  function ColorOfId(id: string): (r: Option<string>)
    ensures r.Some? ==> |r.value| + |IdPrefix| == |id|
  {
    if |id| >= |IdPrefix| && id[..|IdPrefix|] == IdPrefix then Some(id[|IdPrefix|..]) else None
  }

  /** The id of a color's command names that color. */
  lemma ColorOfCommandId(color: string)
    ensures ColorOfId(CommandId(color)) == Some(color)
  {
  }

  /** Conversely, every id `ColorOfId` reads is the id of the color it reads. */
  lemma CommandIdOfColor(id: string)
    requires ColorOfId(id).Some?
    ensures CommandId(ColorOfId(id).value) == id
  {
  }

  /**
   * `colorEmojis[color] || '⬤'`: the stored emoji when it is present and
   * non-empty (an empty string is falsy), otherwise the fallback marker.
   */
  function EmojiFor(s: TextColorSettings, color: string): (e: string)
    ensures e != []
    ensures e == FallbackEmoji <==>
      (color !in s.colorEmojis || s.colorEmojis[color] == [] || s.colorEmojis[color] == FallbackEmoji)
    ensures e != FallbackEmoji ==> color in s.colorEmojis && e == s.colorEmojis[color]
  {
    if color in s.colorEmojis && s.colorEmojis[color] != [] then s.colorEmojis[color] else FallbackEmoji
  }

  /** The command name `Set Text To <color> <emoji>`. */
  function Label(color: string, emoji: string): (name: string)
    ensures |name| == |LabelPrefix| + |color| + 1 + |emoji|
    ensures name[..|LabelPrefix|] == LabelPrefix
    ensures name[|LabelPrefix|..|LabelPrefix| + |color|] == color
    ensures name[|LabelPrefix| + |color|] == ' '
    ensures name[|LabelPrefix| + |color| + 1..] == emoji
  {
    var name := LabelPrefix + color + " " + emoji;
    assert name[|LabelPrefix|..|LabelPrefix| + |color|] == color;
    assert name[|LabelPrefix| + |color| + 1..] == emoji;
    name
  }

  /** The command `onload` registers for one color. */
  function CommandFor(s: TextColorSettings, color: string): (c: Command)
    ensures ColorOfId(c.id) == Some(color)
    ensures c.color == color
    ensures c.name == Label(color, EmojiFor(s, color))
  {
    Command(CommandId(color), Label(color, EmojiFor(s, color)), color)
  }

  /** The command list `onload` registers, in registration order. */
  function DeriveCommands(s: TextColorSettings): (cmds: seq<Command>)
    ensures |cmds| == |s.colors|
    ensures forall i :: 0 <= i < |cmds| ==>
      && ColorOfId(cmds[i].id) == Some(s.colors[i])
      && cmds[i].color == s.colors[i]
      && cmds[i].name == Label(s.colors[i], EmojiFor(s, s.colors[i]))
  {
    seq(|s.colors|, i requires 0 <= i < |s.colors| =>
      ColorOfCommandId(s.colors[i]);
      CommandFor(s, s.colors[i]))
  }

  /** The i-th command is the command built for the i-th color. */
  lemma CommandAt(s: TextColorSettings, i: nat)
    requires i < |s.colors|
    ensures DeriveCommands(s)[i] == CommandFor(s, s.colors[i])
  {
  }

  /**
   * Running the i-th command: an empty selection leaves the document as it
   * is, otherwise the selection becomes its span in the i-th palette color.
   */
  lemma InvokeColorsWithPaletteColor(s: TextColorSettings, i: nat, e: Coloring.Editor)
    requires i < |s.colors|
    ensures e.selection == [] ==> Coloring.SetTextColor(e, DeriveCommands(s)[i].color) == Coloring.Content(e)
    ensures e.selection != [] ==>
      Coloring.SetTextColor(e, DeriveCommands(s)[i].color)
        == e.before + Coloring.Wrap(e.selection, s.colors[i]).value + e.after
  {
  }

  /** Command ids collide exactly when the palette holds a color twice. */
  lemma IdsDistinctIffColorsDistinct(s: TextColorSettings)
    ensures (forall i, j :: 0 <= i < j < |s.colors| ==> DeriveCommands(s)[i].id != DeriveCommands(s)[j].id)
        <==> Distinct(s)
  {
    var cmds := DeriveCommands(s);
    if !Distinct(s) {
      var i, j :| 0 <= i < j < |s.colors| && s.colors[i] == s.colors[j];
      assert cmds[i].id == cmds[j].id;
    } else {
      forall i, j | 0 <= i < j < |s.colors| ensures cmds[i].id != cmds[j].id {
        assert ColorOfId(cmds[i].id) != ColorOfId(cmds[j].id);
      }
    }
  }

  /** When every color has a non-empty emoji, every label shows the stored emoji. */
  lemma LabelsUseStoredEmoji(s: TextColorSettings)
    requires Labelled(s) && EmojisNonEmpty(s)
    ensures forall i :: 0 <= i < |s.colors| ==>
      DeriveCommands(s)[i].name == Label(s.colors[i], s.colorEmojis[s.colors[i]])
  {
  }

  /** With no saved data the plugin registers `set-text-red` first, labelled with the red circle. */
  lemma DefaultCommands()
    ensures var cmds := DeriveCommands(Load(None));
      |cmds| == 5 && cmds[0] == Command("set-text-red", "Set Text To red \U{1F534}", "red")
  {
  }
}
