/**
 * The settings tab: the rows `display()` renders for the palette and the
 * "Add" button's lookup of its two text fields.
 */
module SettingsTab {
  import opened Wrappers
  import opened Settings
  import opened Commands
  import opened Palette

  const CurrentEmojiPrefix: string := "Current emoji: "

  /** One palette row: the color as its name and its current emoji as its description. */
  datatype Row = Row(name: string, desc: string)

  /** The rows of the color list, one per palette color, in palette order. */
  function DisplayRows(s: TextColorSettings): (rows: seq<Row>)
    ensures |rows| == |s.colors|
    ensures forall i :: 0 <= i < |rows| ==>
      rows[i].name == s.colors[i] && rows[i].desc == CurrentEmojiPrefix + EmojiFor(s, s.colors[i])
  {
    seq(|s.colors|, i requires 0 <= i < |s.colors| => Row(s.colors[i], CurrentEmojiPrefix + EmojiFor(s, s.colors[i])))
  }

  /** A row shows the same color and emoji as the command registered at the same position. */
  lemma RowsMatchCommands(s: TextColorSettings, i: nat)
    requires i < |s.colors|
    ensures var row := DisplayRows(s)[i];
      DeriveCommands(s)[i].name == Label(row.name, row.desc[|CurrentEmojiPrefix|..])
  {
  }

  /** A text field of the tab: the CSS classes it carries and what the user typed into it. */
  datatype TextInput = TextInput(classes: set<string>, value: string)

  const AddColorClass: string := "add-color-input"
  const AddEmojiClass: string := "add-color-emoji-input"

  /** `containerEl.querySelector('.' + cls)` over the tab's text fields: the first, in document order, carrying `cls`. */
  function QuerySelector(inputs: seq<TextInput>, cls: string): (r: Option<TextInput>)
    ensures r.None? <==> forall k :: 0 <= k < |inputs| ==> cls !in inputs[k].classes
    ensures r.Some? ==> exists k :: 0 <= k < |inputs| && inputs[k] == r.value && cls in r.value.classes
                                   && forall m :: 0 <= m < k ==> cls !in inputs[m].classes
  {
    if |inputs| == 0 then None
    else if cls in inputs[0].classes then Some(inputs[0])
    else
      var r := QuerySelector(inputs[1..], cls);
      assert r.Some? ==> exists k :: 1 <= k < |inputs| && inputs[k] == r.value
                                   && forall m :: 0 <= m < k ==> cls !in inputs[m].classes by {
        if r.Some? {
          var k' :| 0 <= k' < |inputs| - 1 && inputs[1..][k'] == r.value
                    && forall m :: 0 <= m < k' ==> cls !in inputs[1..][m].classes;
          assert inputs[k' + 1] == r.value;
        }
      }
      r
  }

  /**
   * The text fields `display()` renders: the emoji field of every color row
   * (left empty), then the add row's color and emoji fields holding what the
   * user typed. None of them is given a class.
   */
  function RenderedInputs(s: TextColorSettings, typedColor: string, typedEmoji: string): (inputs: seq<TextInput>)
    ensures |inputs| == |s.colors| + 2
    ensures forall k :: 0 <= k < |inputs| ==> inputs[k].classes == {}
  {
    seq(|s.colors|, _ => TextInput({}, "")) + [TextInput({}, typedColor), TextInput({}, typedEmoji)]
  }

  /**
   * The "Add" click as written: look both fields up by class, trim their
   * values (a missing field reads as `undefined`, which is falsy), and add
   * when both are non-empty.
   */
  function AddClick(s: TextColorSettings, inputs: seq<TextInput>): (r: TextColorSettings)
    ensures QuerySelector(inputs, AddColorClass).None? || QuerySelector(inputs, AddEmojiClass).None? ==> r == s
    ensures QuerySelector(inputs, AddColorClass).Some? && QuerySelector(inputs, AddEmojiClass).Some? ==>
      r == AddColor(s, QuerySelector(inputs, AddColorClass).value.value, QuerySelector(inputs, AddEmojiClass).value.value)
  {
    match (QuerySelector(inputs, AddColorClass), QuerySelector(inputs, AddEmojiClass))
    case (Some(c), Some(e)) => AddColor(s, c.value, e.value)
    case _ => s
  }

  /** As written, the fields never carry the classes looked up, so clicking "Add" never changes the settings. */
  lemma AddClickNeverAdds(s: TextColorSettings, typedColor: string, typedEmoji: string)
    ensures AddClick(s, RenderedInputs(s, typedColor, typedEmoji)) == s
  {
  }

  /** A concrete instance: typing "pink" and a flower into the defaults' add row adds nothing. */
  lemma AddClickIgnoresTypedColor()
    ensures AddColor(Defaults, "pink", "\U{1F338}") != Defaults
    ensures AddClick(Defaults, RenderedInputs(Defaults, "pink", "\U{1F338}")) == Defaults
  {
  }

  /** The add row with its two fields carrying the classes the click handler looks for. */
  function ClassedInputs(s: TextColorSettings, typedColor: string, typedEmoji: string): (inputs: seq<TextInput>)
    ensures |inputs| == |s.colors| + 2
    ensures inputs[|s.colors|] == TextInput({AddColorClass}, typedColor)
    ensures inputs[|s.colors| + 1] == TextInput({AddEmojiClass}, typedEmoji)
  {
    seq(|s.colors|, _ => TextInput({}, "")) + [TextInput({AddColorClass}, typedColor), TextInput({AddEmojiClass}, typedEmoji)]
  }

  /** With the classes assigned, clicking "Add" performs `AddColor` on exactly what was typed. */
  lemma ClassedAddClickAdds(s: TextColorSettings, typedColor: string, typedEmoji: string)
    ensures AddClick(s, ClassedInputs(s, typedColor, typedEmoji)) == AddColor(s, typedColor, typedEmoji)
  {
  }
}
