# Text color picker: a Dafny model of the palette core

The plugin lets an Obsidian user wrap the selected text in
`<span style="color: C">…</span>` for any color of a configurable palette.
The palette is a `TextColorSettings` value: an ordered list of color names
(`colors`) and a table from color name to emoji (`colorEmojis`). This project
models, as immutable values and pure functions:

- `Settings`: the settings value, the five hard-coded defaults and the shallow
  top-level merge that loading performs over them.
- `Coloring`: `setTextColor`, the wrapping of a selection in a color span, with
  the editor reduced to "text before, selection, text after".
- `Commands`: the command list `onload` derives, one `set-text-<color>`
  command per palette color, labelled `Set Text To <color> <emoji>` with `⬤`
  as the fallback marker.
- `Palette`: the three mutations the settings tab performs (add a color, edit
  a color's emoji, delete a color), each a guard on trimmed input followed by a
  sequence and table update.
- `SettingsTab`: the rows the tab shows, and the "Add" button's lookup of its
  two text fields.
- `Text`: JavaScript's `String.prototype.trim` and `Array.prototype.indexOf`
  as the plugin uses them. `Wrappers` holds `Option`.

`main.ts` has no surrogate ids, duplicate rejection, error results, rollback
on failed saves, legacy-schema upgrade or diff-based command resync, and
neither does the model. There is no duplicate check on add, delete
removes only the first occurrence, an empty-string emoji falls back to `⬤`,
and a persisted field replaces the default wholesale.

Strings are sequences of Unicode scalar values, whereas JavaScript strings are
UTF-16. No operation here measures or splits a string inside a code point, so
for strings without lone surrogates the difference does not show. A lone
surrogate, which a JavaScript string can hold, has no Dafny counterpart. Trimming uses the exact ECMAScript WhiteSpace
and LineTerminator code points.

## Model

| member | source | states |
|---|---|---|
| Text.Trim | main.ts:101-102 | the trimmed string is empty exactly when the input is all whitespace, and otherwise starts and ends with a non-whitespace character |
| Text.IsWhitespace | main.ts:101-102 | definition, no contract: the ECMAScript WhiteSpace and LineTerminator code points that `trim()` strips |
| Text.TrimUnique | main.ts:125 | any cut of the input into whitespace, a middle with non-whitespace ends, and whitespace equals what `trim` returns |
| Text.TrimIdempotent | main.ts:125-126 | trimming the trimmed value again changes nothing, so the value the emoji handler tests is the one it stores |
| Text.IndexOf | main.ts:136-137 | `indexOf` finds no position exactly when the color is absent, and otherwise the first position holding it |
| Text.RemoveAt | main.ts:138 | `splice(index, 1)` shortens the list by one, keeps the elements before the index, and shifts the ones after it down by one |
| Text.RemoveAtMultiset | main.ts:138 | `splice(index, 1)` removes exactly one copy of the element at the index |
| Text.IndexOfSingle | main.ts:136 | for a color held once, `indexOf` returns that color's position |
| Settings.Load | main.ts:46 | no saved data gives the defaults; a saved top-level field replaces the default field wholesale; a missing field keeps its default |
| Settings.Snapshot | main.ts:50 | definition, no contract: the record `saveData` writes holds both fields |
| Settings.LoadSnapshot | main.ts:46 | saved data carrying both fields overrides every default, so the loaded settings are exactly that data |
| Settings.LoadReplacesWholesale | main.ts:46 | a saved one-color palette drops every default color; there is no per-element merge |
| Settings.DefaultsWellFormed | main.ts:8-17 | the defaults are five distinct colors, each with exactly one non-empty emoji and no stray emoji keys |
| Coloring.Wrap | main.ts:53-57 | an empty selection gives no replacement; otherwise the replacement is the span prefix, the color, `">`, the selected text verbatim, then `</span>` |
| Coloring.UnwrapWrap | main.ts:56 | the selected text is read back unchanged out of the span that wraps it |
| Coloring.WrapUnwrap | main.ts:56 | every string read as a span of a color is exactly the wrap of the text read out of it |
| Coloring.WrapInjective | main.ts:56 | two different selections never get the same replacement for one color |
| Coloring.SetTextColor | main.ts:53-59 | an empty selection leaves the document unchanged; otherwise the text around the selection is kept and the selection becomes its span |
| Coloring.WrapExample | main.ts:56 | coloring `hello` with `#0000FF` gives `<span style="color: #0000FF">hello</span>` |
| Commands.CommandId | main.ts:30 | the id is `set-text-` followed by the color, character for character |
| Commands.Label | main.ts:31 | the name is `Set Text To `, the color, a space, then the emoji |
| Commands.CommandFor | main.ts:29-35 | the registered command carries the color's id, its label with the color's emoji or `⬤`, and the color its callback applies |
| Commands.ColorOfCommandId | main.ts:30 | the color is recovered from the id `set-text-<color>` |
| Commands.CommandIdOfColor | main.ts:30 | every id read as a command id is the id of the color read out of it |
| Commands.EmojiFor | main.ts:27 | the label shows the stored emoji when it is present and non-empty, and the `⬤` marker otherwise, including for an empty stored string |
| Commands.DeriveCommands | main.ts:26-36 | one command per palette color, in palette order; the i-th id names the i-th color, the callback applies that color, and the label shows that color and its emoji |
| Commands.InvokeColorsWithPaletteColor | main.ts:32-33 | running the i-th command leaves a document with an empty selection unchanged, and otherwise replaces the selection by its span in the i-th palette color, keeping the text around it |
| Commands.IdsDistinctIffColorsDistinct | main.ts:26-30 | command ids are pairwise distinct exactly when the palette holds no color twice |
| Commands.LabelsUseStoredEmoji | main.ts:27-31 | when every color has a non-empty emoji, every label shows that color's stored emoji |
| Commands.DefaultCommands | main.ts:26-31 | with no saved data there are five commands, the first `set-text-red` labelled `Set Text To red 🔴` |
| Palette.AddColor | main.ts:101-106 | an empty trimmed color or emoji changes nothing; otherwise the trimmed color is appended after the unchanged old colors, mapped to the trimmed emoji, and every other emoji entry is unchanged |
| Palette.AddColorChangesIff | main.ts:104 | the add changes the settings exactly when both trimmed inputs are non-empty |
| Palette.AddColorKeepsDuplicates | main.ts:104-105 | adding a color already present adds one more copy of it |
| Palette.SetEmoji | main.ts:124-126 | whitespace-only input changes nothing; otherwise only that color's emoji changes, to the trimmed input, and the colors are untouched |
| Palette.DeleteColor | main.ts:136-139 | an absent color changes nothing; otherwise the first occurrence is removed, the rest keep their order, and only that color's emoji entry is dropped |
| Palette.DeleteColorRemovesOneCopy | main.ts:136-138 | deleting removes one copy of the color and leaves the count of every other color alone |
| Palette.AddColorPreserves | main.ts:104-106 | adding keeps every emoji key a palette color, every color with an emoji, and every emoji non-empty |
| Palette.SetEmojiPreserves | main.ts:124-126 | editing a palette color's emoji keeps the same three properties |
| Palette.DeleteColorPreserves | main.ts:136-139 | deleting keeps every emoji key a palette color and every emoji non-empty, and keeps every color with an emoji when the palette had no duplicates |
| Palette.DuplicateThenDeleteLosesEmoji | main.ts:104-139 | adding `red` again to the defaults and then deleting `red` leaves a `red` without an emoji, whose command shows `⬤` |
| Palette.AddColorAppendsCommand | main.ts:104-106 | adding a new color registers one more command at the end and changes no earlier command |
| Palette.SetEmojiRelabels | main.ts:124-128 | editing an emoji keeps every command's id and color, relabels exactly the commands of that color, and keeps the other labels |
| Palette.DeleteColorDropsCommand | main.ts:136-141 | deleting a color held once removes exactly its command and keeps the others in order |
| SettingsTab.DisplayRows | main.ts:116-120 | one row per palette color, in palette order, named by the color and describing its emoji with the same fallback as the command labels |
| SettingsTab.RowsMatchCommands | main.ts:116-117 | each row shows the same color and emoji as the command at the same position |
| SettingsTab.QuerySelector | main.ts:99-100 | the lookup finds nothing exactly when no field carries the class, and otherwise the first field that does |
| SettingsTab.RenderedInputs | main.ts:88-95 | the tab's text fields carry no class at all |
| SettingsTab.AddClick | main.ts:98-106 | when either field is not found the click changes nothing; otherwise it adds the found fields' values |
| SettingsTab.AddClickNeverAdds | main.ts:88-104 | with the fields as rendered, clicking "Add" never changes the settings, whatever was typed |
| SettingsTab.AddClickIgnoresTypedColor | main.ts:99-104 | typing `pink` and an emoji would be accepted by the add logic, yet the click adds nothing |
| SettingsTab.ClassedInputs | main.ts:88-95 | the add row's fields, once given the classes, are the color field and then the emoji field |
| SettingsTab.ClassedAddClickAdds | main.ts:98-106 | with the classes assigned, clicking "Add" adds exactly the typed color and emoji |

## Findings

| source | as written | input that shows it | evidently intended | confidence | as-written member | corrected member |
|---|---|---|---|---|---|---|
| main.ts:99-104 | the click handler looks its fields up as `.add-color-input` and `.add-color-emoji-input`, but the fields built at main.ts:88-95 never get these classes, so both lookups find nothing, the trimmed values are `undefined` and the guard fails | any click, e.g. `pink` and `🌸` typed into the defaults' add row | the click adds the typed color with the typed emoji | high, not executed | SettingsTab.AddClickNeverAdds | SettingsTab.ClassedAddClickAdds |

The rest of the model treats adding through `Palette.AddColor` on the typed
strings, which is the intended behaviour.

## Left out

- The Obsidian host API (`Plugin`, `addCommand`, `addSettingTab`, `Setting`
  builders, DOM rendering) is not modelled. Commands are values, and the
  editor is the text before, inside and after the selection.
- `loadData` and `saveData` are not modelled as I/O. Loading is a function of
  the saved record, and the asynchronous ordering around saves is not modelled.
- `reloadPlugin` and the re-render after each mutation are not modelled. They
  are lifecycle plumbing that only re-runs the derivations modelled here.
- Reference aliasing is not modelled. `Object.assign` copies shallowly, so on a
  first run `colors.push` also mutates the default arrays. A value model cannot
  show this.
- Settings.Load: a saved field holding a value of the wrong type, `null`
  included, is not modelled, nor are extra fields copied by `Object.assign`.
  The model assumes each field is either missing or of the declared type.
- Commands.EmojiFor, Palette.AddColor, Palette.SetEmoji: the emoji table is a
  JavaScript object, and the model treats it as a plain map. A color named like
  an inherited property, such as `toString`, would find a function there, and
  its label would print that function. Writing the key `__proto__` (main.ts:106,
  main.ts:126) creates no own key, whereas the map update always does.
- Obsidian prefixes each command id with the plugin id, and it replaces a
  command registered twice under one id. Neither is modelled;
  `Commands.IdsDistinctIffColorsDistinct` states when ids collide.
- The add row's `onChange(() => {})` callbacks do nothing and are not modelled.
