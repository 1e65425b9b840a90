/**
 * The palette mutations behind the settings tab's handlers: adding a color,
 * editing a color's emoji and deleting a color. Each guards on trimmed input
 * and then updates the color sequence and the emoji table.
 */
module Palette {
  import opened Wrappers
  import opened Text
  import opened Settings
  import opened Commands

  /**
   * The "Add" button: when both the trimmed color and the trimmed emoji are
   * non-empty, append the color (with no duplicate check) and map it to the
   * emoji; otherwise change nothing.
   */
  function AddColor(s: TextColorSettings, colorRaw: string, emojiRaw: string): (r: TextColorSettings)
    ensures Trim(colorRaw) == [] || Trim(emojiRaw) == [] ==> r == s
    ensures Trim(colorRaw) != [] && Trim(emojiRaw) != [] ==>
      && |r.colors| == |s.colors| + 1
      && r.colors[..|s.colors|] == s.colors
      && r.colors[|s.colors|] == Trim(colorRaw)
      && Trim(colorRaw) in r.colorEmojis && r.colorEmojis[Trim(colorRaw)] == Trim(emojiRaw)
      && r.colorEmojis.Keys == s.colorEmojis.Keys + {Trim(colorRaw)}
      && (forall c :: c in s.colorEmojis && c != Trim(colorRaw) ==> r.colorEmojis[c] == s.colorEmojis[c])
  {
    var color := Trim(colorRaw);
    var emoji := Trim(emojiRaw);
    if color != [] && emoji != [] then
      TextColorSettings(s.colors + [color], s.colorEmojis[color := emoji])
    else
      s
  }

  /** The add is accepted exactly when both trimmed inputs are non-empty. */
  lemma AddColorChangesIff(s: TextColorSettings, colorRaw: string, emojiRaw: string)
    ensures AddColor(s, colorRaw, emojiRaw) != s <==> Trim(colorRaw) != [] && Trim(emojiRaw) != []
  {
  }

  /** No duplicate check: adding a color already in the palette adds a second copy. */
  lemma AddColorKeepsDuplicates(s: TextColorSettings, colorRaw: string, emojiRaw: string)
    requires Trim(colorRaw) != [] && Trim(emojiRaw) != []
    ensures multiset(AddColor(s, colorRaw, emojiRaw).colors)[Trim(colorRaw)]
         == multiset(s.colors)[Trim(colorRaw)] + 1
  {
  }

  /**
   * The emoji field of a color row: whitespace-only input changes nothing;
   * otherwise only that color's emoji changes, to the trimmed input.
   */
  function SetEmoji(s: TextColorSettings, color: string, raw: string): (r: TextColorSettings)
    ensures Trim(raw) == [] ==> r == s
    ensures Trim(raw) != [] ==>
      && r.colors == s.colors
      && color in r.colorEmojis && r.colorEmojis[color] == Trim(raw)
      && r.colorEmojis.Keys == s.colorEmojis.Keys + {color}
      && (forall c :: c in s.colorEmojis && c != color ==> r.colorEmojis[c] == s.colorEmojis[c])
  {
    var emoji := Trim(raw);
    if emoji != [] then TextColorSettings(s.colors, s.colorEmojis[color := emoji]) else s
  }

  /**
   * The "Delete" button: a color not in the palette changes nothing; otherwise
   * the first occurrence is removed, the rest keep their order, and the
   * color's emoji entry is dropped.
   */
  function DeleteColor(s: TextColorSettings, color: string): (r: TextColorSettings)
    ensures color !in s.colors ==> r == s
    ensures color in s.colors ==>
      && |r.colors| == |s.colors| - 1
      && (exists i :: 0 <= i < |s.colors| && s.colors[i] == color && color !in s.colors[..i]
                   && r.colors == s.colors[..i] + s.colors[i + 1..])
      && r.colorEmojis.Keys == s.colorEmojis.Keys - {color}
      && (forall c :: c in r.colorEmojis ==> r.colorEmojis[c] == s.colorEmojis[c])
  {
    match IndexOf(s.colors, color)
    case None => s
    case Some(i) => TextColorSettings(RemoveAt(s.colors, i), s.colorEmojis - {color})
  }

  /** Deleting takes exactly one copy of the color out of the palette and leaves every other count alone. */
  lemma DeleteColorRemovesOneCopy(s: TextColorSettings, color: string)
    requires color in s.colors
    ensures multiset(DeleteColor(s, color).colors) == multiset(s.colors) - multiset{color}
  {
    var i := IndexOf(s.colors, color).value;
    RemoveAtMultiset(s.colors, i);
  }

  // The invariants of the settings value under the three mutations.

  /** Adding keeps every emoji key a palette color and every palette color labelled. */
  lemma AddColorPreserves(s: TextColorSettings, colorRaw: string, emojiRaw: string)
    ensures Covered(s) ==> Covered(AddColor(s, colorRaw, emojiRaw))
    ensures Labelled(s) ==> Labelled(AddColor(s, colorRaw, emojiRaw))
    ensures EmojisNonEmpty(s) ==> EmojisNonEmpty(AddColor(s, colorRaw, emojiRaw))
  {
  }

  /** Editing the emoji of a palette color keeps all three invariants. */
  lemma SetEmojiPreserves(s: TextColorSettings, color: string, raw: string)
    requires color in s.colors
    ensures Covered(s) ==> Covered(SetEmoji(s, color, raw))
    ensures Labelled(s) ==> Labelled(SetEmoji(s, color, raw))
    ensures EmojisNonEmpty(s) ==> EmojisNonEmpty(SetEmoji(s, color, raw))
  {
  }

  /**
   * Deleting keeps every emoji key a palette color, and keeps every color
   * labelled as long as the palette held no duplicates.
   */
  lemma DeleteColorPreserves(s: TextColorSettings, color: string)
    ensures Covered(s) ==> Covered(DeleteColor(s, color))
    ensures EmojisNonEmpty(s) ==> EmojisNonEmpty(DeleteColor(s, color))
    ensures Labelled(s) && Distinct(s) ==> Labelled(DeleteColor(s, color)) && Distinct(DeleteColor(s, color))
  {
  }

  /**
   * The cost of having no duplicate check: add "red" again to the defaults,
   * delete "red", and the remaining "red" has lost its emoji, so its command
   * falls back to the marker.
   */
  lemma DuplicateThenDeleteLosesEmoji()
    ensures var s := DeleteColor(AddColor(Defaults, "red", "x"), "red");
      && s.colors == [Blue, Green, Purple, Orange, Red]
      && !Labelled(s)
      && DeriveCommands(s)[4].name == Label(Red, FallbackEmoji)
  {
    var a := AddColor(Defaults, "red", "x");
    TrimUnique("red", 0, 3);
    TrimUnique("x", 0, 1);
    assert Trim("red") == Red by { assert "red"[0..3] == Red; }
    assert Trim("x") == "x" by { assert "x"[0..1] == "x"; }
    assert a.colors == [Red, Blue, Green, Purple, Orange, Red];
    var s := DeleteColor(a, "red");
    assert s.colors == [Blue, Green, Purple, Orange, Red];
    assert Red !in s.colorEmojis;
  }

  // How each mutation changes the registered commands.

  /** Adding a new color registers one more command, at the end, and relabels nothing. */
  lemma AddColorAppendsCommand(s: TextColorSettings, colorRaw: string, emojiRaw: string)
    requires Trim(colorRaw) != [] && Trim(emojiRaw) != []
    requires Trim(colorRaw) !in s.colors
    ensures DeriveCommands(AddColor(s, colorRaw, emojiRaw))
         == DeriveCommands(s) + [Command(CommandId(Trim(colorRaw)), Label(Trim(colorRaw), Trim(emojiRaw)), Trim(colorRaw))]
  {
  }

  /**
   * Editing a color's emoji keeps every command's id and color, relabels the
   * commands of that color with the new emoji and leaves the other labels alone.
   */
  lemma SetEmojiRelabels(s: TextColorSettings, color: string, raw: string)
    requires Trim(raw) != []
    ensures var before, after := DeriveCommands(s), DeriveCommands(SetEmoji(s, color, raw));
      && |after| == |before|
      && forall i :: 0 <= i < |before| ==>
        && after[i].id == before[i].id && after[i].color == before[i].color
        && (s.colors[i] == color ==> after[i].name == Label(color, Trim(raw)))
        && (s.colors[i] != color ==> after[i].name == before[i].name)
  {
  }

  /** Deleting a color held once unregisters exactly its command, keeping the others in order. */
  lemma DeleteColorDropsCommand(s: TextColorSettings, color: string, i: nat)
    requires i < |s.colors| && s.colors[i] == color
    requires multiset(s.colors)[color] == 1
    ensures DeriveCommands(DeleteColor(s, color)) == RemoveAt(DeriveCommands(s), i)
  {
    IndexOfSingle(s.colors, color, i);
    var r := TextColorSettings(RemoveAt(s.colors, i), s.colorEmojis - {color});
    assert DeleteColor(s, color) == r;
    RemovedCommandsAgree(s, color, i, r);
  }

  /** Helper: the commands of the palette with position `i` removed, position by position. */
  lemma RemovedCommandsAgree(s: TextColorSettings, color: string, i: nat, r: TextColorSettings)
    requires i < |s.colors| && s.colors[i] == color
    requires multiset(s.colors)[color] == 1
    requires r == TextColorSettings(RemoveAt(s.colors, i), s.colorEmojis - {color})
    ensures DeriveCommands(r) == RemoveAt(DeriveCommands(s), i)
  {
    var after, expected := DeriveCommands(r), RemoveAt(DeriveCommands(s), i);
    forall j | 0 <= j < |after| ensures after[j] == expected[j] {
      RemovedCommandAt(s, color, i, r, j);
    }
  }

  /** Helper: position `j` of the commands left after removing position `i`. */
  lemma RemovedCommandAt(s: TextColorSettings, color: string, i: nat, r: TextColorSettings, j: nat)
    requires i < |s.colors| && s.colors[i] == color
    requires multiset(s.colors)[color] == 1
    requires r == TextColorSettings(RemoveAt(s.colors, i), s.colorEmojis - {color})
    requires j < |r.colors|
    ensures DeriveCommands(r)[j] == RemoveAt(DeriveCommands(s), i)[j]
  {
    var k := if j < i then j else j + 1;
    var c := s.colors[k];
    assert r.colors[j] == c;
    assert c != color by {
      if c == color { TwoCopies(s.colors, if k < i then k else i, if k < i then i else k); }
    }
    assert EmojiFor(r, c) == EmojiFor(s, c);
    assert CommandFor(r, c) == CommandFor(s, c);
    CommandAt(r, j);
    CommandAt(s, k);
    assert RemoveAt(DeriveCommands(s), i)[j] == DeriveCommands(s)[k];
  }
}
