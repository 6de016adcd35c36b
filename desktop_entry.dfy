/** The desktop entry the installer writes (the fixed template of a
    freedesktop.org Desktop Entry: the `[Desktop Entry]` group header of
    section 3 and the `Name`, `Exec`, `Icon`, `Type` keys of section 6 of the
    Desktop Entry Specification) and the textual rename applied to it. */
module DesktopEntry {
  import opened Text

  const Header := "[Desktop Entry]"
  const TypeLine := "Type=Application"
  const CategoriesLine := "Categories=Utility;"
  const TerminalLine := "Terminal=false"

  /** The lines of the entry `install_appimage` writes for an application. */
  function EntryLines(name: string, exec: string, icon: string): seq<string>
  {
    [Header, "Name=" + name, "Exec=" + exec, "Icon=" + icon, TypeLine, CategoriesLine, TerminalLine]
  }

  /** The text `install_appimage` writes: the template's lines, each ended by
      a newline. */
  function Render(name: string, exec: string, icon: string): string
  {
    JoinLines(EntryLines(name, exec, icon))
  }

  /** Reading the rendered entry back line by line gives exactly the seven
      template lines, in order. */
  lemma RenderLines(name: string, exec: string, icon: string)
    requires '\n' !in name && '\n' !in exec && '\n' !in icon
    ensures SplitLines(Render(name, exec, icon)) ==
      ["[Desktop Entry]", "Name=" + name, "Exec=" + exec, "Icon=" + icon,
       "Type=Application", "Categories=Utility;", "Terminal=false"]
  {
    var lines := EntryLines(name, exec, icon);
    forall k | 0 <= k < |lines|
      ensures '\n' !in lines[k]
    {
    }
    SplitJoin(lines);
  }

  /** What `edit_selected_app` does to the text of an entry when `oldName`
      becomes `newName`: `content.replace(f"Name={old}", f"Name={new}")`.
      Every text is left alone when the name does not change. */
  function RenameInEntry(content: string, oldName: string, newName: string): (renamed: string)
    ensures oldName == newName ==> renamed == content
  {
    ReplaceBySelf(content, "Name=" + oldName);
    ReplaceAll(content, "Name=" + oldName, "Name=" + newName)
  }

  /** Text that holds no `Name=<old>` is left alone. */
  lemma NoKeyCopied(p: string, oldName: string, newName: string)
    requires !Occurs(p, "Name=" + oldName)
    ensures RenameInEntry(p, oldName, newName) == p
  {
    ReplaceMissing(p, "Name=" + oldName, "Name=" + newName);
  }

  /** Text without the letter `N` holds no `Name=` key and is left alone. */
  lemma NoKeyLetter(p: string, oldName: string, newName: string)
    requires 'N' !in p
    ensures RenameInEntry(p, oldName, newName) == p
  {
    var pat := "Name=" + oldName;
    ReplaceAfterPrefix(p, [], pat, "Name=" + newName);
    assert p + [] == p;
  }

  /** A key prefix without the letter `N` is kept and the value is rewritten. */
  lemma KeyValueRenamed(key: string, value: string, oldName: string, newName: string)
    requires 'N' !in key
    ensures RenameInEntry(key + value, oldName, newName) == key + RenameInEntry(value, oldName, newName)
  {
    ReplaceAfterPrefix(key, value, "Name=" + oldName, "Name=" + newName);
  }

  /** The rename applied to each line on its own. */
  function RenameLines(lines: seq<string>, oldName: string, newName: string): (r: seq<string>)
    ensures |r| == |lines|
    ensures forall k :: 0 <= k < |lines| ==> r[k] == RenameInEntry(lines[k], oldName, newName)
  {
    seq(|lines|, k requires 0 <= k < |lines| => RenameInEntry(lines[k], oldName, newName))
  }

  /** For a name without a newline, no `Name=<old>` occurrence spans two
      lines, so renaming the text renames each line on its own. */
  lemma {:induction false} RenameJoined(lines: seq<string>, oldName: string, newName: string)
    requires '\n' !in oldName
    ensures RenameInEntry(JoinLines(lines), oldName, newName) == JoinLines(RenameLines(lines, oldName, newName))
    decreases |lines|
  {
    var pat, rep := "Name=" + oldName, "Name=" + newName;
    if lines != [] {
      assert '\n' !in pat;
      ReplaceAround(lines[0], '\n', JoinLines(lines[1..]), pat, rep);
      RenameJoined(lines[1..], oldName, newName);
      assert RenameLines(lines[1..], oldName, newName) == RenameLines(lines, oldName, newName)[1..];
    }
  }

  /** The `Name` line itself becomes the line for the new name. */
  lemma NameLineRenamed(oldName: string, newName: string)
    ensures RenameInEntry("Name=" + oldName, oldName, newName) == "Name=" + newName
  {
    var pat, rep := "Name=" + oldName, "Name=" + newName;
    assert ReplaceAll(pat, pat, rep) == rep + ReplaceAll([], pat, rep) == rep + [] == rep;
  }

  /** The four fixed lines of the template hold no `Name=` key. */
  lemma FixedLinesKept(oldName: string, newName: string)
    ensures RenameInEntry(Header, oldName, newName) == Header
    ensures RenameInEntry(TypeLine, oldName, newName) == TypeLine
    ensures RenameInEntry(CategoriesLine, oldName, newName) == CategoriesLine
    ensures RenameInEntry(TerminalLine, oldName, newName) == TerminalLine
  {
    NoKeyLetter(Header, oldName, newName);
    NoKeyLetter(TypeLine, oldName, newName);
    NoKeyLetter(CategoriesLine, oldName, newName);
    NoKeyLetter(TerminalLine, oldName, newName);
  }

  /** On a rendered entry the rename rewrites the `Name` line to the new name
      and rewrites `Exec` and `Icon` as well wherever they contain
      `Name=<old>`; the other lines are untouched. */
  lemma RenameRendered(oldName: string, newName: string, exec: string, icon: string)
    requires '\n' !in oldName
    ensures RenameInEntry(Render(oldName, exec, icon), oldName, newName) ==
            Render(newName, RenameInEntry(exec, oldName, newName), RenameInEntry(icon, oldName, newName))
  {
    var lines := EntryLines(oldName, exec, icon);
    RenameJoined(lines, oldName, newName);
    FixedLinesKept(oldName, newName);
    NameLineRenamed(oldName, newName);
    KeyValueRenamed("Exec=", exec, oldName, newName);
    KeyValueRenamed("Icon=", icon, oldName, newName);
    assert RenameLines(lines, oldName, newName) ==
           EntryLines(newName, RenameInEntry(exec, oldName, newName), RenameInEntry(icon, oldName, newName));
  }

  /** A freshly rendered entry whose `Exec` and `Icon` values do not contain
      `Name=<old>` becomes exactly the entry rendered for the new name. */
  lemma RenameFreshEntry(oldName: string, newName: string, exec: string, icon: string)
    requires '\n' !in oldName
    requires !Occurs(exec, "Name=" + oldName) && !Occurs(icon, "Name=" + oldName)
    ensures RenameInEntry(Render(oldName, exec, icon), oldName, newName) == Render(newName, exec, icon)
  {
    RenameRendered(oldName, newName, exec, icon);
    NoKeyCopied(exec, oldName, newName);
    NoKeyCopied(icon, oldName, newName);
  }

  /** Renaming a fresh entry and renaming it back restores its text. */
  lemma RenameEntryBack(a: string, b: string, exec: string, icon: string)
    requires '\n' !in a && '\n' !in b
    requires !Occurs(exec, "Name=" + a) && !Occurs(icon, "Name=" + a)
    requires !Occurs(exec, "Name=" + b) && !Occurs(icon, "Name=" + b)
    ensures RenameInEntry(RenameInEntry(Render(a, exec, icon), a, b), b, a) == Render(a, exec, icon)
  {
    RenameFreshEntry(a, b, exec, icon);
    RenameFreshEntry(b, a, exec, icon);
  }

  /** The rewrite is textual: where `Name=<old>` first occurs in a value,
      such as a bundle path `/opt/Name=x.AppImage`, the text `before` it is
      kept, the occurrence becomes `Name=<new>`, and the text `after` it is
      rewritten in turn. That it is the first occurrence means that none
      starts inside `before`. */
  lemma RenameReachesPath(before: string, after: string, oldName: string, newName: string)
    requires !Occurs(before + ("Name=" + oldName)[..|oldName| + 4], "Name=" + oldName)
    ensures RenameInEntry(before + ("Name=" + oldName) + after, oldName, newName) ==
            before + ("Name=" + newName) + RenameInEntry(after, oldName, newName)
  {
    ReplaceFirstMatch(before, after, "Name=" + oldName, "Name=" + newName);
  }
}
