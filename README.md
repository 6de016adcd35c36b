# AppImage installer: registry and desktop entries

This project models the core of the `AppImageInstaller` window of
`appimage_installer.py`. The window keeps a registry, `installed_apps`, that
maps an application name to the record `{path, install_date}`. It offers
three operations on the registry and on the files around it:

- **Install** copies an AppImage bundle into `~/.local/share/appimages`. It
  writes one desktop entry to the menu directory
  `~/.local/share/applications` and the same entry to `~/Desktop`. Then it
  records the application.
- **Rename** textually replaces `Name=<old>` by `Name=<new>` in both desktop
  entries and moves them to the new file names. It also moves the registry
  record to the new key.
- **Remove** deletes whichever of the bundle and the two entries exist, and
  deletes the record.

The window always lists the registered names in sorted order.

The file system is a map from path to `File(content, executable)`. Module by
module:

- `Text` holds the Python string operations the code relies on: `in` on
  strings, greedy non-overlapping `str.replace` and ASCII `str.lower`. The
  code never splits text into lines. `JoinLines`, `SplitLines` and
  `SplitJoin` exist only to state the line structure of the desktop entry
  it writes.
- `Paths` holds `os.path.basename`, `os.path.splitext`, the two-argument
  `os.path.join`, and the fixed per-user locations. `home` is what
  `os.path.expanduser` puts in place of `~`.
- `DesktopEntry` holds the fixed seven-line template and the rename rewrite.
  The template uses the `[Desktop Entry]` group header (section 3 of the
  freedesktop.org Desktop Entry Specification) and the `Name`, `Exec`,
  `Icon` and `Type` keys (section 6).
- `Listing` holds Python's string order and `sorted(keys)`.
- `Registry` holds the record type and the two updates made to the map.
- `Installer` holds each operation twice:
  - as a function from the state before to the state after (`Install`,
    `Rename`, `Remove`), whose contract states the effect;
  - as a method of the class `AppImageInstaller`, which performs the
    source's steps in order and is proved to end in the state the
    function describes.

Inputs that come from outside the program are parameters of the methods:

- the chosen file;
- the description `magic.from_file` returns;
- the timestamp `datetime.now().isoformat()` returns;
- whether the edit dialog was accepted and the text typed in it;
- the answer to the removal question;
- what `load_installed_apps` finds on disk.

Where the code and the application's description of its behaviour differ,
the model follows the code:

- Install asks for no confirmation when the name is already registered. The
  earlier record is overwritten, and stale entries of that name are
  overwritten too.
- Rename applies `str.replace` to the whole entry text, not to the `Name=`
  line alone. An `Exec` or `Icon` path that contains `Name=<old>` is
  rewritten as well (`DesktopEntry.RenameReachesPath`,
  `DesktopEntry.RenameRendered`).
- Rename writes the renamed entries with a plain `open(..., "w")` and never
  calls `chmod`. Entries it creates are therefore no longer executable
  (`Installer.InstallThenRename`).
- There is no icon handling beyond the fixed `app_icon.png` path, and no
  `Comment` key or comment editing.
- Renaming onto a name that is already registered replaces that record
  (`Registry.MoveKeyOntoTaken`).

## Model

| member | source | states |
|---|---|---|
| Text.Occurs | appimage_installer.py:254 | the `in` substring test, scanning `s` from the left for a copy of `pat` |
| Text.OccursIff | appimage_installer.py:254 | the substring test `pat in s` holds exactly when `pat` matches at some index of `s` |
| Text.ReplaceAll | appimage_installer.py:178 | `str.replace` with a non-empty pattern: occurrences are found from the left and replaced without overlap |
| Text.ReplaceMissing | appimage_installer.py:178 | text in which the pattern does not occur is left unchanged |
| Text.ReplaceBySelf | appimage_installer.py:178 | replacing a pattern by itself changes nothing |
| Text.ReplaceFirstMatch | appimage_installer.py:178 | where no occurrence starts before a given match, the text before it is kept, the match is replaced, and the rest is rewritten in turn |
| Text.ReplaceAfterPrefix | appimage_installer.py:178 | a prefix that cannot start an occurrence is kept as it is, and only the rest is rewritten |
| Text.ReplaceAround | appimage_installer.py:178 | no occurrence spans a character the pattern lacks, so replacing across it is replacing on each side |
| Text.Lower | appimage_installer.py:254 | `lower()` keeps the length, leaves no ASCII capital, maps each capital to its small letter and keeps every other character |
| Text.LowerIdempotent | appimage_installer.py:254 | lower-casing twice is lower-casing once |
| Text.SplitJoin | appimage_installer.py:278-285 | reading the written text back line by line gives exactly the lines written, for lines without a newline |
| Paths.Basename | appimage_installer.py:260 | the base name has no `/`, is a suffix of the path, and follows the last `/` |
| Paths.BasenameAfterSlash | appimage_installer.py:260 | the base name of `dir/name` is `name` |
| Paths.Stem | appimage_installer.py:261 | `splitext(...)[0]` is a prefix; when it drops something, it drops the last dot and what follows, and the part kept has a character other than a dot; when it keeps the whole name, no dot follows a non-dot character |
| Paths.StemDropsLastExtension | appimage_installer.py:261 | only the last extension is removed: the stem of `base.ext` is `base` |
| Paths.StemKeepsDotfile | appimage_installer.py:261 | a name whose only dots are leading ones keeps its leading dot |
| Paths.AppName | appimage_installer.py:260-261 | a derived application name never contains `/` |
| Paths.AppNameOfPath | appimage_installer.py:260-261 | the application name of `dir/base.ext` is `base` |
| Paths.Join | appimage_installer.py:170-171 | two-argument `os.path.join`: an absolute second part wins; otherwise the parts are joined by one `/` unless the first is empty or already ends in `/` |
| Paths.JoinShape | appimage_installer.py:170-171 | the joined path ends with the second part; an absolute second part replaces the first; otherwise the first part is a prefix, separated from the second by a `/` when it is non-empty |
| Paths.MenuEntryPath | appimage_installer.py:286 | the menu entry of a relative `name` is `<home>/.local/share/applications/<name>.desktop` |
| Paths.ShortcutPath | appimage_installer.py:224 | the shortcut edit and remove look for is `<home>/Desktop/<name>.desktop` |
| Paths.JoinedShortcutPath | appimage_installer.py:293 | for a relative name, the shortcut install writes is the one edit and remove look for |
| Paths.BundlePath | appimage_installer.py:272 | the bundle copy of a relative `file` is `<home>/.local/share/appimages/<file>` |
| Paths.IconPath | appimage_installer.py:277 | the icon path is `app_icon.png` joined to the working directory |
| Paths.IconPathShape | appimage_installer.py:277 | the icon path starts with the working directory and ends with `/app_icon.png` (or is `app_icon.png` itself for an empty directory) |
| Paths.EntryPathsDistinct | appimage_installer.py:165-171 | the menu entry and the shortcut never share a path; different names get different paths in each location |
| Paths.BundlePathDistinct | appimage_installer.py:286-293 | the bundle copy never shares a path with either desktop entry |
| Paths.EntryPathsApart | appimage_installer.py:165-171 | for two relative names, each one's menu entry differs from the other's shortcut, and different names have different entries in each location |
| DesktopEntry.Render | appimage_installer.py:278-285 | the entry text: the seven template lines, each followed by a newline |
| DesktopEntry.RenderLines | appimage_installer.py:278-285 | the entry text is exactly the seven template lines, in order |
| DesktopEntry.RenameInEntry | appimage_installer.py:178 | renaming to the same name leaves every text unchanged |
| DesktopEntry.NoKeyCopied | appimage_installer.py:178 | text that does not contain `Name=<old>` is not changed by the rename |
| DesktopEntry.NoKeyLetter | appimage_installer.py:178 | text without the letter `N` is not changed by the rename |
| DesktopEntry.KeyValueRenamed | appimage_installer.py:178 | the key of an `Exec=` or `Icon=` line is kept, and only its value is rewritten |
| DesktopEntry.RenameJoined | appimage_installer.py:178 | for a name without a newline, renaming the whole text is renaming each line on its own |
| DesktopEntry.NameLineRenamed | appimage_installer.py:178 | the `Name=<old>` line becomes `Name=<new>` |
| DesktopEntry.FixedLinesKept | appimage_installer.py:282-284 | the header and the `Type`, `Categories` and `Terminal` lines survive a rename |
| DesktopEntry.RenameRendered | appimage_installer.py:175-189 | renaming an installed entry gives the entry rendered for the new name, whose `Exec` and `Icon` values are rewritten as well |
| DesktopEntry.RenameFreshEntry | appimage_installer.py:178 | when the `Exec` and `Icon` values do not contain `Name=<old>`, the renamed entry is exactly the one install would write for the new name |
| DesktopEntry.RenameEntryBack | appimage_installer.py:178 | renaming an entry to `b` and back to `a` restores its text |
| DesktopEntry.RenameReachesPath | appimage_installer.py:178 | at the first `Name=<old>` in any value, such as a bundle path, the text before it is kept, the occurrence becomes `Name=<new>`, and the rest is renamed in turn |
| Listing.BelowTotal | appimage_installer.py:131 | any two names are ordered one way or the other |
| Listing.BelowAntisymmetric | appimage_installer.py:131 | two names ordered both ways are equal |
| Listing.BelowTransitive | appimage_installer.py:131 | the order on names is transitive |
| Listing.LeastExists | appimage_installer.py:131 | every non-empty set of names has a least one |
| Listing.ListingUnique | appimage_installer.py:131 | there is only one strictly sorted listing of a set of names |
| Listing.SortedNames | appimage_installer.py:131 | the result lists exactly the keys, in strictly increasing order |
| Registry.Upsert | appimage_installer.py:298-301 | the name is bound to the new record, added if it was new, and every other record is unchanged |
| Registry.UpsertThenDelete | appimage_installer.py:235 | deleting a freshly added name gives the registry back |
| Registry.UpsertTwice | appimage_installer.py:298-301 | recording a name twice keeps only the second record |
| Registry.MoveKey | appimage_installer.py:192 | `old` is gone, `new` holds `old`'s record unchanged, and every other record is unchanged |
| Registry.MoveKeyBack | appimage_installer.py:192 | moving a record to a free name and back restores the registry |
| Registry.MoveKeyOntoTaken | appimage_installer.py:192 | moving onto a registered name drops that name's record, leaving one record fewer |
| Installer.IsExecutableType | appimage_installer.py:254 | the type check holds exactly when the lower-cased description contains `executable` at some position |
| Installer.ExecutableTypeIgnoresCase | appimage_installer.py:254 | the type check does not depend on the case of the description |
| Installer.Written | appimage_installer.py:179 | writing a file binds the path to the new text, keeps the mode of an existing file, creates a new file without executable bits, and changes no other path |
| Installer.Placed | appimage_installer.py:271-295 | the bundle copy, the menu entry and the shortcut are present with their contents, and every other file is unchanged |
| Installer.Deployed | appimage_installer.py:259-301 | after the checks: the name is recorded with the bundle copy and the timestamp; the bundle is an executable copy of the source; the same executable entry is in both locations; nothing else changes |
| Installer.Install | appimage_installer.py:250-316 | success exactly when the file exists, its description contains "executable" (case-insensitively) and its copy is not the file itself; no change otherwise; the not-executable warning for an existing file of another type; the error outcome for a missing file or a copy onto itself; on success, the effect above |
| Installer.RenameApplies | appimage_installer.py:156-163 | the rename guard: the name is registered, the dialog was accepted, and the new name is non-empty and different |
| Installer.RenameChangesRegistry | appimage_installer.py:156-192 | the registry changes exactly when the rename guard holds |
| Installer.MovedEntry | appimage_installer.py:175-189 | an existing entry is removed and its renamed text is at the new path; a missing entry creates nothing; all other paths are unchanged |
| Installer.Rename | appimage_installer.py:150-199 | no change unless the name is registered, the dialog was accepted and the new name is non-empty and different; then the record moves to the new key, both entries move with their `Name=` rewritten, and no other file changes |
| Installer.Remove | appimage_installer.py:201-248 | no change unless confirmed and registered; then exactly that record and the bundle, shortcut and menu entry (those present) are gone, and nothing else changes |
| Installer.InstallThenRemove | appimage_installer.py:201-248 | installing a new application and removing it restores the registry and every file |
| Installer.InstallTwice | appimage_installer.py:298-301 | installing the same file twice leaves one record for its name, carrying the second timestamp |
| Installer.RenameThereAndBack | appimage_installer.py:150-199 | renaming to a free name and back restores the registry and leaves no entry under the intermediate name |
| Installer.RenameBackRestoresEntry | appimage_installer.py:175-189 | a rendered menu entry renamed there and back has its original text |
| Installer.InstallThenRename | appimage_installer.py:175-192 | after a fresh install and a rename, both locations hold the entry rendered for the new name, no longer executable, and the old entries are gone |
| Installer.AppImageInstaller.constructor | appimage_installer.py:56-64 | the window starts with the stored registry, or an empty one when the file is missing or unreadable, and lists its names sorted |
| Installer.AppImageInstaller.LoadInstalledApps | appimage_installer.py:109-117 | a decoded registry replaces the current one; an unreadable file empties it; a missing file leaves it as it was |
| Installer.AppImageInstaller.SaveInstalledApps | appimage_installer.py:119-127 | the stored registry becomes the current one |
| Installer.AppImageInstaller.UpdateAppList | appimage_installer.py:129-132 | the list shown is the registry's names in sorted order |
| Installer.AppImageInstaller.PlaceFiles | appimage_installer.py:271-295 | the copy, write, copy and `chmod` steps leave the three executable files and change nothing else |
| Installer.AppImageInstaller.Deploy | appimage_installer.py:259-301 | the steps after the checks reach the state `Installer.Deployed` describes |
| Installer.AppImageInstaller.InstallAppImage | appimage_installer.py:250-316 | the outcome and the new state are those of `Installer.Install`; the registry is saved only on success; the sorted listing is kept |
| Installer.AppImageInstaller.MoveEntry | appimage_installer.py:175-181 | one read, replace, write and remove step has the effect `Installer.MovedEntry` describes |
| Installer.AppImageInstaller.EditSelectedApp | appimage_installer.py:150-199 | it renames exactly when `Installer.Rename` applies; the new state is that of `Installer.Rename`; the registry is saved only then; the sorted listing is kept |
| Installer.AppImageInstaller.DeleteIfExists | appimage_installer.py:220-221 | the path is absent afterwards, and nothing else changes |
| Installer.AppImageInstaller.RemoveSelectedApp | appimage_installer.py:201-248 | it removes exactly when confirmed and registered; the new state is that of `Installer.Remove`; the registry is saved only then; the sorted listing is kept |

## Left out

- The PyQt5 widgets, signal wiring, selection handling, message boxes, status label, `EditAppDialog` and `main` are left out. The dialogs' answers are parameters, and the message shown is the outcome value.
- `magic.from_file` is a foreign library call. Its description of the file is a parameter. A file that does not exist makes it raise, which is modelled as `Failed` with no change.
- `datetime.now().isoformat()` is a parameter.
- Logging is left out.
- JSON encoding and decoding of `installed_apps.json` are left out. What the load finds is `Missing`, `Unreadable` or `Stored(registry)`, and a save stores the registry itself. Records are assumed to have the `{path, install_date}` shape. A hand-edited file with an empty record, which the code's `if not app_info` guards skip, is not modelled.
- `installed_apps.json` is kept apart from the file map, because its content is the saved registry rather than text.
- Directories and `os.makedirs` are left out. Paths are plain keys of the file map, so a missing directory is never an error.
- File modes are modelled as one executable flag. `chmod 0o755` sets it. A file created by `open(..., "w")` is assumed not to be executable, as under the usual umask. `shutil.copy2` metadata other than the mode is left out.
- Operating-system failures in the middle of an operation are not modelled: permission errors, a full disk, a copy onto a directory, or an exception raised inside the edit's `try` after part of the work. The only failures modelled are a source file that does not exist and a bundle whose target path is the file itself (`shutil.SameFileError`). In both cases nothing has changed yet.
- Symbolic and hard links are left out. Two paths are the same file only when they are equal, so `SameFileError` through a link is not modelled.
- `os.path.expanduser` is the parameter `home`. The case where `HOME` is unset is left out.
- `os.path.abspath("app_icon.png")` is `cwd` joined with the file name, with `cwd` assumed absolute and normalised.
- `str.lower` is modelled for ASCII letters only. Unicode case mapping is left out.
- Reading an entry in text mode (`appimage_installer.py:176-177` and `:184-185`) turns `\r\n` and a lone `\r` into `\n`. The model reads the stored text unchanged, so it does not capture this translation for an entry edited by hand with other line endings. Entries the installer writes itself use `\n` only.
- The registry file `installed_apps.json` lives in the bundle directory (`appimage_installer.py:110` and `:120`). Installing a file named `installed_apps.json` would copy it over the registry (`:273`), and the save that follows (`:302`) would overwrite that copy. The model keeps the saved registry apart from the file map and does not capture this collision.
- Installer.Rename: the file effect is stated only for names that do not start with `/`. For other names `os.path.join` discards the menu directory and the stated paths no longer hold. The registry part is stated for all names.
