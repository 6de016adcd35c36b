/** The install / rename / remove lifecycle of `AppImageInstaller`.

    The file system is a map from path to file. The registry is the map
    `installed_apps`. Each operation is given first as a function from the
    state before to the state after (`Install`, `Rename`, `Remove`), whose
    contract states its effect. The class `AppImageInstaller` then performs
    the same operation step by step on its fields, proved equal to that
    function. Qt dialogs become parameters: the chosen file, the
    confirmation, the text typed as the new name. So do `magic.from_file`
    (the type `description`) and `datetime.now().isoformat()` (`now`). */
module Installer {
  import opened Text
  import opened Paths
  import opened DesktopEntry
  import opened Registry
  import opened Listing

  /** A file: its text and whether its executable bits are set. */
  datatype File = File(content: string, executable: bool)

  type Files = map<string, File>

  /** What the three operations change: the registry and the files. */
  datatype Snapshot = Snapshot(apps: Apps, files: Files)

  datatype InstallOutcome =
    | Installed(name: string)  // the success message
    | NotExecutable            // the "not an executable file" warning
    | Failed                   // an exception reported in the error dialog

  datatype InstallStep = InstallStep(outcome: InstallOutcome, after: Snapshot)

  /** `"executable" in file_type.lower()`: the lower-cased description holds
      the word at some position. */
  predicate IsExecutableType(description: string)
    ensures IsExecutableType(description) <==> exists i :: MatchAt(Lower(description), "executable", i)
  {
    OccursIff(Lower(description), "executable");
    Occurs(Lower(description), "executable")
  }

  /** The type check does not depend on the case of the description. */
  lemma ExecutableTypeIgnoresCase(description: string)
    ensures IsExecutableType(Lower(description)) == IsExecutableType(description)
  {
    LowerIdempotent(description);
  }

  /** `open(path, "w").write(content)`: an existing file keeps its mode, a
      new one is created without executable bits. */
  function Written(files: Files, path: string, content: string): (written: Files)
    ensures written.Keys == files.Keys + {path}
    ensures written[path].content == content
    ensures written[path].executable <==> path in files && files[path].executable
    ensures forall p :: p in files && p != path ==> written[p] == files[p]
  {
    files[path := File(content, path in files && files[path].executable)]
  }

  // ---------------------------------------------------------------- install

  /** `after` is `before` with `copy` at `bundle` and `entry` at both `menu`
      and `shortcut`. */
  ghost predicate FilesPlaced(before: Files, after: Files, bundle: string, copy: File,
                              menu: string, shortcut: string, entry: File)
  {
    && after.Keys == before.Keys + {bundle, menu, shortcut}
    && after[bundle] == copy && after[menu] == entry && after[shortcut] == entry
    && (forall p :: p in before && p != bundle && p != menu && p != shortcut ==> after[p] == before[p])
  }

  /** The effect of a successful install of `filePath`, in the terms the
      installer promises: the registry maps the derived name to the copied
      bundle (replacing any earlier record of that name), the bundle is an
      executable copy, and the same executable entry text is in the menu
      directory and on the desktop; nothing else changes. */
  ghost predicate InstallEffect(before: Snapshot, after: Snapshot, home: string, cwd: string,
                                filePath: string, now: string)
    requires filePath in before.files
  {
    var name := AppName(filePath);
    var bundle := BundlePath(home, Basename(filePath));
    && RecordSet(before.apps, after.apps, name, AppRecord(bundle, now))
    && FilesPlaced(before.files, after.files, bundle, File(before.files[filePath].content, true),
                   MenuEntryPath(home, name), ShortcutPath(home, name),
                   File(Render(name, bundle, IconPath(cwd)), true))
  }

  /** The three files a successful install writes: the executable copy of
      the bundle, then the executable menu entry, then the desktop shortcut
      copied from the menu entry. */
  function Placed(files: Files, bundle: string, copy: File, menu: string, shortcut: string, entry: File): (r: Files)
    requires bundle != menu && bundle != shortcut && menu != shortcut
    ensures FilesPlaced(files, r, bundle, copy, menu, shortcut, entry)
  {
    files[bundle := copy][menu := entry][shortcut := entry]
  }

  /** The state after a successful install of `filePath`. */
  function Deployed(s: Snapshot, home: string, cwd: string, filePath: string, now: string): (after: Snapshot)
    requires filePath in s.files && BundlePath(home, Basename(filePath)) != filePath
    ensures InstallEffect(s, after, home, cwd, filePath, now)
  {
    var fileName := Basename(filePath);
    var name := Stem(fileName);
    var bundle := BundlePath(home, fileName);
    NoSlashRelative(fileName);
    NoSlashRelative(name);
    BundlePathDistinct(home, fileName, name);
    EntryPathsDistinct(home, name, name);
    var entry := File(Render(name, bundle, IconPath(cwd)), true);
    var files := Placed(s.files, bundle, File(s.files[filePath].content, true),
                        MenuEntryPath(home, name), JoinedShortcutPath(home, name), entry);
    Snapshot(Upsert(s.apps, name, AppRecord(bundle, now)), files)
  }

  /** `Deployed` spelled out: the record and the three files, written in the
      order the installer writes them. */
  lemma DeployedSteps(s: Snapshot, home: string, cwd: string, filePath: string, now: string)
    requires filePath in s.files && BundlePath(home, Basename(filePath)) != filePath
    ensures var name, bundle := Stem(Basename(filePath)), BundlePath(home, Basename(filePath));
            var entry := File(Render(name, bundle, IconPath(cwd)), true);
            Deployed(s, home, cwd, filePath, now) ==
              Snapshot(Upsert(s.apps, name, AppRecord(bundle, now)),
                       s.files[bundle := File(s.files[filePath].content, true)]
                              [MenuEntryPath(home, name) := entry][JoinedShortcutPath(home, name) := entry])
  {
  }

  /** `install_appimage(file_path)`. A file that does not exist makes the
      type check raise; a file already at its target path makes the copy
      raise (`shutil.SameFileError`); neither changes anything. */
  function Install(s: Snapshot, home: string, cwd: string, filePath: string,
                   description: string, now: string): (r: InstallStep)
    ensures r.outcome.Installed? <==>
              filePath in s.files && IsExecutableType(description) &&
              BundlePath(home, Basename(filePath)) != filePath
    ensures !r.outcome.Installed? ==> r.after == s
    ensures filePath in s.files && !IsExecutableType(description) ==> r.outcome == NotExecutable
    ensures filePath !in s.files ||
            (IsExecutableType(description) && BundlePath(home, Basename(filePath)) == filePath) ==>
              r.outcome == Failed
    ensures r.outcome.Installed? ==>
              r.outcome.name == AppName(filePath) &&
              InstallEffect(s, r.after, home, cwd, filePath, now)
  {
    if filePath !in s.files then InstallStep(Failed, s)
    else if !IsExecutableType(description) then InstallStep(NotExecutable, s)
    else if BundlePath(home, Basename(filePath)) == filePath then InstallStep(Failed, s)
    else InstallStep(Installed(AppName(filePath)), Deployed(s, home, cwd, filePath, now))
  }

  // ----------------------------------------------------------------- rename

  /** The rename takes place: the selected name is registered, the dialog
      was accepted, and the new name is non-empty and different. */
  predicate RenameApplies(apps: Apps, oldName: string, accepted: bool, newName: string)
  {
    oldName in apps && accepted && newName != [] && newName != oldName
  }

  /** The entry at `src` has been moved to `dst` with its `Name=` rewritten:
      `src` is gone; if it existed, `dst` holds its rewritten text (keeping
      the mode `dst` had, if any); if it did not, `dst` is as before. */
  ghost predicate EntryMoved(before: Files, after: Files, src: string, dst: string,
                             oldName: string, newName: string)
  {
    && src !in after
    && (src in before ==>
          dst in after &&
          after[dst] == File(RenameInEntry(before[src].content, oldName, newName),
                             dst in before && before[dst].executable))
    && (src !in before ==> (dst in after <==> dst in before) && (dst in before ==> after[dst] == before[dst]))
  }

  /** One `if os.path.exists(src)` block of `edit_selected_app`: read `src`,
      replace the name, write `dst`, remove `src`. */
  function MovedEntry(files: Files, src: string, dst: string, oldName: string, newName: string): (moved: Files)
    ensures src != dst ==> EntryMoved(files, moved, src, dst, oldName, newName)
    ensures src == dst ==> moved.Keys == files.Keys - {src}
    ensures forall p :: p != src && p != dst ==> (p in moved <==> p in files)
    ensures forall p :: p in moved && p != src && p != dst ==> moved[p] == files[p]
  {
    if src in files then Written(files, dst, RenameInEntry(files[src].content, oldName, newName)) - {src}
    else files
  }

  /** The rename part of `edit_selected_app`. */
  function Rename(s: Snapshot, home: string, oldName: string, accepted: bool, newName: string): (r: Snapshot)
    ensures !RenameApplies(s.apps, oldName, accepted, newName) ==> r == s
    ensures RenameApplies(s.apps, oldName, accepted, newName) ==>
              r.apps == MoveKey(s.apps, oldName, newName)
    ensures RenameApplies(s.apps, oldName, accepted, newName) && Relative(oldName) && Relative(newName) ==>
              var oldCut, newCut := ShortcutPath(home, oldName), ShortcutPath(home, newName);
              var oldMenu, newMenu := MenuEntryPath(home, oldName), MenuEntryPath(home, newName);
              && EntryMoved(s.files, r.files, oldCut, newCut, oldName, newName)
              && EntryMoved(s.files, r.files, oldMenu, newMenu, oldName, newName)
              && (forall p :: p != oldCut && p != newCut && p != oldMenu && p != newMenu ==>
                    (p in r.files <==> p in s.files) && (p in r.files ==> r.files[p] == s.files[p]))
  {
    if !RenameApplies(s.apps, oldName, accepted, newName) then s
    else
      var oldCut, newCut := ShortcutPath(home, oldName), ShortcutPath(home, newName);
      var oldMenu, newMenu := MenuEntryPath(home, oldName), MenuEntryPath(home, newName);
      var files := MovedEntry(MovedEntry(s.files, oldCut, newCut, oldName, newName),
                              oldMenu, newMenu, oldName, newName);
      EntryPathsApart(home, oldName, newName);
      Snapshot(MoveKey(s.apps, oldName, newName), files)
  }

  /** The guard is exactly what decides whether the registry changes. */
  lemma RenameChangesRegistry(s: Snapshot, home: string, oldName: string, accepted: bool, newName: string)
    ensures Rename(s, home, oldName, accepted, newName).apps != s.apps <==>
            RenameApplies(s.apps, oldName, accepted, newName)
  {
    if RenameApplies(s.apps, oldName, accepted, newName) {
      assert oldName !in Rename(s, home, oldName, accepted, newName).apps;
    }
  }

  // ----------------------------------------------------------------- remove

  /** `remove_selected_app`: once confirmed, a registered application loses
      its bundle, its desktop shortcut and its menu entry (whichever of them
      exist) and its registry record; everything else stays. */
  function Remove(s: Snapshot, home: string, name: string, confirmed: bool): (r: Snapshot)
    ensures !(confirmed && name in s.apps) ==> r == s
    ensures confirmed && name in s.apps ==>
              && r.apps.Keys == s.apps.Keys - {name}
              && (forall k :: k in r.apps ==> r.apps[k] == s.apps[k])
              && (forall p :: p in r.files <==>
                    p in s.files && p != s.apps[name].path && p != ShortcutPath(home, name) &&
                    p != MenuEntryPath(home, name))
              && (forall p :: p in r.files ==> r.files[p] == s.files[p])
  {
    if confirmed && name in s.apps then
      Snapshot(s.apps - {name}, s.files - {s.apps[name].path, ShortcutPath(home, name), MenuEntryPath(home, name)})
    else s
  }

  // -------------------------------------------------------------- lifecycle

  /** Removing the three placed paths from a map that had none of them
      gives the map back. */
  lemma PlacedThenDropped(before: Files, after: Files, bundle: string, copy: File,
                          menu: string, shortcut: string, entry: File)
    requires FilesPlaced(before, after, bundle, copy, menu, shortcut, entry)
    requires bundle !in before && menu !in before && shortcut !in before
    ensures after - {bundle, shortcut, menu} == before
  {
    var dropped := after - {bundle, shortcut, menu};
    assert dropped.Keys == before.Keys;
  }

  /** A path that was absent and is none of the three placed ones is still
      absent. */
  lemma StillAbsent(before: Files, after: Files, bundle: string, copy: File,
                    menu: string, shortcut: string, entry: File, p: string)
    requires FilesPlaced(before, after, bundle, copy, menu, shortcut, entry)
    requires p !in before && p != bundle && p != menu && p != shortcut
    ensures p !in after
  {
  }

  /** Installing a new application and then removing it restores the
      registry and every file, provided none of the three files it writes
      existed before. */
  lemma InstallThenRemove(s: Snapshot, home: string, cwd: string, filePath: string,
                          description: string, now: string)
    requires Install(s, home, cwd, filePath, description, now).outcome.Installed?
    requires AppName(filePath) !in s.apps
    requires BundlePath(home, Basename(filePath)) !in s.files
    requires MenuEntryPath(home, AppName(filePath)) !in s.files
    requires ShortcutPath(home, AppName(filePath)) !in s.files
    ensures Remove(Install(s, home, cwd, filePath, description, now).after, home, AppName(filePath), true) == s
  {
    var after := Install(s, home, cwd, filePath, description, now).after;
    var name := AppName(filePath);
    var bundle := BundlePath(home, Basename(filePath));
    var entry := File(Render(name, bundle, IconPath(cwd)), true);
    UpsertThenDelete(s.apps, after.apps, name, AppRecord(bundle, now));
    PlacedThenDropped(s.files, after.files, bundle, File(s.files[filePath].content, true),
                      MenuEntryPath(home, name), ShortcutPath(home, name), entry);
    assert after.apps[name].path == bundle;
  }

  /** Installing a file twice leaves one record for its name. */
  lemma InstallTwice(s: Snapshot, home: string, cwd: string, filePath: string,
                     description: string, now1: string, now2: string)
    requires Install(s, home, cwd, filePath, description, now1).outcome.Installed?
    ensures var once := Install(s, home, cwd, filePath, description, now1).after;
            var twice := Install(once, home, cwd, filePath, description, now2);
            && twice.outcome.Installed?
            && twice.after.apps.Keys == s.apps.Keys + {AppName(filePath)}
            && twice.after.apps[AppName(filePath)].installDate == now2
  {
    var once := Install(s, home, cwd, filePath, description, now1).after;
    assert filePath in once.files;
  }

  /** Renaming `a` to a free name `b` and back restores the registry and
      leaves no entry under `b`; `a` ends with an entry in a location exactly
      when it had one there before or a stale entry for `b` was there. */
  lemma RenameThereAndBack(s: Snapshot, home: string, a: string, b: string)
    requires a in s.apps && b !in s.apps && a != b && a != [] && b != []
    requires Relative(a) && Relative(b)
    ensures var back := Rename(Rename(s, home, a, true, b), home, b, true, a);
            && back.apps == s.apps
            && ShortcutPath(home, b) !in back.files
            && MenuEntryPath(home, b) !in back.files
            && (ShortcutPath(home, a) in back.files <==>
                  ShortcutPath(home, a) in s.files || ShortcutPath(home, b) in s.files)
            && (MenuEntryPath(home, a) in back.files <==>
                  MenuEntryPath(home, a) in s.files || MenuEntryPath(home, b) in s.files)
  {
    var there := Rename(s, home, a, true, b);
    MoveKeyBack(s.apps, a, b);
    assert RenameApplies(there.apps, b, true, a);
  }

  /** An entry install rendered for `a`, renamed to `b` and back, has its
      original text again (when neither name occurs, as `Name=<name>`, in the
      `Exec` or `Icon` value). */
  lemma RenameBackRestoresEntry(s: Snapshot, home: string, a: string, b: string, exec: string, icon: string)
    requires a in s.apps && b !in s.apps && a != b && a != [] && b != []
    requires Relative(a) && Relative(b) && '\n' !in a && '\n' !in b
    requires !Occurs(exec, "Name=" + a) && !Occurs(icon, "Name=" + a)
    requires !Occurs(exec, "Name=" + b) && !Occurs(icon, "Name=" + b)
    requires MenuEntryPath(home, a) in s.files && s.files[MenuEntryPath(home, a)].content == Render(a, exec, icon)
    ensures var back := Rename(Rename(s, home, a, true, b), home, b, true, a);
            MenuEntryPath(home, a) in back.files &&
            back.files[MenuEntryPath(home, a)].content == Render(a, exec, icon)
  {
    var there := Rename(s, home, a, true, b);
    assert RenameApplies(there.apps, b, true, a);
    RenameEntryBack(a, b, exec, icon);
  }

  /** A fresh install renamed from `a` to `b` leaves the entry rendered for
      `b` in both locations, no longer executable (the rewritten files are
      new files), as long as the bundle and icon paths do not contain
      `Name=a`. */
  lemma InstallThenRename(s: Snapshot, home: string, cwd: string, filePath: string,
                          description: string, now: string, b: string)
    requires Install(s, home, cwd, filePath, description, now).outcome.Installed?
    requires Relative(b) && b != [] && b != AppName(filePath)
    requires '\n' !in AppName(filePath)
    requires ShortcutPath(home, b) !in s.files && MenuEntryPath(home, b) !in s.files
    requires !Occurs(BundlePath(home, Basename(filePath)), "Name=" + AppName(filePath))
    requires !Occurs(IconPath(cwd), "Name=" + AppName(filePath))
    ensures var a := AppName(filePath);
            var renamed := Rename(Install(s, home, cwd, filePath, description, now).after, home, a, true, b);
            var entry := File(Render(b, BundlePath(home, Basename(filePath)), IconPath(cwd)), false);
            && ShortcutPath(home, b) in renamed.files && renamed.files[ShortcutPath(home, b)] == entry
            && MenuEntryPath(home, b) in renamed.files && renamed.files[MenuEntryPath(home, b)] == entry
            && ShortcutPath(home, a) !in renamed.files
            && MenuEntryPath(home, a) !in renamed.files
            && renamed.apps == MoveKey(Install(s, home, cwd, filePath, description, now).after.apps, a, b)
            && renamed.apps[b] == AppRecord(BundlePath(home, Basename(filePath)), now)
  {
    var a := AppName(filePath);
    var bundle := BundlePath(home, Basename(filePath));
    var icon := IconPath(cwd);
    var installed := Install(s, home, cwd, filePath, description, now).after;
    var renamed := Rename(installed, home, a, true, b);
    NoSlashRelative(a);
    NoSlashRelative(Basename(filePath));
    EntryPathsDistinct(home, a, b);
    EntryPathsDistinct(home, b, a);
    BundlePathDistinct(home, Basename(filePath), b);
    var cutA, cutB := ShortcutPath(home, a), ShortcutPath(home, b);
    var menuA, menuB := MenuEntryPath(home, a), MenuEntryPath(home, b);
    assert installed.files[cutA] == File(Render(a, bundle, icon), true);
    assert installed.files[menuA] == File(Render(a, bundle, icon), true);
    var placed := File(Render(a, bundle, icon), true);
    assert FilesPlaced(s.files, installed.files, bundle, File(s.files[filePath].content, true),
                       menuA, cutA, placed);
    StillAbsent(s.files, installed.files, bundle, File(s.files[filePath].content, true), menuA, cutA, placed, cutB);
    StillAbsent(s.files, installed.files, bundle, File(s.files[filePath].content, true), menuA, cutA, placed, menuB);
    assert RenameApplies(installed.apps, a, true, b);
    RenameFreshEntry(a, b, bundle, icon);
    assert renamed.files[cutB] == File(Render(b, bundle, icon), false);
    assert renamed.files[menuB] == File(Render(b, bundle, icon), false);
  }

  /** Three removals in a row remove the three paths together. */
  lemma DropThree(files: Files, a: string, b: string, c: string)
    ensures files - {a} - {b} - {c} == files - {a, b, c}
  {
    assert (files - {a} - {b} - {c}).Keys == (files - {a, b, c}).Keys;
  }

  // ------------------------------------------------------------ the window

  /** The window's state: the registry, the files it touches, what was last
      saved to `installed_apps.json`, and the list of names it shows. */
  class AppImageInstaller {
    const home: string
    const cwd: string
    var installedApps: Apps
    var files: Files
    var saved: StoredRegistry
    var shown: seq<string>

    /** The list shown is always the registry's names in sorted order. */
    ghost predicate Valid()
      reads this
    {
      IsListing(shown, installedApps.Keys)
    }

    function State(): Snapshot
      reads this`installedApps, this`files
    {
      Snapshot(installedApps, files)
    }

    /** `__init__`: start from an empty registry, load the stored one and
        fill the list. */
    constructor (home: string, cwd: string, stored: StoredRegistry, files: Files)
      ensures Valid()
      ensures this.home == home && this.cwd == cwd && this.files == files && saved == stored
      ensures stored.Stored? ==> installedApps == stored.apps
      ensures !stored.Stored? ==> installedApps == map[]
    {
      this.home := home;
      this.cwd := cwd;
      this.files := files;
      saved := stored;
      installedApps := map[];
      shown := [];
      new;
      LoadInstalledApps(stored);
      UpdateAppList();
    }

    /** `load_installed_apps`: a decoded registry replaces the current one,
        a file that cannot be read or decoded empties it, and a missing file
        leaves it as it was. */
    method LoadInstalledApps(stored: StoredRegistry)
      modifies this`installedApps
      ensures stored.Stored? ==> installedApps == stored.apps
      ensures stored.Unreadable? ==> installedApps == map[]
      ensures stored.Missing? ==> installedApps == old(installedApps)
    {
      match stored
      case Stored(apps) => installedApps := apps;
      case Unreadable => installedApps := map[];
      case Missing =>
    }

    /** `save_installed_apps`. */
    method SaveInstalledApps()
      modifies this`saved
      ensures saved == Stored(installedApps)
    {
      saved := Stored(installedApps);
    }

    /** `update_app_list`. */
    method UpdateAppList()
      modifies this`shown
      ensures Valid()
    {
      shown := SortedNames(installedApps.Keys);
    }

    /** The file steps of `install_appimage`: copy the bundle and make it
        executable, write the menu entry and make it executable, copy it to
        the desktop and make that executable. */
    method PlaceFiles(source: string, bundle: string, menu: string, shortcut: string, content: string)
      requires source in files
      modifies this`files
      ensures files == old(files)[bundle := File(old(files)[source].content, true)]
                                 [menu := File(content, true)][shortcut := File(content, true)]
    {
      files := files[bundle := File(files[source].content, true)];
      files := Written(files, menu, content);
      files := files[menu := File(files[menu].content, true)];
      files := files[shortcut := File(files[menu].content, files[menu].executable)];
      files := files[shortcut := File(files[shortcut].content, true)];
    }

    /** The steps of `install_appimage` after its checks: place the files
        and record the application. */
    method Deploy(filePath: string, now: string)
      requires filePath in files && BundlePath(home, Basename(filePath)) != filePath
      modifies this`files, this`installedApps
      ensures State() == Deployed(old(State()), home, cwd, filePath, now)
    {
      DeployedSteps(State(), home, cwd, filePath, now);
      var fileName := Basename(filePath);
      var appName := Stem(fileName);
      var targetPath := BundlePath(home, fileName);
      var content := Render(appName, targetPath, IconPath(cwd));
      var desktopFilePath := MenuEntryPath(home, appName);
      var desktopShortcut := JoinedShortcutPath(home, appName);
      PlaceFiles(filePath, targetPath, desktopFilePath, desktopShortcut, content);
      installedApps := Upsert(installedApps, appName, AppRecord(targetPath, now));
    }

    method InstallAppImage(filePath: string, description: string, now: string) returns (outcome: InstallOutcome)
      requires Valid()
      modifies this
      ensures Valid()
      ensures InstallStep(outcome, State()) == Install(old(State()), home, cwd, filePath, description, now)
      ensures saved == if outcome.Installed? then Stored(installedApps) else old(saved)
    {
      if filePath !in files {
        return Failed;
      }
      if !IsExecutableType(description) {
        return NotExecutable;
      }
      if BundlePath(home, Basename(filePath)) == filePath {
        return Failed;
      }
      Deploy(filePath, now);
      SaveInstalledApps();
      UpdateAppList();
      outcome := Installed(Stem(Basename(filePath)));
    }

    /** One `if os.path.exists(src)` block of `edit_selected_app`. */
    method MoveEntry(src: string, dst: string, oldName: string, newName: string)
      modifies this`files
      ensures files == MovedEntry(old(files), src, dst, oldName, newName)
    {
      if src in files {
        var content := files[src].content;
        content := RenameInEntry(content, oldName, newName);
        files := Written(files, dst, content);
        files := files - {src};
      }
    }

    /** The rename part of `edit_selected_app`, given what the dialog
        returned. */
    method EditSelectedApp(appName: string, accepted: bool, newName: string) returns (renamed: bool)
      requires Valid()
      modifies this
      ensures Valid()
      ensures renamed == RenameApplies(old(installedApps), appName, accepted, newName)
      ensures State() == Rename(old(State()), home, appName, accepted, newName)
      ensures saved == if renamed then Stored(installedApps) else old(saved)
    {
      if appName !in installedApps || !accepted {
        return false;
      }
      if newName == [] || newName == appName {
        return false;
      }
      MoveEntry(ShortcutPath(home, appName), ShortcutPath(home, newName), appName, newName);
      MoveEntry(MenuEntryPath(home, appName), MenuEntryPath(home, newName), appName, newName);
      var info := installedApps[appName];
      installedApps := installedApps - {appName};
      installedApps := installedApps[newName := info];
      SaveInstalledApps();
      UpdateAppList();
      renamed := true;
    }

    /** `if os.path.exists(path): os.remove(path)`. */
    method DeleteIfExists(path: string)
      modifies this`files
      ensures files == old(files) - {path}
    {
      if path in files {
        files := files - {path};
      }
    }

    /** `remove_selected_app`, given the answer to the confirmation. */
    method RemoveSelectedApp(appName: string, confirmed: bool) returns (removed: bool)
      requires Valid()
      modifies this
      ensures Valid()
      ensures removed == (confirmed && appName in old(installedApps))
      ensures State() == Remove(old(State()), home, appName, confirmed)
      ensures saved == if removed then Stored(installedApps) else old(saved)
    {
      if !confirmed || appName !in installedApps {
        return false;
      }
      var appInfo := installedApps[appName];
      DeleteIfExists(appInfo.path);
      DeleteIfExists(ShortcutPath(home, appName));
      DeleteIfExists(MenuEntryPath(home, appName));
      DropThree(old(files), appInfo.path, ShortcutPath(home, appName), MenuEntryPath(home, appName));
      installedApps := installedApps - {appName};
      SaveInstalledApps();
      UpdateAppList();
      removed := true;
    }
  }
}
