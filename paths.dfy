/** The POSIX path helpers the installer calls (`os.path.basename`,
    `os.path.splitext`, `os.path.join`) and the fixed per-user locations it
    writes to. `home` is what `os.path.expanduser` puts in place of `~`. */
module Paths {
  import opened Text

  /** `os.path.basename`: everything after the last `/`. */
  function Basename(path: string): (name: string)
    ensures '/' !in name
    ensures |name| <= |path| && path[|path| - |name|..] == name
    ensures |name| < |path| ==> path[|path| - |name| - 1] == '/'
  {
    path[LastIndexOf(path, '/') + 1..]
  }

  /** The basename of a path that ends in `/name` is `name`. */
  lemma BasenameAfterSlash(dir: string, name: string)
    requires '/' !in name
    ensures Basename(dir + "/" + name) == name
  {
    var path := dir + "/" + name;
    var b := Basename(path);
    assert path[|dir|] == '/';
    assert forall i :: |dir| < i < |path| ==> path[i] == name[i - |dir| - 1];
    assert path[|path| - |name|..] == name;
  }

  predicate HasNonDot(s: string)
  {
    exists i | 0 <= i < |s| :: s[i] != '.'
  }

  /** `os.path.splitext(name)[0]` for a name without `/`: the part before the
      last dot, unless every character before that dot is itself a dot (a
      leading dot starts a hidden file's name, not an extension). */
  function Stem(name: string): (stem: string)
    ensures stem <= name
    ensures stem != name ==> name[|stem|] == '.' && '.' !in name[|stem| + 1..] && HasNonDot(stem)
    ensures stem == name ==> forall i :: 0 <= i < |name| && name[i] != '.' ==> '.' !in name[i + 1..]
  {
    var dot := LastIndexOf(name, '.');
    if dot > 0 && HasNonDot(name[..dot]) then name[..dot] else name
  }

  /** Only the last extension is removed, and only when the stem has a
      character other than a dot. */
  lemma StemDropsLastExtension(base: string, ext: string)
    requires '.' !in ext && HasNonDot(base)
    ensures Stem(base + "." + ext) == base
  {
    var name := base + "." + ext;
    var stem := Stem(name);
    assert name[|base|] == '.';
    assert forall i :: |base| < i < |name| ==> name[i] == ext[i - |base| - 1];
    var k :| 0 <= k < |base| && base[k] != '.';
    assert name[k] != '.';
    assert name[..|base|] == base;
  }

  /** A name made only of dots before its one dot is kept whole. */
  lemma StemKeepsDotfile(dots: string, rest: string)
    requires forall i :: 0 <= i < |dots| ==> dots[i] == '.'
    requires '.' !in rest
    ensures Stem(dots + rest) == dots + rest
  {
  }

  /** The application name `install_appimage` derives from a chosen file. */
  function AppName(filePath: string): (name: string)
    ensures '/' !in name
  {
    Stem(Basename(filePath))
  }

  /** The name of `dir/base.ext` is `base`. */
  lemma AppNameOfPath(dir: string, base: string, ext: string)
    requires '/' !in base && '/' !in ext && '.' !in ext && HasNonDot(base)
    ensures AppName(dir + "/" + base + "." + ext) == base
  {
    var file := base + "." + ext;
    assert '/' !in file;
    assert dir + "/" + base + "." + ext == dir + "/" + file;
    BasenameAfterSlash(dir, file);
    StemDropsLastExtension(base, ext);
  }

  /** `os.path.join(dir, rest)` with two arguments. */
  function Join(dir: string, rest: string): string
  {
    if rest != [] && rest[0] == '/' then rest
    else if dir == [] || dir[|dir| - 1] == '/' then dir + rest
    else dir + "/" + rest
  }

  /** The joined path always ends with `rest`; an absolute `rest` replaces
      `dir`; otherwise `dir` comes first, and a `/` separates a non-empty
      `dir` from `rest`. */
  lemma JoinShape(dir: string, rest: string)
    ensures var path := Join(dir, rest);
            && |rest| <= |path| && path[|path| - |rest|..] == rest
            && (!Relative(rest) ==> path == rest)
            && (Relative(rest) ==> dir <= path)
            && (Relative(rest) && dir != [] ==> |path| > |rest| && path[|path| - |rest| - 1] == '/')
  {
  }

  /** A name that `os.path.join` appends rather than letting it replace the
      directory. */
  predicate Relative(name: string)
  {
    name == [] || name[0] != '/'
  }

  /** A name without `/` is appended by `os.path.join`. */
  lemma NoSlashRelative(name: string)
    requires '/' !in name
    ensures Relative(name)
  {
    if name != [] {
      assert name[0] in name;
    }
  }

  function AppsDir(home: string): string { home + "/.local/share/applications" }

  function AppImagesDir(home: string): string { home + "/.local/share/appimages" }

  function DesktopDir(home: string): string { home + "/Desktop" }

  /** Where the menu entry of `name` lives (`os.path.join(apps_dir, ...)`):
      `<home>/.local/share/applications/<name>.desktop` for a relative name. */
  function MenuEntryPath(home: string, name: string): (path: string)
    ensures Relative(name) ==> path == home + "/.local/share/applications/" + name + ".desktop"
  {
    assert Relative(name) ==> Relative(name + ".desktop");
    Join(AppsDir(home), name + ".desktop")
  }

  /** Where edit and remove look for the desktop shortcut of `name`
      (`expanduser(f"~/Desktop/{name}.desktop")`). */
  function ShortcutPath(home: string, name: string): string
  {
    home + "/Desktop/" + name + ".desktop"
  }

  /** Where install writes the desktop shortcut (`os.path.join(desktop_dir, ...)`);
      for a relative name it is the one edit and remove look at. */
  function JoinedShortcutPath(home: string, name: string): (path: string)
    ensures Relative(name) ==> path == ShortcutPath(home, name)
  {
    assert Relative(name) ==> Relative(name + ".desktop");
    Join(DesktopDir(home), name + ".desktop")
  }

  /** Where the copied bundle lives: `<home>/.local/share/appimages/<file>`
      for a relative file name. */
  function BundlePath(home: string, fileName: string): (path: string)
    ensures Relative(fileName) ==> path == home + "/.local/share/appimages/" + fileName
  {
    Join(AppImagesDir(home), fileName)
  }

  /** `os.path.abspath("app_icon.png")` for an absolute, normalised `cwd`. */
  function IconPath(cwd: string): string
  {
    Join(cwd, "app_icon.png")
  }

  /** The icon path is the file `app_icon.png` inside `cwd`. */
  lemma IconPathShape(cwd: string)
    ensures var path := IconPath(cwd);
            && cwd <= path
            && |path| >= |"app_icon.png"| && path[|path| - |"app_icon.png"|..] == "app_icon.png"
            && (cwd != [] ==> |path| > |"app_icon.png"| && path[|path| - |"app_icon.png"| - 1] == '/')
  {
    JoinShape(cwd, "app_icon.png");
  }

  /** The menu entry and the shortcut never share a path, and different
      names get different paths in each location. */
  lemma EntryPathsDistinct(home: string, a: string, b: string)
    requires Relative(a) && Relative(b)
    ensures MenuEntryPath(home, a) != ShortcutPath(home, b)
    ensures a != b ==> MenuEntryPath(home, a) != MenuEntryPath(home, b)
    ensures a != b ==> ShortcutPath(home, a) != ShortcutPath(home, b)
  {
    var menuA, menuB := MenuEntryPath(home, a), MenuEntryPath(home, b);
    var cutA, cutB := ShortcutPath(home, a), ShortcutPath(home, b);
    assert menuA[|home| + 1] == '.' && cutB[|home| + 1] == 'D';
    var m := |home + "/.local/share/applications/"|;
    if menuA == menuB {
      assert menuA[m..m + |a|] == a;
      assert menuB[m..m + |b|] == b;
    }
    var d := |home + "/Desktop/"|;
    if cutA == cutB {
      assert cutA[d..d + |a|] == a;
      assert cutB[d..d + |b|] == b;
    }
  }

  /** The copied bundle never shares a path with a desktop entry. */
  lemma BundlePathDistinct(home: string, fileName: string, name: string)
    requires Relative(fileName) && Relative(name)
    ensures BundlePath(home, fileName) != MenuEntryPath(home, name)
    ensures BundlePath(home, fileName) != ShortcutPath(home, name)
  {
    var bundle, menu, cut := BundlePath(home, fileName), MenuEntryPath(home, name), ShortcutPath(home, name);
    assert bundle[|home| + 17] == 'i' && menu[|home| + 17] == 'l';
    assert bundle[|home| + 1] == '.' && cut[|home| + 1] == 'D';
  }

  /** EntryPathsDistinct both ways round, for any two names that are both
      relative. */
  lemma EntryPathsApart(home: string, a: string, b: string)
    ensures Relative(a) && Relative(b) ==>
              && MenuEntryPath(home, a) != ShortcutPath(home, b)
              && MenuEntryPath(home, b) != ShortcutPath(home, a)
              && (a != b ==> MenuEntryPath(home, a) != MenuEntryPath(home, b))
              && (a != b ==> ShortcutPath(home, a) != ShortcutPath(home, b))
  {
    if Relative(a) && Relative(b) {
      EntryPathsDistinct(home, a, b);
      EntryPathsDistinct(home, b, a);
    }
  }
}
