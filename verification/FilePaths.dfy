/** Paths of stored files: joining, extensions, and the directories derived from an md5. */
module FilePaths {
  import opened Lex

  /** `std::filesystem::path::operator/` on POSIX: an absolute right side replaces the left. */
  function Join(a: string, b: string): string {
    if b != "" && b[0] == '/' then b
    else if a == "" || a[|a| - 1] == '/' then a + b
    else a + "/" + b
  }

  /** `std::filesystem::path::parent_path`: the part before the last slash, itself without trailing slashes
      unless it is the root. */
  function Parent(p: string): string {
    var i := LastIndexOf(p, '/');
    if i < 0 then "" else
      var q := WithoutSlashes(p[..i]);
      if q == "" then p[..1] else q
  }

  function WithoutSlashes(p: string): string {
    if p != "" && p[|p| - 1] == '/' then WithoutSlashes(p[..|p| - 1]) else p
  }

  lemma ParentOf(p: string, name: string)
    requires p != "" && p[|p| - 1] != '/' && '/' !in name
    ensures Parent(p + "/" + name) == p && Parent("/" + name) == "/" && Parent(name) == ""
  {
    var top := "/" + name;
    assert top[0] == '/' && forall j :: 0 < j < |top| ==> top[j] == name[j - 1];
    assert LastIndexOf(top, '/') == 0 && top[..0] == "" && top[..1] == "/";
    assert LastIndexOf(name, '/') == -1;
    var s := p + "/" + name;
    assert s[|p|] == '/' && forall j :: |p| < j < |s| ==> s[j] == name[j - |p| - 1];
    assert LastIndexOf(s, '/') == |p| && s[..|p|] == p;
  }

  function LastIndexOf(s: string, c: char): (i: int)
    ensures -1 <= i < |s|
    ensures i >= 0 ==> s[i] == c
    ensures forall j :: i < j < |s| ==> s[j] != c
  {
    if s == "" then -1 else if s[|s| - 1] == c then |s| - 1 else LastIndexOf(s[..|s| - 1], c)
  }

  /** `std::filesystem::path::extension`: from the last dot of the last component, unless the component
      is "." or ".." or has no other dot than its first character. */
  function Extension(filename: string): (e: string)
    ensures IsExtension(e)
  {
    var name := NameOf(filename);
    var dot := LastIndexOf(name, '.');
    if name == ".." || dot <= 0 then "" else name[dot..]
  }

  /** Empty, or a dot followed by neither dots nor slashes. */
  predicate IsExtension(e: string) {
    e == "" || (e[0] == '.' && '.' !in e[1..] && '/' !in e)
  }

  /** The last component of a path. */
  function NameOf(filename: string): string {
    filename[LastIndexOf(filename, '/') + 1..]
  }

  lemma NameOfJoined(dir: string, name: string)
    requires '/' !in name
    ensures NameOf(dir + "/" + name) == name && NameOf(name) == name
  {
    var s := dir + "/" + name;
    assert s[|dir|] == '/' && forall j :: |dir| < j < |s| ==> s[j] == name[j - |dir| - 1];
    assert LastIndexOf(s, '/') == |dir|;
    assert s[|dir| + 1..] == name;
    assert LastIndexOf(name, '/') == -1 && name[0..] == name;
  }

  /** A stem, a dot and more: the dot and what follows it, with or without a directory in front; only the
      component ".." has none. */
  lemma ExtensionRead(dir: string, stem: string, e: string)
    requires stem != "" && '/' !in stem && '/' !in e && '.' !in e
    ensures var name := stem + "." + e;
            var ext := if stem == "." && e == "" then "" else "." + e;
            Extension(dir + "/" + name) == ext && Extension(name) == ext
  {
    hide NameOf, LastIndexOf;
    assert '/' !in stem + "." + e;
    NameOfJoined(dir, stem + "." + e);
    LastDot(stem, e);
  }

  lemma LastDot(stem: string, e: string)
    requires '.' !in e && stem != ""
    ensures var name := stem + "." + e;
            && LastIndexOf(name, '.') == |stem| && name[|stem|..] == "." + e
            && (name == ".." <==> stem == "." && e == "")
  {
    var name := stem + "." + e;
    assert name[|stem|] == '.' && forall j :: |stem| < j < |name| ==> name[j] == e[j - |stem| - 1];
    if name == ".." {
      assert |stem| == 1 && stem[0] == name[0];
      assert stem == ".";
    }
  }

  /** No dot, or a dot in first place only: no extension. */
  lemma NoExtension(dir: string, name: string)
    requires '/' !in name && forall i :: 0 < i < |name| ==> name[i] != '.'
    ensures Extension(dir + "/" + name) == "" && Extension(name) == ""
  {
    NameOfJoined(dir, name);
  }

  /** The file name that a hash can give: 32 characters, no slash, no dot, no colon. */
  predicate IsDigest(md5: string) {
    |md5| == 32 && '/' !in md5 && '.' !in md5 && ':' !in md5
  }

  /** The two-level directory of an md5; the source throws for fewer than four characters. */
  function Md5ToRelPath(md5: string): string
    requires |md5| >= 4
  {
    Join(Join(Join("", md5[..2]), md5[2..4]), md5)
  }

  /** The recorded path of an upload, relative to the root. */
  function RelPath(scene: string, md5: string, ext: string): string
    requires |md5| >= 4
  {
    Join(scene, Md5ToRelPath(md5) + ext)
  }

  /** Where an upload is written. */
  function AbsPath(root: string, scene: string, md5: string, ext: string): string
    requires |md5| >= 4
  {
    Join(Join(root, scene), Md5ToRelPath(md5) + ext)
  }

  lemma RelPathShape(md5: string, ext: string)
    requires IsDigest(md5)
    ensures Md5ToRelPath(md5) + ext == md5[..2] + "/" + md5[2..4] + "/" + md5 + ext
  {
    assert md5[0] in md5 && md5[2] in md5 && md5[1] in md5 && md5[3] in md5;
    assert md5[..2] != "" && md5[..2][0] == md5[0] && md5[2..4][0] == md5[2];
    assert Join("", md5[..2]) == "" + md5[..2] == md5[..2];
    var ab, cd := md5[..2], md5[2..4];
    assert Join(ab, cd) == ab + "/" + cd;
    var p := ab + "/" + cd;
    assert p[|p| - 1] == md5[3];
    assert Join(p, md5) == p + "/" + md5;
  }

  /** Where an upload goes: below the scene's directory under the root, except that an absolute scene
      replaces the root; and the path that is recorded. */
  lemma PathShape(root: string, scene: string, md5: string, ext: string)
    requires IsDigest(md5)
    ensures var tail := scene + Separator(scene) + (md5[..2] + "/" + md5[2..4] + "/" + md5 + ext);
            && RelPath(scene, md5, ext) == tail
            && AbsPath(root, scene, md5, ext) ==
               if scene != "" && scene[0] == '/' then tail else root + Separator(root) + tail
  {
    var rel := md5[..2] + "/" + md5[2..4] + "/" + md5 + ext;
    RelPathShape(md5, ext);
    assert rel[0] == md5[0] && md5[0] in md5;
    JoinRelative(scene, rel);
    hide Md5ToRelPath;
    JoinAssociates(root, scene, rel);
    if scene != "" && scene[0] == '/' {
      assert (scene + Separator(scene) + rel)[0] == '/';
    } else {
      assert scene + Separator(scene) + rel == "" + rel || (scene + Separator(scene) + rel)[0] == scene[0];
      assert "" + rel == rel;
      JoinRelative(root, scene + Separator(scene) + rel);
    }
  }

  /** A joined path ends in a slash followed by the file name. */
  lemma EndsInName(a: string, md5: string, ext: string) returns (dir: string)
    requires IsDigest(md5)
    ensures Join(a, Md5ToRelPath(md5) + ext) == dir + "/" + (md5 + ext)
  {
    hide Md5ToRelPath, Join;
    var ab := md5[..2] + "/" + md5[2..4];
    RelPathShape(md5, ext);
    assert md5[0] in md5;
    JoinRelative(a, Md5ToRelPath(md5) + ext);
    dir := a + Separator(a) + ab;
    Reassociate(a + Separator(a), md5[..2], md5[2..4], md5, ext);
  }

  lemma Reassociate(p: string, a: string, b: string, c: string, d: string)
    ensures p + (a + "/" + b + "/" + c + d) == p + (a + "/" + b) + "/" + (c + d)
  {
  }

  /** Generated paths determine the md5 and the extension, whatever the scenes are. */
  lemma PathsInjective(a: string, m1: string, e1: string, b: string, m2: string, e2: string)
    requires IsDigest(m1) && IsDigest(m2) && '/' !in e1 && '/' !in e2
    requires Join(a, Md5ToRelPath(m1) + e1) == Join(b, Md5ToRelPath(m2) + e2)
    ensures m1 == m2 && e1 == e2
  {
    hide Md5ToRelPath, Join;
    var d1 := EndsInName(a, m1, e1);
    var d2 := EndsInName(b, m2, e2);
    assert d1 + "/" + (m1 + e1) == d1 + ['/'] + (m1 + e1);
    assert d2 + "/" + (m2 + e2) == d2 + ['/'] + (m2 + e2);
    LastSeparator('/', d1, m1 + e1, d2, m2 + e2);
    assert (m1 + e1)[..32] == m1 && (m2 + e2)[..32] == m2;
    assert (m1 + e1)[32..] == e1 && (m2 + e2)[32..] == e2;
  }

  /** A recorded path is longer than an md5, so a lookup by path is never taken for one by md5. */
  lemma RelPathLong(scene: string, md5: string, ext: string)
    requires IsDigest(md5)
    ensures |RelPath(scene, md5, ext)| > 32
  {
    RelPathShape(md5, ext);
  }

  /** The recorded path, read under the root, is where the file was written. */
  lemma RecordedPathReads(root: string, scene: string, md5: string, ext: string)
    requires IsDigest(md5)
    ensures Join(root, RelPath(scene, md5, ext)) == AbsPath(root, scene, md5, ext)
  {
    RelPathShape(md5, ext);
    var rel := Md5ToRelPath(md5) + ext;
    assert rel[0] == md5[0] && md5[0] in md5;
    hide Md5ToRelPath;
    JoinAssociates(root, scene, rel);
  }

  lemma JoinAssociates(a: string, b: string, c: string)
    requires c != "" && c[0] != '/'
    ensures Join(a, Join(b, c)) == Join(Join(a, b), c)
  {
    hide Join, Separator;
    if b == "" {
      JoinEmpty(a, c);
    } else if b[0] == '/' {
      JoinAbsolute(a, b, c);
    } else {
      JoinRelative(a, b);
      JoinRelative(b, c);
      JoinRelative(a, b + Separator(b) + c);
      JoinRelative(Join(a, b), c);
      SameSeparator(a + Separator(a), b);
      assert a + Separator(a) + (b + Separator(b) + c) == a + Separator(a) + b + Separator(b) + c;
    }
  }

  lemma JoinEmpty(a: string, c: string)
    requires c != "" && c[0] != '/'
    ensures Join("", c) == c && Join(Join(a, ""), c) == Join(a, c)
  {
    assert "" + c == c && a + "" == a && a + "/" + "" == a + "/";
  }

  lemma JoinAbsolute(a: string, b: string, c: string)
    requires b != "" && b[0] == '/' && c != "" && c[0] != '/'
    ensures Join(a, Join(b, c)) == Join(Join(a, b), c)
  {
  }

  lemma SameSeparator(a: string, b: string)
    requires b != ""
    ensures Separator(a + b) == Separator(b)
  {
  }

  function Separator(a: string): string {
    if a == "" || a[|a| - 1] == '/' then "" else "/"
  }

  lemma JoinRelative(a: string, b: string)
    requires b == "" || b[0] != '/'
    ensures Join(a, b) == a + Separator(a) + b
  {
    assert a + "" == a;
  }

  /** The temporary name of a write. */
  function TempPath(path: string, suffix: string): string {
    path + ".tmp." + suffix
  }

  /** A temporary name is never a generated path, since an extension has one dot only. */
  lemma TempIsNoPath(a: string, m1: string, e1: string, suffix: string, b: string, m2: string, e2: string)
    requires IsDigest(m1) && IsDigest(m2) && IsExtension(e1) && IsExtension(e2) && '/' !in suffix
    ensures TempPath(Join(a, Md5ToRelPath(m1) + e1), suffix) != Join(b, Md5ToRelPath(m2) + e2)
  {
    hide Md5ToRelPath, Join;
    var long := e1 + ".tmp." + suffix;
    LongIsNoExtension(e1, suffix);
    TempJoins(a, m1, e1, suffix);
    if Join(a, Md5ToRelPath(m1) + long) == Join(b, Md5ToRelPath(m2) + e2) {
      PathsInjective(a, m1, long, b, m2, e2);
    }
  }

  lemma LongIsNoExtension(e: string, suffix: string)
    requires IsExtension(e) && '/' !in suffix
    ensures var long := e + ".tmp." + suffix; !IsExtension(long) && '/' !in long
  {
    var long := e + ".tmp." + suffix;
    assert long[1..][|e| + 3] == long[|e| + 4] == '.';
    assert '/' !in e && '/' !in ".tmp.";
  }

  lemma TempJoins(a: string, md5: string, e: string, suffix: string)
    requires IsDigest(md5)
    ensures TempPath(Join(a, Md5ToRelPath(md5) + e), suffix) == Join(a, Md5ToRelPath(md5) + (e + ".tmp." + suffix))
  {
    hide Md5ToRelPath, Join;
    RelPathShape(md5, e);
    var rel, tail := Md5ToRelPath(md5) + e, ".tmp." + suffix;
    assert Md5ToRelPath(md5) + (e + ".tmp." + suffix) == rel + tail;
    assert TempPath(Join(a, rel), suffix) == Join(a, rel) + tail by { TempIsAppended(Join(a, rel), suffix); }
    JoinAppends(a, rel, tail);
  }

  lemma TempIsAppended(path: string, suffix: string)
    ensures TempPath(path, suffix) == path + (".tmp." + suffix)
  {
  }

  lemma JoinAppends(a: string, b: string, c: string)
    requires b != ""
    ensures Join(a, b) + c == Join(a, b + c)
  {
    assert a + b + c == a + (b + c);
    assert a + "/" + b + c == a + "/" + (b + c);
  }
}
