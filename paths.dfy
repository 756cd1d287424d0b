/** File names of the copies that the persistence guard writes next to a project
    file: `<dir>/<name>-autosave.ustx` for the periodic autosave and
    `<dir>/<name>-backup.ustx` for the crash backup. Paths use '/' as their only
    separator, as .NET's Path functions do on Unix. */
module Paths {

  const Separator: char := '/'
  const ExtensionDot: char := '.'
  const ExtensionName: string := "ustx"
  const Extension: string := [ExtensionDot] + ExtensionName
  const AutosaveTag: string := "-autosave"
  const BackupTag: string := "-backup"

  /** String.LastIndexOf: the position of the last c in s, or -1 when there is none. */
  function LastIndexOf(s: string, c: char): (r: int)
    ensures -1 <= r < |s|
    ensures r >= 0 ==> s[r] == c
    ensures forall k :: r < k < |s| ==> s[k] != c
  {
    if s == [] then -1
    else if s[|s| - 1] == c then |s| - 1
    else LastIndexOf(s[..|s| - 1], c)
  }

  /** Path.GetDirectoryName: what precedes the last separator; the root when that
      separator is the first character; empty when there is no separator. */
  function DirectoryName(p: string): string
  {
    var i := LastIndexOf(p, Separator);
    if i < 0 then "" else if i == 0 then [Separator] else p[..i]
  }

  /** Path.GetFileName: what follows the last separator. */
  function FileName(p: string): string
  {
    p[LastIndexOf(p, Separator) + 1..]
  }

  /** Path.GetFileNameWithoutExtension: the file name up to its last dot. */
  function FileNameWithoutExtension(p: string): string
  {
    var f := FileName(p);
    var j := LastIndexOf(f, ExtensionDot);
    if j < 0 then f else f[..j]
  }

  /** Path.Join of two parts: a separator is inserted only when neither part
      supplies one at the seam, and an empty part contributes nothing. */
  function Join(a: string, b: string): string
  {
    if a == [] then b
    else if b == [] then a
    else if a[|a| - 1] == Separator || b[0] == Separator then a + b
    else a + [Separator] + b
  }

  /** The sibling of p named after p's base name followed by tag, with the
      project extension. */
  function SiblingPath(p: string, tag: string): string
  {
    Join(DirectoryName(p), FileNameWithoutExtension(p) + tag + Extension)
  }

  /** Where AutoSave writes. */
  function AutosavePath(p: string): string
  {
    SiblingPath(p, AutosaveTag)
  }

  /** Where CrashSave writes. */
  function BackupPath(p: string): string
  {
    SiblingPath(p, BackupTag)
  }

  /** The leading part of p up to and including its last separator. */
  function Folder(p: string): string
  {
    p[..LastIndexOf(p, Separator) + 1]
  }

  /** The separator that starts the file name is not doubled (".NET" would
      normalise "a//b"; the model does not). */
  predicate SingleSeparators(p: string)
  {
    var i := LastIndexOf(p, Separator);
    i > 0 ==> p[i - 1] != Separator
  }

  /** Appending text free of c does not move the last c. */
  lemma {:induction false} LastIndexOfAppend(a: string, b: string, c: char)
    requires c !in b
    ensures LastIndexOf(a + b, c) == LastIndexOf(a, c)
  {
    if b != [] {
      var b' := b[..|b| - 1];
      assert (a + b)[..|a + b| - 1] == a + b';
      LastIndexOfAppend(a, b', c);
    } else {
      assert a + b == a;
    }
  }

  /** Nothing after the last c is a c. */
  lemma TailAfterLast(s: string, c: char)
    ensures c !in s[LastIndexOf(s, c) + 1..]
  {
    var i := LastIndexOf(s, c);
    var t := s[i + 1..];
    forall k | 0 <= k < |t|
      ensures t[k] != c
    {
      assert t[k] == s[i + 1 + k];
    }
  }

  /** The file name holds no separator, and neither does its base name; the
      path is its folder followed by its file name. */
  lemma FileNameHasNoSeparator(p: string)
    ensures Separator !in FileName(p)
    ensures Separator !in FileNameWithoutExtension(p)
    ensures p == Folder(p) + FileName(p)
  {
    TailAfterLast(p, Separator);
    var f := FileName(p);
    var j := LastIndexOf(f, ExtensionDot);
    if j >= 0 {
      assert Separator !in f[..j] by {
        assert forall k | 0 <= k < j :: f[..j][k] == f[k];
      }
    }
  }

  /** Joining p's directory with a name that does not start with a separator
      puts the name right after p's last separator. */
  lemma JoinFolder(p: string, b: string)
    requires SingleSeparators(p)
    requires b != [] && b[0] != Separator
    ensures Join(DirectoryName(p), b) == Folder(p) + b
  {
    var i := LastIndexOf(p, Separator);
    if i > 0 {
      assert p[..i] + [Separator] == p[..i + 1];
    }
  }

  /** A name built from separator-free parts and the extension is not empty
      and does not start with a separator. */
  lemma NameHead(stem: string, tag: string)
    requires Separator !in stem && Separator !in tag
    ensures stem + tag + Extension != []
    ensures (stem + tag + Extension)[0] != Separator
  {
    var b := stem + tag + Extension;
    if stem != [] { assert b[0] == stem[0]; }
    else if tag != [] { assert b[0] == tag[0]; }
    else { assert b == Extension; }
  }

  /** The derived name is the original's folder, then its base name, the tag and
      the extension. */
  lemma SiblingPathShape(p: string, tag: string)
    requires SingleSeparators(p)
    requires Separator !in tag
    ensures SiblingPath(p, tag) == Folder(p) + FileNameWithoutExtension(p) + tag + Extension
  {
    FileNameHasNoSeparator(p);
    var stem := FileNameWithoutExtension(p);
    NameHead(stem, tag);
    JoinFolder(p, stem + tag + Extension);
  }

  /** Appending a separator-free name to p's folder keeps p's last separator. */
  lemma FolderAppend(p: string, x: string)
    requires Separator !in x
    ensures LastIndexOf(Folder(p) + x, Separator) == LastIndexOf(p, Separator)
    ensures FileName(Folder(p) + x) == x
  {
    LastIndexOfAppend(Folder(p), x, Separator);
    var i := LastIndexOf(p, Separator);
    assert LastIndexOf(Folder(p), Separator) == i;
  }

  /** The extension is a dot followed by a name without dots. */
  lemma ExtensionParts(w: string)
    ensures w + Extension == (w + [ExtensionDot]) + ExtensionName
    ensures ExtensionDot !in ExtensionName
  {
    assert ExtensionName == ['u', 's', 't', 'x'];
  }

  /** The last dot of a name that ends in a dot is that dot. */
  lemma EndsWithDot(w: string)
    ensures LastIndexOf(w + [ExtensionDot], ExtensionDot) == |w|
  {
    var front := w + [ExtensionDot];
    assert front[|front| - 1] == ExtensionDot;
  }

  /** Stripping the extension of a name that ends in ".ustx" leaves what came
      before it. */
  lemma StripExtension(w: string)
    ensures LastIndexOf(w + Extension, ExtensionDot) == |w|
    ensures (w + Extension)[..|w|] == w
  {
    ExtensionParts(w);
    EndsWithDot(w);
    LastIndexOfAppend(w + [ExtensionDot], ExtensionName, ExtensionDot);
  }

  /** The extension holds no separator. */
  lemma ExtensionHasNoSeparator()
    ensures Separator !in Extension
  {
    assert Extension == ['.', 'u', 's', 't', 'x'];
  }

  /** The derived name after the folder holds no separator. */
  lemma SiblingNameClean(p: string, tag: string)
    requires Separator !in tag
    ensures Separator !in FileNameWithoutExtension(p) + tag + Extension
  {
    FileNameHasNoSeparator(p);
    ExtensionHasNoSeparator();
  }

  /** The derived path is the folder followed by the derived name. */
  lemma SiblingName(p: string, tag: string)
    requires SingleSeparators(p)
    requires Separator !in tag
    ensures Separator !in FileNameWithoutExtension(p) + tag + Extension
    ensures SiblingPath(p, tag) == Folder(p) + (FileNameWithoutExtension(p) + tag + Extension)
  {
    SiblingNameClean(p, tag);
    SiblingPathShape(p, tag);
    var f, stem := Folder(p), FileNameWithoutExtension(p);
    assert f + stem + tag + Extension == f + (stem + tag + Extension);
  }

  /** The copy sits in the project's own directory. */
  lemma SiblingDirectory(p: string, tag: string)
    requires SingleSeparators(p)
    requires Separator !in tag
    ensures DirectoryName(SiblingPath(p, tag)) == DirectoryName(p)
  {
    var x := FileNameWithoutExtension(p) + tag + Extension;
    SiblingName(p, tag);
    FolderAppend(p, x);
    var i := LastIndexOf(p, Separator);
    if i > 0 {
      assert (Folder(p) + x)[..i] == p[..i];
    }
  }

  /** The copy's base name is the project's base name with the tag appended. */
  lemma SiblingBaseName(p: string, tag: string)
    requires SingleSeparators(p)
    requires Separator !in tag
    ensures FileNameWithoutExtension(SiblingPath(p, tag)) == FileNameWithoutExtension(p) + tag
  {
    var w := FileNameWithoutExtension(p) + tag;
    SiblingName(p, tag);
    FolderAppend(p, w + Extension);
    StripExtension(w);
  }

  /** The autosave and backup copies sit in the project's own directory, and
      their base names are the project's base name with the tag appended. */
  lemma SiblingPathIsSibling(p: string, tag: string)
    requires SingleSeparators(p)
    requires Separator !in tag
    ensures DirectoryName(SiblingPath(p, tag)) == DirectoryName(p)
    ensures FileNameWithoutExtension(SiblingPath(p, tag)) == FileNameWithoutExtension(p) + tag
  {
    SiblingDirectory(p, tag);
    SiblingBaseName(p, tag);
  }

  /** A tag that does not begin with a dot never names the project file itself. */
  lemma {:induction false} SiblingPathIsNotOriginal(p: string, tag: string)
    requires SingleSeparators(p)
    requires Separator !in tag
    requires tag != [] && tag[0] != ExtensionDot
    ensures SiblingPath(p, tag) != p
  {
    SiblingPathShape(p, tag);
    FileNameHasNoSeparator(p);
    var f := FileName(p);
    var stem := FileNameWithoutExtension(p);
    var n := |Folder(p)| + |stem|;
    var q := SiblingPath(p, tag);
    var j := LastIndexOf(f, ExtensionDot);
    assert |q| > n && q[n] == tag[0];
    if j < 0 {
      assert stem == f;
      assert |p| == n;
    } else {
      assert |stem| == j;
      assert p[n] == f[j] == ExtensionDot;
    }
  }

  /** Two names that share a prefix and differ after it are different. */
  lemma DifferentTails(pre: string, x: string, y: string, k: nat)
    requires k < |x| && k < |y| && x[k] != y[k]
    ensures pre + x != pre + y
  {
    assert (pre + x)[|pre| + k] == x[k];
    assert (pre + y)[|pre| + k] == y[k];
  }

  /** The two tags differ in their second character; neither holds a separator
      or starts with a dot. */
  lemma TagFacts()
    ensures (AutosaveTag + Extension)[1] != (BackupTag + Extension)[1]
    ensures Separator !in AutosaveTag && Separator !in BackupTag
    ensures AutosaveTag[0] != ExtensionDot && BackupTag[0] != ExtensionDot
  {
    assert forall k :: 0 <= k < |AutosaveTag| ==> AutosaveTag[k] != Separator;
    assert forall k :: 0 <= k < |BackupTag| ==> BackupTag[k] != Separator;
  }

  /** The autosave copy and the crash backup are different files. */
  lemma AutosaveIsNotBackup(p: string)
    requires SingleSeparators(p)
    ensures AutosavePath(p) != BackupPath(p)
  {
    TagFacts();
    var pre := Folder(p) + FileNameWithoutExtension(p);
    assert AutosavePath(p) == pre + (AutosaveTag + Extension) by {
      SiblingPathShape(p, AutosaveTag);
    }
    assert BackupPath(p) == pre + (BackupTag + Extension) by {
      SiblingPathShape(p, BackupTag);
    }
    DifferentTails(pre, AutosaveTag + Extension, BackupTag + Extension, 1);
  }

  /** Neither copy overwrites the project file. */
  lemma CopiesAreNotOriginal(p: string)
    requires SingleSeparators(p)
    ensures AutosavePath(p) != p && BackupPath(p) != p
  {
    TagFacts();
    SiblingPathIsNotOriginal(p, AutosaveTag);
    SiblingPathIsNotOriginal(p, BackupTag);
  }
}
