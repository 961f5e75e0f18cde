/**
 * Finding the source root of the file being compiled from its package name
 * (GlobalModel._getSourceRoot). Files are absolute paths, written as the
 * sequence of their components below the file-system root; the root itself
 * is the empty path and has no parent.
 */
module SourceRoots {
  import opened Options
  import opened JavaText

  /** An absolute path: its components from the root down. */
  type Path = seq<string>

  /** File.getParentFile(): drops the last component; the root has none. */
  function ParentFile(p: Path): (r: Option<Path>)
    ensures r.None? <==> p == []
    ensures r.Some? ==> r.value + [p[|p| - 1]] == p
  {
    if p == [] then None else Some(p[..|p| - 1])
  }

  /** File.getName(): the last component; the root's name is empty. */
  function FileName(p: Path): string {
    if p == [] then "" else p[|p| - 1]
  }

  /** File.getAbsolutePath(). */
  function AbsolutePath(p: Path): (r: string)
    ensures |r| >= 1 && r[0] == '/'
  {
    "/" + Join(p, "/")
  }

  /** How a lookup ends: a root (possibly null), an InvalidPackageException, or the RuntimeException for a missing ancestor. */
  datatype Lookup = Found(root: Option<Path>) | InvalidPackage(message: string) | MissingAncestor

  const UnsavedMessage: string := "Can not get source root for unsaved file. Please save."

  /** The InvalidPackageException message for a directory whose name is not the expected package part. */
  function MismatchMessage(file: Path, dirName: string, part: string): string {
    "The source file " + AbsolutePath(file) + " is in the wrong directory or in the wrong package. "
    + "The directory name " + dirName + " does not match the package name " + part + "."
  }

  /**
   * What the first loop pushes, bottom of the stack first: for every dot at or
   * after from, the package name up to that dot. The start of each part is
   * never moved on from 0, so these are prefixes, not components.
   */
  function DotPrefixes(pkg: string, from: nat): seq<string>
    decreases |pkg| - from
  {
    var dot := IndexOf(pkg, '.', from);
    if dot == -1 then []
    else [pkg[..dot]] + DotPrefixes(pkg, dot + 1)
  }

  /**
   * The stack below the whole name holds, shortest first, the package name
   * cut before each of its dots, and nothing else.
   */
  lemma {:induction false} DotPrefixesAreCuts(pkg: string, from: nat)
    ensures var r := DotPrefixes(pkg, from);
      (forall i :: 0 <= i < |r| ==> from <= |r[i]| < |pkg| && r[i] == pkg[..|r[i]|] && pkg[|r[i]|] == '.')
      && (forall i, j :: 0 <= i < j < |r| ==> |r[i]| < |r[j]|)
      && (forall d :: from <= d < |pkg| && pkg[d] == '.' ==> pkg[..d] in r)
    decreases |pkg| - from
  {
    var dot := IndexOf(pkg, '.', from);
    if dot != -1 {
      DotPrefixesAreCuts(pkg, dot + 1);
    }
  }

  /** The whole stack as written: the dot prefixes, then the whole name on top. */
  function PackageStack(pkg: string): seq<string> {
    DotPrefixes(pkg, 0) + [pkg]
  }

  /**
   * The second loop and the step after it: pop a part, go up one directory,
   * compare that directory's name with the part; when the stack is empty the
   * parent of the current directory is the root.
   */
  function Climb(dir: Path, stack: seq<string>, file: Path): (r: Lookup)
    ensures r.Found? ==> r.root.Some? && |r.root.value| + |stack| + 1 == |dir| && r.root.value == dir[..|r.root.value|]
    decreases |stack|
  {
    if stack == [] then
      match ParentFile(dir)
      case None => MissingAncestor
      case Some(root) => Found(Some(root))
    else
      var part := stack[|stack| - 1];
      match ParentFile(dir)
      case None => MissingAncestor
      case Some(parent) =>
        if part != FileName(parent) then InvalidPackage(MismatchMessage(file, FileName(parent), part))
        else Climb(parent, stack[..|stack| - 1], file)
  }

  /** _getSourceRoot as written, for the bound file (None when unsaved) and the declared package. */
  function SourceRoot(file: Option<Path>, pkg: string): (r: Lookup)
    ensures file.None? ==> r == InvalidPackage(UnsavedMessage)
    ensures r.Found? && r.root.Some? ==>
      file.Some? && |r.root.value| < |file.value| && r.root.value == file.value[..|r.root.value|]
  {
    match file
    case None => InvalidPackage(UnsavedMessage)
    case Some(f) =>
      if pkg == "" then Found(ParentFile(f))
      else Climb(f, PackageStack(pkg), f)
  }

  /** Climbing succeeds exactly when the directories above dir spell the stack, bottom of the stack outermost, below some root. */
  lemma {:induction false} ClimbFound(dir: Path, stack: seq<string>, file: Path, root: Path)
    ensures Climb(dir, stack, file) == Found(Some(root))
        <==> |dir| == |root| + |stack| + 1 && dir[..|root|] == root && dir[|root|..|root| + |stack|] == stack
  {
    if |dir| == |root| + |stack| + 1 && dir[..|root|] == root && dir[|root|..|root| + |stack|] == stack {
      LayoutClimbs(dir, stack, file, root);
    }
    if Climb(dir, stack, file) == Found(Some(root)) {
      ClimbLayout(dir, stack, file, root);
    }
  }

  /** A directory laid out as the root followed by the stack climbs to that root. */
  lemma {:induction false} LayoutClimbs(dir: Path, stack: seq<string>, file: Path, root: Path)
    requires |dir| == |root| + |stack| + 1 && dir[..|root|] == root && dir[|root|..|root| + |stack|] == stack
    ensures Climb(dir, stack, file) == Found(Some(root))
    decreases |stack|
  {
    var parent := dir[..|dir| - 1];
    if stack != [] {
      var rest := stack[..|stack| - 1];
      assert parent[..|root|] == root;
      assert parent[|root|..|root| + |rest|] == rest;
      assert FileName(parent) == stack[|stack| - 1];
      LayoutClimbs(parent, rest, file, root);
    } else {
      assert parent == root;
    }
  }

  /** A climb that finds a root finds it below the stack's names, in order. */
  lemma {:induction false} ClimbLayout(dir: Path, stack: seq<string>, file: Path, root: Path)
    requires Climb(dir, stack, file) == Found(Some(root))
    ensures |dir| == |root| + |stack| + 1 && dir[..|root|] == root && dir[|root|..|root| + |stack|] == stack
    decreases |stack|
  {
    var parent := dir[..|dir| - 1];
    if stack != [] {
      var rest := stack[..|stack| - 1];
      ClimbLayout(parent, rest, file, root);
      assert FileName(parent) == stack[|stack| - 1];
      assert dir == parent + [dir[|dir| - 1]];
      assert dir[|root|..|root| + |stack|] == rest + [stack[|stack| - 1]];
    }
  }

  /** The first comparison is between the directory holding the file and the top of the stack. */
  lemma DirectoryComparedFirst(file: Path, pkg: string)
    requires pkg != "" && |file| >= 2 && file[|file| - 2] != pkg
    ensures SourceRoot(Some(file), pkg) == InvalidPackage(MismatchMessage(file, file[|file| - 2], pkg))
  {
    var parent := file[..|file| - 1];
    assert FileName(parent) == file[|file| - 2];
  }

  /**
   * As written, a named package is accepted exactly when the file sits in a
   * directory named after the whole package, whose ancestors are named after
   * the shorter dot prefixes in turn, below the root that is returned.
   */
  lemma SourceRootAsWritten(file: Path, pkg: string, root: Path)
    requires pkg != ""
    ensures var stack := PackageStack(pkg);
      (SourceRoot(Some(file), pkg) == Found(Some(root)) <==>
         |file| == |root| + |stack| + 1 && file[..|root|] == root && file[|root|..|root| + |stack|] == stack)
  {
    ClimbFound(file, PackageStack(pkg), file, root);
  }

  /** The empty package: the root is the directory holding the file. */
  lemma DefaultPackageRoot(file: Path)
    requires file != []
    ensures SourceRoot(Some(file), "") == Found(Some(file[..|file| - 1]))
  {
  }

  /** A package without a dot: the usual layout, root/pkg/File.java, is accepted. */
  lemma SimplePackageAccepted(root: Path, pkg: string, name: string)
    requires pkg != "" && forall k :: 0 <= k < |pkg| ==> pkg[k] != '.'
    ensures SourceRoot(Some(root + [pkg, name]), pkg) == Found(Some(root))
  {
    var stack := PackageStack(pkg);
    var dots := DotPrefixes(pkg, 0);
    DotPrefixesAreCuts(pkg, 0);
    assert stack == [pkg];
    var file := root + [pkg, name];
    assert file[..|root|] == root;
    assert file[|root|..|root| + 1] == [pkg];
    SourceRootAsWritten(file, pkg, root);
  }

  /**
   * The usual layout for a package with more than one component,
   * root/c1/.../cn/File.java with package c1. ... .cn, is rejected: the
   * directory cn is compared with the whole package name.
   */
  lemma DottedPackageRejected(root: Path, parts: seq<string>, name: string)
    requires |parts| >= 2
    requires forall i :: 0 <= i < |parts| ==> forall k :: 0 <= k < |parts[i]| ==> parts[i][k] != '.'
    ensures var file := root + parts + [name]; var pkg := Join(parts, ".");
      SourceRoot(Some(file), pkg) == InvalidPackage(MismatchMessage(file, parts[|parts| - 1], pkg))
  {
    var file := root + parts + [name];
    var pkg := Join(parts, ".");
    var last := parts[|parts| - 1];
    JoinHasSeparator(parts);
    assert pkg != last by {
      forall k | 0 <= k < |last| ensures last[k] != '.' { }
    }
    assert file[|file| - 2] == last;
    DirectoryComparedFirst(file, pkg);
  }

  /** Joining two or more parts with "." puts a dot in the result. */
  lemma {:induction false} JoinHasSeparator(parts: seq<string>)
    requires |parts| >= 2
    ensures exists k :: 0 <= k < |Join(parts, ".")| && Join(parts, ".")[k] == '.'
  {
    var j := Join(parts, ".");
    assert j == parts[0] + "." + Join(parts[1..], ".");
    assert j[|parts[0]|] == '.';
  }

  /**
   * The components of a package name, as the comment after the loop expects
   * the stack to hold them: the text between dots, first component at the
   * bottom of the stack.
   */
  function Components(pkg: string, from: nat): (r: seq<string>)
    requires from <= |pkg|
    ensures |r| >= 1
    decreases |pkg| - from
  {
    var dot := IndexOf(pkg, '.', from);
    if dot == -1 then [pkg[from..]]
    else [pkg[from..dot]] + Components(pkg, dot + 1)
  }

  /** The lookup the comment describes: the stack holds the components, so the climb ends in the directory of the first one. */
  function IntendedSourceRoot(file: Option<Path>, pkg: string): Lookup {
    match file
    case None => InvalidPackage(UnsavedMessage)
    case Some(f) =>
      if pkg == "" then Found(ParentFile(f))
      else Climb(f, Components(pkg, 0), f)
  }

  /** Splitting at the dots undoes joining dot-free parts with ".": here for the text of s from position from on. */
  lemma {:induction false} ComponentsOfJoin(s: string, from: nat, parts: seq<string>)
    requires from <= |s| && s[from..] == Join(parts, ".")
    requires |parts| >= 1
    requires forall i :: 0 <= i < |parts| ==> forall k :: 0 <= k < |parts[i]| ==> parts[i][k] != '.'
    ensures Components(s, from) == parts
    decreases |parts|
  {
    JoinedHead(s, from, parts);
    if |parts| == 1 {
      LastComponent(s, from);
      assert parts == [s[from..]];
    } else {
      var dot := from + |parts[0]|;
      NextComponent(s, from, dot);
      ComponentsOfJoin(s, dot + 1, parts[1..]);
      calc {
        Components(s, from);
        [s[from..dot]] + Components(s, dot + 1);
        [parts[0]] + parts[1..];
        parts;
      }
    }
  }

  /** Where the first part of a join sits in s, and what follows it. */
  lemma JoinedHead(s: string, from: nat, parts: seq<string>)
    requires from <= |s| && s[from..] == Join(parts, ".")
    requires |parts| >= 1
    requires forall k :: 0 <= k < |parts[0]| ==> parts[0][k] != '.'
    ensures var dot := from + |parts[0]|;
      dot <= |s| && s[from..dot] == parts[0]
      && (forall k :: from <= k < dot ==> s[k] != '.')
      && (|parts| == 1 ==> dot == |s|)
      && (|parts| > 1 ==> dot < |s| && s[dot] == '.' && s[dot + 1..] == Join(parts[1..], "."))
  {
    var dot := from + |parts[0]|;
    if |parts| == 1 {
      assert s[from..] == parts[0];
    } else {
      var tail := Join(parts[1..], ".");
      assert s[from..] == parts[0] + "." + tail;
      assert s[from..][..|parts[0]|] == parts[0];
      assert s[from..][|parts[0]|] == '.';
      assert s[from..][|parts[0]| + 1..] == tail;
    }
    assert forall k :: from <= k < dot ==> s[k] == parts[0][k - from];
  }

  /** Dot-free text up to the end is the last component. */
  lemma LastComponent(s: string, from: nat)
    requires from <= |s|
    requires forall k :: from <= k < |s| ==> s[k] != '.'
    ensures Components(s, from) == [s[from..]]
  {
    assert IndexOf(s, '.', from) == -1;
  }

  /** Dot-free text up to a dot is the next component; splitting goes on after the dot. */
  lemma NextComponent(s: string, from: nat, dot: nat)
    requires from <= dot < |s| && s[dot] == '.'
    requires forall k :: from <= k < dot ==> s[k] != '.'
    ensures Components(s, from) == [s[from..dot]] + Components(s, dot + 1)
  {
    assert IndexOf(s, '.', from) == dot;
  }

  /** The intended lookup accepts the usual layout root/c1/.../cn/File.java for package c1. ... .cn. */
  lemma IntendedAcceptsLayout(root: Path, parts: seq<string>, name: string)
    requires |parts| >= 1 && parts[0] != ""
    requires forall i :: 0 <= i < |parts| ==> forall k :: 0 <= k < |parts[i]| ==> parts[i][k] != '.'
    ensures IntendedSourceRoot(Some(root + parts + [name]), Join(parts, ".")) == Found(Some(root))
  {
    var file := root + parts + [name];
    var pkg := Join(parts, ".");
    ComponentsOfJoin(pkg, 0, parts);
    assert |pkg| >= |parts[0]|;
    assert file[..|root|] == root;
    assert file[|root|..|root| + |parts|] == parts;
    ClimbFound(file, parts, file, root);
  }
}
