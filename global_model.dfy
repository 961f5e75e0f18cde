/**
 * The orchestrator of the editor (GlobalModel): the definitions document and
 * its file, the listeners it polls and notifies, the compile pipeline and the
 * resets of the interactions and console panes. Listeners, the file system,
 * the package-statement parser and the compiler are not code of this model:
 * listeners are numbers whose answers are given as functions, every
 * notification is recorded in an event log, the file system is a map from
 * paths to contents and a compile is recorded with its arguments.
 */
module Orchestration {
  import opened Options
  import opened SourceRoots
  import Interactions

  type ListenerId = nat

  /** Why the listeners are asked to save. */
  datatype SaveReason = CompileReason

  /** The GlobalModelListener callbacks that carry no answer. */
  datatype Notification =
    | NewFileCreated
    | FileSaved(file: Path)
    | FileOpened(file: Path)
    | CompileStarted
    | CompileEnded
    | ConsoleReset
    | InteractionsReset
    | SaveRequested(reason: SaveReason)

  /** One call on one listener, in the order the calls were made. */
  datatype Event =
    | Notified(listener: ListenerId, notification: Notification)
    | AskedToAbandon(listener: ListenerId, file: Option<Path>)

  /** The definitions document as the orchestrator sees it: its file (None when unsaved), its text, and whether it changed since the last save. */
  datatype Definitions = Definitions(file: Option<Path>, text: string, modified: bool)

  /** A fresh document from the editor kit, bound to no file. */
  const Untitled: Definitions := Definitions(None, "", false)

  /** What a file selector returns: a file, or the user's cancellation. */
  datatype Selection = Chosen(path: Path) | Canceled

  /** What getPackageName makes of the document's text: a package name, or an InvalidPackageException. */
  datatype PackageDeclaration = Declared(name: string) | Malformed(message: string)

  datatype CompilerError = CompilerError(file: string, line: int, column: int, message: string, isWarning: bool)

  /** A call of the compiler: the source root and the files handed to it. */
  datatype Compilation = Compilation(sourceRoot: Option<Path>, files: seq<Path>)

  /**
   * Exceptions that escape an operation: the NullPointerException of the
   * catch block that reports an invalid package for a document with no file,
   * and the RuntimeException for a directory that has no parent.
   */
  datatype Fault = NullFile | MissingParentDirectory

  // ---------------------------------------------------------------- notifying

  /** The events of notifying every listener, in registration order. */
  function Broadcast(ls: seq<ListenerId>, n: Notification): seq<Event>
    decreases |ls|
  {
    if ls == [] then [] else Broadcast(ls[..|ls| - 1], n) + [Notified(ls[|ls| - 1], n)]
  }

  /** Every listener hears the notification once, in registration order, and nobody else does. */
  lemma {:induction false} BroadcastNotifiesEach(ls: seq<ListenerId>, n: Notification)
    ensures var r := Broadcast(ls, n);
      |r| == |ls| && forall i :: 0 <= i < |ls| ==> r[i] == Notified(ls[i], n)
    decreases |ls|
  {
    if ls != [] {
      BroadcastNotifiesEach(ls[..|ls| - 1], n);
    }
  }

  // ------------------------------------------------------------------ polling

  /** The value _pollListeners returns: true AND every answer, in order. */
  function Agreed(ls: seq<ListenerId>, answer: (ListenerId, Option<Path>) -> bool, file: Option<Path>): bool
    decreases |ls|
  {
    ls == [] || (Agreed(ls[..|ls| - 1], answer, file) && answer(ls[|ls| - 1], file))
  }

  /** The questions _pollListeners asks: with &&, a listener is asked only while every earlier answer was yes. */
  function Consulted(ls: seq<ListenerId>, answer: (ListenerId, Option<Path>) -> bool, file: Option<Path>): seq<Event>
    decreases |ls|
  {
    if ls == [] then []
    else
      var earlier := ls[..|ls| - 1];
      Consulted(earlier, answer, file)
      + (if Agreed(earlier, answer, file) then [AskedToAbandon(ls[|ls| - 1], file)] else [])
  }

  /** The poll agrees exactly when every listener agrees; no listener means yes. */
  lemma {:induction false} AgreedIffAll(ls: seq<ListenerId>, answer: (ListenerId, Option<Path>) -> bool, file: Option<Path>)
    ensures Agreed(ls, answer, file) <==> forall i :: 0 <= i < |ls| ==> answer(ls[i], file)
    decreases |ls|
  {
    if ls != [] {
      var earlier := ls[..|ls| - 1];
      AgreedIffAll(earlier, answer, file);
      assert forall i :: 0 <= i < |earlier| ==> earlier[i] == ls[i];
    }
  }

  /**
   * The poll asks the listeners in registration order; when they all agree
   * every one is asked, and otherwise the last one asked is the first to
   * refuse, after which nobody is asked.
   */
  lemma {:induction false} ConsultedUntilRefusal(ls: seq<ListenerId>, answer: (ListenerId, Option<Path>) -> bool, file: Option<Path>)
    ensures var c := Consulted(ls, answer, file);
      |c| <= |ls|
      && (forall i :: 0 <= i < |c| ==> c[i] == AskedToAbandon(ls[i], file))
      && (Agreed(ls, answer, file) ==> |c| == |ls|)
      && (!Agreed(ls, answer, file) ==>
            |c| >= 1 && !answer(ls[|c| - 1], file) && forall i :: 0 <= i < |c| - 1 ==> answer(ls[i], file))
    decreases |ls|
  {
    if ls != [] {
      var earlier := ls[..|ls| - 1];
      ConsultedUntilRefusal(earlier, answer, file);
      AgreedIffAll(earlier, answer, file);
      assert forall i :: 0 <= i < |earlier| ==> earlier[i] == ls[i];
    }
  }

  /** Whether the current document may be abandoned: yes when unmodified, otherwise the listeners' verdict. */
  function MayAbandon(d: Definitions, ls: seq<ListenerId>, answer: (ListenerId, Option<Path>) -> bool): bool {
    !d.modified || Agreed(ls, answer, d.file)
  }

  /** The questions canAbandonFile asks: none for an unmodified document. */
  function AbandonQueries(d: Definitions, ls: seq<ListenerId>, answer: (ListenerId, Option<Path>) -> bool): seq<Event> {
    if d.modified then Consulted(ls, answer, d.file) else []
  }

  // ---------------------------------------------------------------- listeners

  /** LinkedList.remove(Object): drops the first occurrence, if any. */
  function RemoveFirst(ls: seq<ListenerId>, l: ListenerId): seq<ListenerId>
    decreases |ls|
  {
    if ls == [] then []
    else if ls[0] == l then ls[1..]
    else [ls[0]] + RemoveFirst(ls[1..], l)
  }

  /** Removing takes out exactly the first occurrence and keeps the order of the rest. */
  lemma {:induction false} RemoveFirstAt(ls: seq<ListenerId>, l: ListenerId, i: nat)
    requires i < |ls| && ls[i] == l && l !in ls[..i]
    ensures RemoveFirst(ls, l) == ls[..i] + ls[i + 1..]
    decreases i
  {
    if i > 0 {
      assert ls[0] != l by { assert ls[0] == ls[..i][0]; }
      assert ls[1..][..i - 1] == ls[1..i];
      RemoveFirstAt(ls[1..], l, i - 1);
      assert [ls[0]] + ls[1..i] == ls[..i];
    }
  }

  /** Removing a listener that is not registered changes nothing. */
  lemma {:induction false} RemoveAbsent(ls: seq<ListenerId>, l: ListenerId)
    requires l !in ls
    ensures RemoveFirst(ls, l) == ls
    decreases |ls|
  {
    if ls != [] {
      assert ls[0] != l;
      RemoveAbsent(ls[1..], l);
    }
  }

  /** Removing loses one copy of the listener and nothing else. */
  lemma {:induction false} RemoveFirstMultiset(ls: seq<ListenerId>, l: ListenerId)
    ensures multiset(RemoveFirst(ls, l)) == multiset(ls) - multiset{l}
    decreases |ls|
  {
    if ls != [] {
      assert ls == [ls[0]] + ls[1..];
      if ls[0] != l {
        RemoveFirstMultiset(ls[1..], l);
      }
    }
  }

  /** Removing a listener just added, and not registered before, restores the list. */
  lemma RemoveUndoesAdd(ls: seq<ListenerId>, l: ListenerId)
    requires l !in ls
    ensures RemoveFirst(ls + [l], l) == ls
  {
    var added := ls + [l];
    assert added[..|ls|] == ls;
    RemoveFirstAt(added, l, |ls|);
    assert added[|ls| + 1..] == [];
  }

  // ------------------------------------------------------------------- saving

  /** saveFile writes to the document's own file when it has one, and asks the selector otherwise. */
  function SaveTarget(file: Option<Path>, selection: Selection): Selection {
    if file.Some? then Chosen(file.value) else selection
  }

  /** The document after saveFileAs with a selector's answer. */
  function SavedDocument(d: Definitions, selection: Selection): Definitions {
    match selection
    case Canceled => d
    case Chosen(p) => Definitions(Some(p), d.text, false)
  }

  /** The file system after saveFileAs. */
  function SavedDisk(disk: map<Path, string>, d: Definitions, selection: Selection): map<Path, string> {
    match selection
    case Canceled => disk
    case Chosen(p) => disk[p := d.text]
  }

  /** The notifications saveFileAs sends. */
  function SaveEvents(ls: seq<ListenerId>, selection: Selection): seq<Event> {
    match selection
    case Canceled => []
    case Chosen(p) => Broadcast(ls, FileSaved(p))
  }

  /**
   * The save a listener performs when asked to save before proceeding: the
   * listeners' reaction is the selector they save with, if they save at all;
   * with no listener nobody saves.
   */
  function Reaction(ls: seq<ListenerId>, reaction: Option<Selection>, file: Option<Path>): Selection {
    if ls != [] && reaction.Some? then SaveTarget(file, reaction.value) else Canceled
  }

  /** A save that is not cancelled leaves an unmodified document whose file holds its text. */
  lemma SaveStoresText(disk: map<Path, string>, d: Definitions, selection: Selection)
    requires selection.Chosen?
    ensures var saved := SavedDocument(d, selection);
      !saved.modified && saved.file == Some(selection.path) && saved.text == d.text
      && SavedDisk(disk, d, selection)[selection.path] == saved.text
      && forall p :: p in disk && p != selection.path ==> SavedDisk(disk, d, selection)[p] == disk[p]
  {
  }

  // ---------------------------------------------------------------- compiling

  /** What getPackageName and _getSourceRoot together produce: a malformed package statement is an invalid package. */
  function CompileLookup(d: Definitions, declaration: PackageDeclaration): Lookup {
    match declaration
    case Malformed(message) => InvalidPackage(message)
    case Declared(name) => SourceRoot(d.file, name)
  }

  /** The notifications of the compile step: compileStarted, then on success compileEnded, consoleReset and interactionsReset. */
  function CompileEvents(ls: seq<ListenerId>, lookup: Lookup): seq<Event> {
    Broadcast(ls, CompileStarted)
    + if lookup.Found? then Broadcast(ls, CompileEnded) + Broadcast(ls, ConsoleReset) + Broadcast(ls, InteractionsReset)
      else []
  }

  /** The exception the compile step ends with, if any. */
  function CompileFault(file: Option<Path>, lookup: Lookup): Option<Fault> {
    match lookup
    case Found(_) => None
    case InvalidPackage(_) => if file.None? then Some(NullFile) else None
    case MissingAncestor => Some(MissingParentDirectory)
  }

  /** The compile errors after the compile step: one error for an invalid package, otherwise as before (the compiler's own errors are dropped). */
  function CompileErrorsAfter(errors: seq<CompilerError>, file: Option<Path>, lookup: Lookup): seq<CompilerError> {
    if lookup.InvalidPackage? && file.Some? then [CompilerError(AbsolutePath(file.value), -1, -1, lookup.message, false)]
    else errors
  }

  /** A found source root implies a bound file: an unsaved document is an invalid package. */
  lemma FoundHasFile(d: Definitions, declaration: PackageDeclaration)
    requires CompileLookup(d, declaration).Found?
    ensures d.file.Some?
  {
  }

  /**
   * On a successful compile every listener hears compileStarted, then
   * compileEnded, then consoleReset, then interactionsReset, each round going
   * through all listeners before the next begins.
   */
  lemma CompileNotificationOrder(ls: seq<ListenerId>, root: Option<Path>, i: nat)
    requires i < |ls|
    ensures var e := CompileEvents(ls, Found(root)); var n := |ls|;
      |e| == 4 * n
      && e[i] == Notified(ls[i], CompileStarted)
      && e[n + i] == Notified(ls[i], CompileEnded)
      && e[2 * n + i] == Notified(ls[i], ConsoleReset)
      && e[3 * n + i] == Notified(ls[i], InteractionsReset)
  {
    var n := |ls|;
    BroadcastNotifiesEach(ls, CompileStarted);
    BroadcastNotifiesEach(ls, CompileEnded);
    BroadcastNotifiesEach(ls, ConsoleReset);
    BroadcastNotifiesEach(ls, InteractionsReset);
    var started := Broadcast(ls, CompileStarted);
    var rest := Broadcast(ls, CompileEnded) + Broadcast(ls, ConsoleReset) + Broadcast(ls, InteractionsReset);
    assert CompileEvents(ls, Found(root)) == started + rest;
    assert rest[i] == Notified(ls[i], CompileEnded);
    assert rest[n + i] == Notified(ls[i], ConsoleReset);
    assert rest[2 * n + i] == Notified(ls[i], InteractionsReset);
  }

  /** A failed lookup stops the pipeline after compileStarted: no compileEnded and no reset is announced. */
  lemma CompileStopsOnLookupFailure(ls: seq<ListenerId>, lookup: Lookup)
    requires !lookup.Found?
    ensures CompileEvents(ls, lookup) == Broadcast(ls, CompileStarted)
    ensures forall e :: e in CompileEvents(ls, lookup) ==> e.Notified? && e.notification == CompileStarted
  {
  }

  /** The class path given to a new interpreter: the source root's absolute path when there is one. */
  function RootClassPath(root: Option<Path>): seq<string> {
    if root.Some? then [AbsolutePath(root.value)] else []
  }

  /** The package scope and source root resetInteractions passes on: the fallback ("", null) when either lookup throws InvalidPackageException. */
  function ResetArguments(d: Definitions, declaration: PackageDeclaration): (string, Option<Path>) {
    match declaration
    case Malformed(_) => ("", None)
    case Declared(name) =>
      match SourceRoot(d.file, name)
      case Found(root) => (name, root)
      case _ => ("", None)
  }

  /** The fallback adds nothing to the class path and scopes to the default package. */
  lemma FallbackAddsNoClassPath(d: Definitions, declaration: PackageDeclaration)
    requires CompileLookup(d, declaration).InvalidPackage?
    ensures RootClassPath(ResetArguments(d, declaration).1) == []
    ensures ResetArguments(d, declaration).0 == ""
  {
  }

  lemma Regroup(a: seq<Event>, b: seq<Event>, c: seq<Event>)
    ensures a + b + c == a + (b + c)
  {
  }

  class GlobalModel {
    var listeners: seq<ListenerId>
    var doc: Definitions
    var compileErrors: seq<CompilerError>
    /** The text of the console pane. */
    var console: string
    /** The file system: the contents of every existing file. */
    var disk: map<Path, string>
    /** Every listener call made so far, in order. */
    var events: seq<Event>
    /** Every call of the compiler, in order. */
    var compilations: seq<Compilation>
    /** Set by quit in place of System.exit. */
    var terminated: bool
    const interactions: Interactions.InteractionsDocument
    /** DefinitionsDocument.getPackageName, as a function of the document's text. */
    const packageOf: string -> PackageDeclaration

    /** The interactions pane keeps its frozen position within its text. */
    ghost predicate Valid()
      reads interactions
    {
      interactions.Valid()
    }

    /** The pane as _resetInteractions leaves it: banner and prompt, frozen to the end, the root as the only class-path entry, scoped to the package. */
    ghost predicate PaneReset(packageName: string, sourceRoot: Option<Path>)
      reads interactions
    {
      interactions.text == Interactions.Banner + Interactions.PromptText
      && interactions.frozenPos == |interactions.text|
      && interactions.classPath == RootClassPath(sourceRoot)
      && interactions.packageScope == packageName
    }

    constructor (disk: map<Path, string>, packageOf: string -> PackageDeclaration)
      ensures Valid()
      ensures listeners == [] && doc == Untitled && compileErrors == [] && console == ""
      ensures this.disk == disk && events == [] && compilations == [] && !terminated
      ensures this.packageOf == packageOf
      ensures fresh(interactions) && interactions.text == Interactions.Banner + Interactions.PromptText
      ensures interactions.frozenPos == |interactions.text| && interactions.classPath == [] && interactions.packageScope == ""
    {
      listeners := [];
      doc := Untitled;
      compileErrors := [];
      console := "";
      this.disk := disk;
      events := [];
      compilations := [];
      terminated := false;
      this.packageOf := packageOf;
      interactions := new Interactions.InteractionsDocument();
    }

    /** addListener: the listener is notified after all earlier ones. */
    method AddListener(l: ListenerId)
      modifies this`listeners
      ensures listeners == old(listeners) + [l]
    {
      listeners := listeners + [l];
    }

    /** removeListener: the first registration of the listener goes. */
    method RemoveListener(l: ListenerId)
      modifies this`listeners
      ensures listeners == RemoveFirst(old(listeners), l)
      ensures multiset(listeners) == multiset(old(listeners)) - multiset{l}
    {
      RemoveFirstMultiset(listeners, l);
      listeners := RemoveFirst(listeners, l);
    }

    /** _notifyListeners: each listener in turn receives the notification. */
    method NotifyListeners(n: Notification)
      modifies this`events
      ensures events == old(events) + Broadcast(listeners, n)
    {
      var i := 0;
      while i < |listeners|
        invariant 0 <= i <= |listeners|
        invariant events == old(events) + Broadcast(listeners[..i], n)
      {
        assert listeners[..i + 1][..i] == listeners[..i];
        events := events + [Notified(listeners[i], n)];
        i := i + 1;
      }
      assert listeners[..i] == listeners;
    }

    /** _pollListeners asking whether the document may be abandoned: poll = poll && answer, listener by listener. */
    method PollListeners(answer: (ListenerId, Option<Path>) -> bool) returns (poll: bool)
      modifies this`events
      ensures poll == Agreed(listeners, answer, doc.file)
      ensures events == old(events) + Consulted(listeners, answer, doc.file)
    {
      var i := 0;
      poll := true;
      while i < |listeners|
        invariant 0 <= i <= |listeners|
        invariant poll == Agreed(listeners[..i], answer, doc.file)
        invariant events == old(events) + Consulted(listeners[..i], answer, doc.file)
      {
        assert listeners[..i + 1][..i] == listeners[..i];
        var cur := listeners[i];
        if poll {
          events := events + [AskedToAbandon(cur, doc.file)];
          poll := answer(cur, doc.file);
        }
        i := i + 1;
      }
      assert listeners[..i] == listeners;
    }

    /** canAbandonFile: yes without asking when the document is unmodified, otherwise the poll. */
    method CanAbandonFile(answer: (ListenerId, Option<Path>) -> bool) returns (ok: bool)
      modifies this`events
      ensures ok == MayAbandon(doc, listeners, answer)
      ensures events == old(events) + AbandonQueries(doc, listeners, answer)
    {
      if doc.modified {
        ok := PollListeners(answer);
      } else {
        ok := true;
      }
    }

    /** newFile: when the document may be abandoned, an untitled document replaces it and newFileCreated is announced. */
    method NewFile(answer: (ListenerId, Option<Path>) -> bool)
      modifies this`doc, this`events
      ensures var ok := MayAbandon(old(doc), listeners, answer);
        doc == (if ok then Untitled else old(doc))
        && events == old(events) + AbandonQueries(old(doc), listeners, answer)
                     + (if ok then Broadcast(listeners, NewFileCreated) else [])
    {
      var canCreateNew := CanAbandonFile(answer);
      if canCreateNew {
        doc := Untitled;
        NotifyListeners(NewFileCreated);
      }
    }

    /** saveFileAs: writes the text to the selected file, binds the document to it and announces fileSaved; a cancelled selection changes nothing. */
    method SaveFileAs(selection: Selection)
      modifies this`doc, this`disk, this`events
      ensures doc == SavedDocument(old(doc), selection)
      ensures disk == SavedDisk(old(disk), old(doc), selection)
      ensures events == old(events) + SaveEvents(listeners, selection)
    {
      match selection {
        case Canceled =>
        case Chosen(file) =>
          disk := disk[file := doc.text];
          doc := doc.(modified := false, file := Some(file));
          NotifyListeners(FileSaved(file));
      }
    }

    /** saveFile: saves to the document's own file, or through the selector when it has none. */
    method SaveFile(selection: Selection)
      modifies this`doc, this`disk, this`events
      ensures var target := SaveTarget(old(doc.file), selection);
        doc == SavedDocument(old(doc), target)
        && disk == SavedDisk(old(disk), old(doc), target)
        && events == old(events) + SaveEvents(listeners, target)
    {
      var realCommand := selection;
      if doc.file.Some? {
        realCommand := Chosen(doc.file.value);
      }
      SaveFileAs(realCommand);
    }

    /**
     * openFile: when the document may be abandoned and the selector names a
     * file, the file's contents become an unmodified document bound to it and
     * fileOpened is announced. A cancelled selection keeps the old document;
     * so does a file that does not exist, whose FileNotFoundException is the
     * result missing.
     */
    method OpenFile(selection: Selection, answer: (ListenerId, Option<Path>) -> bool) returns (missing: bool)
      modifies this`doc, this`events
      ensures var ok := MayAbandon(old(doc), listeners, answer);
        var loads := ok && selection.Chosen? && selection.path in disk;
        missing == (ok && selection.Chosen? && selection.path !in disk)
        && doc == (if loads then Definitions(Some(selection.path), disk[selection.path], false) else old(doc))
        && events == old(events) + AbandonQueries(old(doc), listeners, answer)
                     + (if loads then Broadcast(listeners, FileOpened(selection.path)) else [])
    {
      missing := false;
      var canOpen := CanAbandonFile(answer);
      if canOpen {
        match selection {
          case Canceled =>
          case Chosen(file) =>
            if file !in disk {
              missing := true;
            } else {
              var tempDoc := Definitions(Some(file), disk[file], false);
              doc := tempDoc;
              NotifyListeners(FileOpened(file));
            }
        }
      }
    }

    /**
     * saveBeforeProceeding: a modified document makes every listener hear
     * the request; the save they then perform, if any, is reaction.
     */
    method SaveBeforeProceeding(reason: SaveReason, reaction: Option<Selection>)
      modifies this`doc, this`disk, this`events
      ensures var save := if old(doc.modified) then Reaction(listeners, reaction, old(doc.file)) else Canceled;
        doc == SavedDocument(old(doc), save)
        && disk == SavedDisk(old(disk), old(doc), save)
        && events == old(events)
                     + (if old(doc.modified) then Broadcast(listeners, SaveRequested(reason)) else [])
                     + SaveEvents(listeners, save)
    {
      if doc.modified {
        NotifyListeners(SaveRequested(reason));
        if listeners != [] && reaction.Some? {
          SaveFile(reaction.value);
        }
      }
    }

    /** _getSourceRoot, with its two stack loops, for the document's file. */
    method GetSourceRoot(packageName: string) returns (r: Lookup)
      ensures r == SourceRoot(doc.file, packageName)
    {
      if doc.file.None? {
        return InvalidPackage(UnsavedMessage);
      }
      var sourceFile := doc.file.value;
      if packageName == "" {
        return Found(ParentFile(sourceFile));
      }
      var packageStack: seq<string> := [];
      var dotIndex := JavaText.IndexOf(packageName, '.', 0);
      var curPartBegins := 0;
      ghost var from := 0;
      while dotIndex != -1
        invariant from <= |packageName| + 1
        invariant dotIndex == JavaText.IndexOf(packageName, '.', from)
        invariant packageStack + DotPrefixes(packageName, from) == DotPrefixes(packageName, 0)
        decreases |packageName| - from
      {
        packageStack := packageStack + [packageName[curPartBegins..dotIndex]];
        from := dotIndex + 1;
        dotIndex := JavaText.IndexOf(packageName, '.', dotIndex + 1);
      }
      packageStack := packageStack + [packageName[curPartBegins..]];
      assert packageStack == PackageStack(packageName);

      var parentDir := sourceFile;
      while packageStack != []
        invariant Climb(parentDir, packageStack, sourceFile) == SourceRoot(doc.file, packageName)
        decreases |packageStack|
      {
        var part := packageStack[|packageStack| - 1];
        packageStack := packageStack[..|packageStack| - 1];
        var parent := ParentFile(parentDir);
        if parent.None? {
          return MissingAncestor;
        }
        parentDir := parent.value;
        if part != FileName(parentDir) {
          return InvalidPackage(MismatchMessage(sourceFile, FileName(parentDir), part));
        }
      }
      var root := ParentFile(parentDir);
      if root.None? {
        return MissingAncestor;
      }
      return Found(root);
    }

    /** endCompile. */
    method EndCompile()
      modifies this`events
      ensures events == old(events) + Broadcast(listeners, CompileEnded)
    {
      NotifyListeners(CompileEnded);
    }

    /** resetConsole: the console pane is emptied and consoleReset announced. */
    method ResetConsole()
      modifies this`console, this`events
      ensures console == ""
      ensures events == old(events) + Broadcast(listeners, ConsoleReset)
    {
      console := "";
      NotifyListeners(ConsoleReset);
    }

    /** _resetInteractions: a fresh interactions pane whose class path holds the source root, if any, then interactionsReset. */
    method ResetInteractionsWith(packageName: string, sourceRoot: Option<Path>)
      modifies interactions`text, interactions`frozenPos, interactions`classPath, interactions`packageScope, this`events
      ensures Valid() && PaneReset(packageName, sourceRoot)
      ensures events == old(events) + Broadcast(listeners, InteractionsReset)
    {
      interactions.Reset();
      if sourceRoot.Some? {
        interactions.AddClassPath(AbsolutePath(sourceRoot.value));
      }
      interactions.SetPackageScope(packageName);
      NotifyListeners(InteractionsReset);
    }

    /** getPackageName followed by _getSourceRoot, as both resetInteractions and startCompile call them. */
    method PackageAndSourceRoot() returns (declaration: PackageDeclaration, lookup: Lookup)
      ensures declaration == packageOf(doc.text)
      ensures lookup == CompileLookup(doc, declaration)
    {
      declaration := packageOf(doc.text);
      match declaration {
        case Malformed(message) =>
          lookup := InvalidPackage(message);
        case Declared(packageName) =>
          lookup := GetSourceRoot(packageName);
      }
    }

    /** resetInteractions: resets with the document's package and source root, or with ("", null) when either is invalid. */
    method ResetInteractions() returns (fault: Option<Fault>)
      requires Valid()
      modifies interactions`text, interactions`frozenPos, interactions`classPath, interactions`packageScope, this`events
      ensures Valid()
      ensures var lookup := CompileLookup(doc, packageOf(doc.text));
        fault == (if lookup.MissingAncestor? then Some(MissingParentDirectory) else None)
      ensures CompileLookup(doc, packageOf(doc.text)).MissingAncestor? ==>
        events == old(events) && unchanged(interactions)
      ensures !CompileLookup(doc, packageOf(doc.text)).MissingAncestor? ==>
        var (packageName, root) := ResetArguments(doc, packageOf(doc.text));
        PaneReset(packageName, root)
        && events == old(events) + Broadcast(listeners, InteractionsReset)
    {
      var declaration, lookup := PackageAndSourceRoot();
      match lookup {
        case Found(root) =>
          ResetInteractionsWith(declaration.name, root);
          fault := None;
        case InvalidPackage(_) =>
          // Could not get the package: reset without adding to the class path.
          ResetInteractionsWith("", None);
          fault := None;
        case MissingAncestor =>
          fault := Some(MissingParentDirectory);
      }
    }

    /**
     * The compile step of startCompile, once the document is saved:
     * compileStarted; then the package and the source root; on success the
     * compiler runs, then endCompile, resetConsole and _resetInteractions;
     * an invalid package becomes the one compile error.
     */
    method CompileSavedDocument() returns (fault: Option<Fault>)
      requires Valid()
      modifies this`events, this`compileErrors, this`compilations, this`console
      modifies interactions`text, interactions`frozenPos, interactions`classPath, interactions`packageScope
      ensures Valid()
      ensures var lookup := CompileLookup(doc, packageOf(doc.text));
        fault == CompileFault(doc.file, lookup)
        && events == old(events) + CompileEvents(listeners, lookup)
        && compileErrors == CompileErrorsAfter(old(compileErrors), doc.file, lookup)
      ensures var lookup := CompileLookup(doc, packageOf(doc.text));
        lookup.Found? ==>
          compilations == old(compilations) + [Compilation(lookup.root, [doc.file.value])]
          && console == ""
          && PaneReset(packageOf(doc.text).name, lookup.root)
      ensures !CompileLookup(doc, packageOf(doc.text)).Found? ==>
        compilations == old(compilations) && console == old(console) && unchanged(interactions)
    {
      NotifyListeners(CompileStarted);
      var declaration, lookup := PackageAndSourceRoot();
      if lookup.Found? {
        CompileAndReset(declaration.name, lookup.root, doc.file.value);
        Regroup(old(events), Broadcast(listeners, CompileStarted),
          Broadcast(listeners, CompileEnded) + Broadcast(listeners, ConsoleReset) + Broadcast(listeners, InteractionsReset));
        fault := None;
      } else {
        fault := LookupFailed(lookup);
        assert events == old(events) + Broadcast(listeners, CompileStarted) + [];
      }
    }

    /** The catch block of startCompile: an invalid package becomes the one compile error; a missing ancestor escapes. */
    method LookupFailed(lookup: Lookup) returns (fault: Option<Fault>)
      requires !lookup.Found?
      modifies this`compileErrors
      ensures fault == CompileFault(doc.file, lookup)
      ensures compileErrors == CompileErrorsAfter(old(compileErrors), doc.file, lookup)
    {
      var file := doc.file;
      match lookup {
        case InvalidPackage(message) =>
          if file.None? {
            // The catch block dereferences the missing file.
            fault := Some(NullFile);
          } else {
            compileErrors := [CompilerError(AbsolutePath(file.value), -1, -1, message, false)];
            fault := None;
          }
        case MissingAncestor =>
          fault := Some(MissingParentDirectory);
      }
    }

    /** The success path of startCompile: the compiler runs on the file, then endCompile, resetConsole and _resetInteractions. */
    method CompileAndReset(packageName: string, sourceRoot: Option<Path>, file: Path)
      modifies this`events, this`compilations, this`console
      modifies interactions`text, interactions`frozenPos, interactions`classPath, interactions`packageScope
      ensures compilations == old(compilations) + [Compilation(sourceRoot, [file])]
      ensures console == ""
      ensures Valid() && PaneReset(packageName, sourceRoot)
      ensures events == old(events) + (Broadcast(listeners, CompileEnded) + Broadcast(listeners, ConsoleReset)
                                       + Broadcast(listeners, InteractionsReset))
    {
      // The errors the compiler returns are not kept.
      compilations := compilations + [Compilation(sourceRoot, [file])];
      EndCompile();
      ResetConsole();
      ResetInteractionsWith(packageName, sourceRoot);
    }

    /**
     * startCompile: first the chance to save; a document still modified
     * afterwards is not compiled and nothing more is announced.
     */
    method StartCompile(reaction: Option<Selection>) returns (fault: Option<Fault>)
      requires Valid()
      modifies this`doc, this`disk, this`events, this`compileErrors, this`compilations, this`console
      modifies interactions`text, interactions`frozenPos, interactions`classPath, interactions`packageScope
      ensures Valid()
      ensures var save := if old(doc.modified) then Reaction(listeners, reaction, old(doc.file)) else Canceled;
        var saved := SavedDocument(old(doc), save);
        var prelude := old(events)
                       + (if old(doc.modified) then Broadcast(listeners, SaveRequested(CompileReason)) else [])
                       + SaveEvents(listeners, save);
        var lookup := CompileLookup(saved, packageOf(saved.text));
        doc == saved && disk == SavedDisk(old(disk), old(doc), save)
        && (saved.modified ==>
              fault == None && events == prelude && compileErrors == old(compileErrors)
              && compilations == old(compilations) && console == old(console) && unchanged(interactions))
        && (!saved.modified ==>
              fault == CompileFault(saved.file, lookup)
              && events == prelude + CompileEvents(listeners, lookup)
              && compileErrors == CompileErrorsAfter(old(compileErrors), saved.file, lookup)
              && (lookup.Found? ==>
                    compilations == old(compilations) + [Compilation(lookup.root, [saved.file.value])]
                    && console == "" && PaneReset(packageOf(saved.text).name, lookup.root))
              && (!lookup.Found? ==>
                    compilations == old(compilations) && console == old(console) && unchanged(interactions)))
    {
      SaveBeforeProceeding(CompileReason, reaction);
      if !doc.modified {
        fault := CompileSavedDocument();
      } else {
        fault := None;
      }
    }

    /** quit: when the document may be abandoned the program ends. */
    method Quit(answer: (ListenerId, Option<Path>) -> bool)
      modifies this`events, this`terminated
      ensures terminated == (old(terminated) || MayAbandon(old(doc), listeners, answer))
      ensures events == old(events) + AbandonQueries(old(doc), listeners, answer)
    {
      var canQuit := CanAbandonFile(answer);
      if canQuit {
        terminated := true;
      }
    }
  }

  /** Saving the document to a file and opening that file again gives back the same text, unmodified and bound to the file, without asking any listener. */
  method SaveThenOpen(m: GlobalModel, path: Path, answer: (ListenerId, Option<Path>) -> bool) returns (missing: bool)
    modifies m`doc, m`disk, m`events
    ensures !missing
    ensures m.doc == Definitions(Some(path), old(m.doc.text), false)
    ensures m.disk == old(m.disk)[path := old(m.doc.text)]
    ensures m.events == old(m.events) + Broadcast(m.listeners, FileSaved(path)) + Broadcast(m.listeners, FileOpened(path))
  {
    m.SaveFileAs(Chosen(path));
    missing := m.OpenFile(Chosen(path), answer);
  }
}
