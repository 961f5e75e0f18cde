# DrJava core: the global model, the interactions pane and the gap arithmetic

This project models the centre of early DrJava:

- **`GlobalModel`** sits between the user interface and the program logic. It
  - keeps the definitions document;
  - tells its listeners about new, saved and opened files;
  - asks them whether an unsaved document may be abandoned;
  - drives a compile, in the order compileStarted, compileEnded, consoleReset, interactionsReset;
  - finds the source root of the current file from its package declaration;
  - resets the interactions pane and the console.
- **`InteractionsDocument`** is the REPL pane. Text before the frozen position cannot be edited. `reset` writes the banner "Welcome to DrJava.\n" and the prompt "> ". `eval` does four things:
  - it trims the editable text;
  - it rewrites a `java Cls a b` command into `Cls.main(new String[]{"a","b"});`;
  - it hands the result to the interpreter;
  - it appends the answer or an "Error in evaluation: " line, then a new prompt.
- **The gap arithmetic of the reduced model**, as `GapTest` pins it down.

## Modules

| file | module | contents |
|---|---|---|
| `options.dfy` | `Options` | `Option`, which stands for Java's `null` |
| `java_text.dfy` | `JavaText` | `String.trim`, `startsWith`, `endsWith`, `indexOf` and `java.util.StringTokenizer` with its default delimiters |
| `interactions.dfy` | `Interactions` | the outcomes of an evaluation, the `_testClassCall` rewrite, and the class `InteractionsDocument` |
| `source_roots.dfy` | `SourceRoots` | paths, `File.getParentFile`/`getName`/`getAbsolutePath`, and `_getSourceRoot` as a function |
| `global_model.dfy` | `Orchestration` | listeners and the event log, the definitions document, the class `GlobalModel` |
| `gap.dfy` | `Gaps` | `Grown`/`Shrunk`, the class `Gap` and the two test methods |

## Modelling decisions

- **Abstractions of the environment:**
  - A file is a path, written as a sequence of names from the file-system root.
  - The disk is a `map` from path to text.
  - Reading a file that is not in the map is the `FileNotFoundException` of `openFile`.
- **Listeners:**
  - They are identifiers kept in a sequence. `remove` drops the first occurrence, as `LinkedList.remove(Object)` does.
  - Each notification a listener receives is appended to the `events` log.
  - Each `canAbandonFile` question is also appended, so the short-circuit of `poll && p.poll(cur)` shows as a log that stops at the first refusal.
- **Parameters standing in for code outside the model:**
  - The listeners' answers are a function.
  - The save a listener performs when asked to save before proceeding is an `Option<Selection>`.
  - The interpreter is a function from the submitted text to an `Outcome`.
  - `DefinitionsDocument.getPackageName` is the function `packageOf`.
- **What is recorded instead of performed:**
  - The compiler is recorded as the `Compilation(sourceRoot, files)` it is asked for.
  - `System.exit` is the `terminated` flag.
- **Exceptions:**
  - `InvalidPackageException` is `Lookup.InvalidPackage(message)`.
  - The `RuntimeException` for a missing parent directory is `Lookup.MissingAncestor`, and it escapes as `Fault.MissingParentDirectory`.
  - The `NullPointerException` raised by `file.getAbsolutePath()` when an unsaved document is compiled is `Fault.NullFile`.
- **`_getSourceRoot` is modelled as written.** `curPartBegins` is never advanced, so the stack holds dot *prefixes* of the package name ("a", "a.b", ...), not its components. These are compared with directory names.
  - A single-component package works (`SimplePackageAccepted`).
  - A dotted package laid out in the usual directories is always rejected, by the comparison of the whole package name with the file's directory (`DottedPackageRejected`).
  - `IntendedSourceRoot` is the component-wise lookup that the comment after the loop describes. `IntendedAcceptsLayout` proves that it accepts that layout. The rest of the model uses the code as written.
- **`eval` when the class name is missing.** `StringTokenizer.nextToken` throws `NoSuchElementException` without a message. Its `toString()` is therefore what is reported (`MissingClassName`).
- **`Gap.java` is not part of this model.** `Gap` is modelled from the behaviour its unit test asserts. A grow or shrink by a non-positive amount, or a shrink larger than the gap, leaves the size unchanged.

- **Specification functions** carry no contract of their own where the contract would repeat the body; the members named here state what they mean:

| function | characterised by |
|---|---|
| `JavaText.StartsWith`, `EndsWith` | `String.startsWith`/`endsWith`; used directly in the contracts of `Normalised`, `SemicolonIgnored`, `JavaPrefixed` |
| `JavaText.Join`, `Spaced` | `TokenizeSpaced`, `SpacedLast`, `JoinHasSeparator`, `ComponentsOfJoin` |
| `SourceRoots.FileName`, `MismatchMessage` | `DirectoryComparedFirst`, `DottedPackageRejected` |
| `SourceRoots.DotPrefixes`, `PackageStack` | `DotPrefixesAreCuts`, `SourceRootAsWritten`, `GetSourceRoot` |
| `Interactions.MainCall`, `QuoteArgs` | `TestClassCall`, `QuoteArgsStep`, `ClassCallRoundTrip`, `SemicolonIgnored`, `MissingClassName` |
| `Interactions.Response` | `ResponseFraming`, `SyntaxErrorReported`, `AppendResponse` |
| `Interactions.Submitted`, `EvalOutcome`, `Forwarded` | `Submission`, `Interpret`, `Eval`, `JavaCommandSubmitted`, `OtherInputSubmittedTrimmed`, `MissingClassName` |
| `Orchestration.Broadcast` | `BroadcastNotifiesEach`, `NotifyListeners` |
| `Orchestration.Agreed`, `Consulted` | `AgreedIffAll`, `ConsultedUntilRefusal`, `PollListeners` |
| `Orchestration.RemoveFirst` | `RemoveFirstAt`, `RemoveAbsent`, `RemoveFirstMultiset`, `RemoveUndoesAdd` |
| `Orchestration.MayAbandon`, `AbandonQueries` | `CanAbandonFile`, `NewFile`, `OpenFile`, `Quit` |
| `Orchestration.SaveTarget`, `SavedDocument`, `SavedDisk`, `SaveEvents`, `Reaction` | `SaveStoresText`, `SaveFile`, `SaveFileAs`, `SaveBeforeProceeding`, `SaveThenOpen` |
| `Orchestration.CompileLookup`, `CompileEvents`, `CompileFault`, `CompileErrorsAfter` | `FoundHasFile`, `CompileNotificationOrder`, `CompileStopsOnLookupFailure`, `CompileSavedDocument`, `StartCompile` |
| `Orchestration.ResetArguments`, `RootClassPath` | `FallbackAddsNoClassPath`, `ResetInteractions`, `ResetInteractionsWith` |

## Model

| member | source | states |
|---|---|---|
| `JavaText.TrimStart` | drjava/src/edu/rice/cs/drjava/model/repl/InteractionsDocument.java:77 | the result is the suffix that begins after the leading characters `<= ' '`, and it begins with a character above `' '` |
| `JavaText.TrimEnd` | drjava/src/edu/rice/cs/drjava/model/repl/InteractionsDocument.java:77 | the result is the prefix that stops before the trailing characters `<= ' '`, and it ends with a character above `' '` |
| `JavaText.Trim` | drjava/src/edu/rice/cs/drjava/model/repl/InteractionsDocument.java:77 | the trimmed text is no longer than the input, and neither end is a blank |
| `JavaText.TrimPadded` | drjava/src/edu/rice/cs/drjava/model/repl/InteractionsDocument.java:77 | trimming any blank padding around text with non-blank ends gives back exactly that text |
| `JavaText.TrimIdempotent` | drjava/src/edu/rice/cs/drjava/model/repl/InteractionsDocument.java:77 | trimming twice is trimming once |
| `JavaText.IndexOf` | drjava/src/edu/rice/cs/drjava/GlobalModel.java:360-366 | the result is -1 when the character does not occur from `from` on; otherwise it is its first occurrence there |
| `JavaText.WordLength` | drjava/src/edu/rice/cs/drjava/model/repl/InteractionsDocument.java:148-154 | the length of the leading run of non-delimiters; the character after it, if any, is a delimiter |
| `JavaText.Tokenize` | drjava/src/edu/rice/cs/drjava/model/repl/InteractionsDocument.java:148-154 | every token is non-empty and free of delimiters |
| `JavaText.TokenizeBlanks` | drjava/src/edu/rice/cs/drjava/model/repl/InteractionsDocument.java:148-151 | text made only of delimiters has no token |
| `JavaText.TokenizeWordFirst` | drjava/src/edu/rice/cs/drjava/model/repl/InteractionsDocument.java:148-154 | a word followed by a delimiter is the first token, and the rest is tokenized as before |
| `JavaText.TokenizeSkipsBlanks` | drjava/src/edu/rice/cs/drjava/model/repl/InteractionsDocument.java:148-154 | delimiters in front of the text are skipped: they add no token and split none |
| `JavaText.TokenizeSpaced` | drjava/src/edu/rice/cs/drjava/model/repl/InteractionsDocument.java:148-154 | words separated by any non-empty runs of delimiters tokenize back to exactly those words, in order |
| `Interactions.Normalised` | drjava/src/edu/rice/cs/drjava/model/repl/InteractionsDocument.java:119-129 | a message starting with the DynamicJava parse-error signature becomes "Invalid syntax" (iff); any other message is kept |
| `Interactions.ResponseFraming` | drjava/src/edu/rice/cs/drjava/model/repl/InteractionsDocument.java:95-101 | every answer begins and ends with a newline; an exception's answer begins with "\nError in evaluation: " |
| `Interactions.SyntaxErrorReported` | drjava/src/edu/rice/cs/drjava/model/repl/InteractionsDocument.java:119-124 | a parse error is reported as "Invalid syntax", whatever follows the signature |
| `Interactions.DeleteSemicolon` | drjava/src/edu/rice/cs/drjava/model/repl/InteractionsDocument.java:167-170 | the result followed by the dropped character is the input |
| `Interactions.TestClassCall` | drjava/src/edu/rice/cs/drjava/model/repl/InteractionsDocument.java:142-165 | the two loops build exactly `MainCall`: class name, `.main(new String[]{`, the quoted arguments separated by commas, `});`; None when there is no second token |
| `Interactions.ClassCallRoundTrip` | drjava/src/edu/rice/cs/drjava/model/repl/InteractionsDocument.java:142-165 | `java Cls a b`, with any runs of delimiters between the words, is rewritten into a call of `Cls.main` with `a`, `b` quoted in order |
| `Interactions.MainCallOfWords` | drjava/src/edu/rice/cs/drjava/model/repl/InteractionsDocument.java:148-163 | for words separated by runs of delimiters, the second word is the class and the remaining words are the arguments, in order |
| `Interactions.QuoteArgsStep` | drjava/src/edu/rice/cs/drjava/model/repl/InteractionsDocument.java:157-162 | each pass of the second loop appends a comma (except before the first argument) and the next argument in double quotes |
| `Interactions.SemicolonIgnored` | drjava/src/edu/rice/cs/drjava/model/repl/InteractionsDocument.java:145-146 | one trailing semicolon does not change the rewrite |
| `Interactions.JavaCommandSubmitted` | drjava/src/edu/rice/cs/drjava/model/repl/InteractionsDocument.java:77-80 | a `java` command with any blank padding around it, a space after `java` and any runs of delimiters between the other words, reaches the interpreter as the main call |
| `Interactions.OtherInputSubmittedTrimmed` | drjava/src/edu/rice/cs/drjava/model/repl/InteractionsDocument.java:77-82 | other input reaches the interpreter trimmed and otherwise unchanged |
| `Interactions.SubmittedUntrimmed` | drjava/src/edu/rice/cs/drjava/model/repl/InteractionsDocument.java:77-80 | text with non-blank ends is submitted as it stands, or rewritten when it starts with "java " |
| `Interactions.MissingClassName` | drjava/src/edu/rice/cs/drjava/model/repl/InteractionsDocument.java:148-151 | "java" with only blanks before the semicolon: nothing reaches the interpreter, and the tokenizer's message-less exception is reported by its description |
| `Interactions.InteractionsDocument.constructor` | drjava/src/edu/rice/cs/drjava/model/repl/InteractionsDocument.java:23-26 | the pane holds the banner and the prompt (21 characters); everything before them is frozen |
| `Interactions.InteractionsDocument.InsertString` | drjava/src/edu/rice/cs/drjava/model/repl/InteractionsDocument.java:29-37 | an insertion below the frozen position is refused and changes nothing; an empty insertion changes nothing; otherwise the text is spliced in at the offset; the frozen part never changes |
| `Interactions.InteractionsDocument.Remove` | drjava/src/edu/rice/cs/drjava/model/repl/InteractionsDocument.java:40-47 | a removal that starts below the frozen position is refused; a removal of no characters changes nothing; otherwise exactly `len` characters go at the offset; the frozen part never changes |
| `Interactions.InteractionsDocument.Prompt` | drjava/src/edu/rice/cs/drjava/model/repl/InteractionsDocument.java:66-73 | appends "> " and freezes everything, so the editable text is empty and the frozen position grows |
| `Interactions.InteractionsDocument.Reset` | drjava/src/edu/rice/cs/drjava/model/repl/InteractionsDocument.java:50-60 | the text becomes banner plus prompt, frozen to its end, with a fresh interpreter (empty class path) |
| `Interactions.InteractionsDocument.AddClassPath` | drjava/src/edu/rice/cs/drjava/model/repl/InteractionsDocument.java:62-64 | the path is added at the end of the interpreter's class path |
| `Interactions.InteractionsDocument.SetPackageScope` | drjava/src/edu/rice/cs/drjava/GlobalModel.java:329 | the pane's package scope becomes the given name |
| `Interactions.InteractionsDocument.Eval` | drjava/src/edu/rice/cs/drjava/model/repl/InteractionsDocument.java:75-136 | the history is kept as a prefix, followed by the answer to the trimmed (or rewritten) editable text and a new prompt; exactly what `Submitted` yields is handed to the interpreter |
| `Interactions.InteractionsDocument.Interpret` | drjava/src/edu/rice/cs/drjava/model/repl/InteractionsDocument.java:76-82 | the outcome is the interpreter's answer to the submitted text, or the tokenizer's exception when the rewrite fails; it is recorded as evaluated only in the first case |
| `Interactions.InteractionsDocument.Submission` | drjava/src/edu/rice/cs/drjava/model/repl/InteractionsDocument.java:77-80 | the trimmed editable text, rewritten by `_testClassCall` when it starts with "java " |
| `Interactions.InteractionsDocument.AppendResponse` | drjava/src/edu/rice/cs/drjava/model/repl/InteractionsDocument.java:85-129 | appends "\n" + value + "\n" or "\n" for no result; for an exception, appends its message, or its description when the message is null |
| `Interactions.InteractionsDocument.AppendError` | drjava/src/edu/rice/cs/drjava/model/repl/InteractionsDocument.java:118-129 | appends "\nError in evaluation: ", then the normalised message, then a newline |
| `SourceRoots.ParentFile` | drjava/src/edu/rice/cs/drjava/GlobalModel.java:375-377 | the root has no parent; otherwise the parent plus the last name is the path |
| `SourceRoots.AbsolutePath` | drjava/src/edu/rice/cs/drjava/GlobalModel.java:326 | an absolute path: it starts with "/" |
| `SourceRoots.Climb` | drjava/src/edu/rice/cs/drjava/GlobalModel.java:372-399 | a root found by the climb lies exactly one level more above the directory than the stack has parts, and is a prefix of it |
| `SourceRoots.SourceRoot` | drjava/src/edu/rice/cs/drjava/GlobalModel.java:346-400 | an unsaved file gives the "unsaved file" InvalidPackageException; a root that is found is a proper ancestor of the file |
| `SourceRoots.DotPrefixesAreCuts` | drjava/src/edu/rice/cs/drjava/GlobalModel.java:359-367 | as written, the first loop pushes, in increasing length, the package name cut at each of its dots (prefixes starting at 0, not components) |
| `SourceRoots.ClimbFound` | drjava/src/edu/rice/cs/drjava/GlobalModel.java:372-399 | the climb finds root r iff the file's directories, going outwards, spell the stack from the top and sit directly below r |
| `SourceRoots.LayoutClimbs` | drjava/src/edu/rice/cs/drjava/GlobalModel.java:372-399 | a file laid out as root, then the stack's names, then one last name, climbs to that root |
| `SourceRoots.ClimbLayout` | drjava/src/edu/rice/cs/drjava/GlobalModel.java:372-399 | a climb that finds a root implies that layout |
| `SourceRoots.DirectoryComparedFirst` | drjava/src/edu/rice/cs/drjava/GlobalModel.java:370-389 | the whole package name is compared first, with the directory holding the file; a mismatch gives the source's message naming that directory and the whole name |
| `SourceRoots.SourceRootAsWritten` | drjava/src/edu/rice/cs/drjava/GlobalModel.java:346-400 | for a named package, a root is found iff the directories above the root spell the dot prefixes and then the whole package name |
| `SourceRoots.DefaultPackageRoot` | drjava/src/edu/rice/cs/drjava/GlobalModel.java:355-357 | for the default package, the root is the file's directory |
| `SourceRoots.SimplePackageAccepted` | drjava/src/edu/rice/cs/drjava/GlobalModel.java:359-399 | `root/p/Name.java` in package `p` gives `root` |
| `SourceRoots.DottedPackageRejected` | drjava/src/edu/rice/cs/drjava/GlobalModel.java:359-389 | as written, `root/a/b/Name.java` in package `a.b` is rejected: directory `b` does not match package name `a.b` |
| `SourceRoots.JoinHasSeparator` | drjava/src/edu/rice/cs/drjava/GlobalModel.java:360-367 | a name joined from two or more parts has a dot, so the first loop runs |
| `SourceRoots.Components` | drjava/src/edu/rice/cs/drjava/GlobalModel.java:392-393 | splitting at the dots gives at least one component |
| `SourceRoots.ComponentsOfJoin` | drjava/src/edu/rice/cs/drjava/GlobalModel.java:392-393 | splitting at the dots undoes joining dot-free parts with "." |
| `SourceRoots.IntendedAcceptsLayout` | drjava/src/edu/rice/cs/drjava/GlobalModel.java:392-399 | the component-wise lookup described by the comment after the loop accepts `root/a/b/Name.java` in package `a.b`, giving `root` |
| `Orchestration.BroadcastNotifiesEach` | drjava/src/edu/rice/cs/drjava/GlobalModel.java:422-429 | a notification reaches every listener once, in registration order |
| `Orchestration.AgreedIffAll` | drjava/src/edu/rice/cs/drjava/GlobalModel.java:408-417 | the poll is true iff every listener answers yes (both directions) |
| `Orchestration.ConsultedUntilRefusal` | drjava/src/edu/rice/cs/drjava/GlobalModel.java:408-417 | the listeners are asked in order; asking stops right after the first refusal, and otherwise everyone is asked |
| `Orchestration.RemoveFirstAt` | drjava/src/edu/rice/cs/drjava/GlobalModel.java:55-57 | `remove` deletes the first occurrence and keeps the order of the others |
| `Orchestration.RemoveAbsent` | drjava/src/edu/rice/cs/drjava/GlobalModel.java:55-57 | removing a listener that is not registered changes nothing |
| `Orchestration.RemoveFirstMultiset` | drjava/src/edu/rice/cs/drjava/GlobalModel.java:55-57 | a removal takes away exactly one occurrence, if there is one |
| `Orchestration.RemoveUndoesAdd` | drjava/src/edu/rice/cs/drjava/GlobalModel.java:47-57 | removing a listener just added (and not already there) restores the list |
| `Orchestration.SaveStoresText` | drjava/src/edu/rice/cs/drjava/GlobalModel.java:126-139 | a save that is not cancelled writes the text to the chosen file, leaves other files alone, binds the document to that file and clears its modified flag |
| `Orchestration.FoundHasFile` | drjava/src/edu/rice/cs/drjava/GlobalModel.java:349-353 | a source root is only found for a saved document |
| `Orchestration.CompileNotificationOrder` | drjava/src/edu/rice/cs/drjava/GlobalModel.java:194-212 | a successful compile notifies every listener of compileStarted, then every listener of compileEnded, consoleReset and interactionsReset, in that order |
| `Orchestration.CompileStopsOnLookupFailure` | drjava/src/edu/rice/cs/drjava/GlobalModel.java:194-221 | when the package lookup fails, the only notification is compileStarted |
| `Orchestration.FallbackAddsNoClassPath` | drjava/src/edu/rice/cs/drjava/GlobalModel.java:255-259 | after an invalid package, the interactions pane is reset to the default package and its class path gets nothing |
| `Orchestration.GlobalModel.constructor` | drjava/src/edu/rice/cs/drjava/GlobalModel.java:33-41 | an untitled, unmodified document; no listeners and no compile errors; a fresh, valid interactions pane holding banner and prompt, frozen at its end, with an empty class path |
| `Orchestration.GlobalModel.AddListener` | drjava/src/edu/rice/cs/drjava/GlobalModel.java:47-49 | the listener is appended |
| `Orchestration.GlobalModel.RemoveListener` | drjava/src/edu/rice/cs/drjava/GlobalModel.java:55-57 | the first occurrence is dropped; one occurrence fewer in the multiset |
| `Orchestration.GlobalModel.NotifyListeners` | drjava/src/edu/rice/cs/drjava/GlobalModel.java:422-429 | the loop appends exactly one notification per listener, in order |
| `Orchestration.GlobalModel.PollListeners` | drjava/src/edu/rice/cs/drjava/GlobalModel.java:408-417 | the loop's result is the AND of the answers; with `&&` short-circuiting, the listeners after the first refusal are not asked |
| `Orchestration.GlobalModel.CanAbandonFile` | drjava/src/edu/rice/cs/drjava/GlobalModel.java:297-308 | an unmodified document may always be abandoned, without asking anyone; a modified one may be abandoned iff all listeners agree |
| `Orchestration.GlobalModel.NewFile` | drjava/src/edu/rice/cs/drjava/GlobalModel.java:92-103 | if the document may be abandoned, it becomes untitled and newFileCreated is broadcast; otherwise nothing changes |
| `Orchestration.GlobalModel.SaveFileAs` | drjava/src/edu/rice/cs/drjava/GlobalModel.java:126-148 | a chosen file receives the text, the document is bound to it and unmodified, and fileSaved is broadcast; a cancellation changes nothing |
| `Orchestration.GlobalModel.SaveFile` | drjava/src/edu/rice/cs/drjava/GlobalModel.java:105-119 | a document with a file is saved to it without consulting the selector; an untitled one goes through the selector |
| `Orchestration.GlobalModel.OpenFile` | drjava/src/edu/rice/cs/drjava/GlobalModel.java:159-183 | if the document may be abandoned and a file is chosen, the document becomes that file's text, unmodified, and fileOpened is broadcast; a missing file is reported and changes nothing |
| `Orchestration.GlobalModel.SaveBeforeProceeding` | drjava/src/edu/rice/cs/drjava/GlobalModel.java:280-289 | only a modified document triggers saveBeforeProceeding(reason), followed by the save the listeners perform |
| `Orchestration.GlobalModel.GetSourceRoot` | drjava/src/edu/rice/cs/drjava/GlobalModel.java:346-400 | the two loops compute `SourceRoot` as written: the unsaved-file error, the default package, the prefix stack and the climb |
| `Orchestration.GlobalModel.EndCompile` | drjava/src/edu/rice/cs/drjava/GlobalModel.java:228-234 | compileEnded reaches every listener |
| `Orchestration.GlobalModel.ResetConsole` | drjava/src/edu/rice/cs/drjava/GlobalModel.java:266-277 | the console is emptied, then consoleReset is broadcast |
| `Orchestration.GlobalModel.ResetInteractionsWith` | drjava/src/edu/rice/cs/drjava/GlobalModel.java:322-336 | the pane is reset and valid, frozen at the end of banner and prompt; the root, if any, becomes its only class-path entry; the package scope is set; interactionsReset is broadcast |
| `Orchestration.GlobalModel.PackageAndSourceRoot` | drjava/src/edu/rice/cs/drjava/GlobalModel.java:203-204 | the declared package and the source root found for it, or the lookup's failure |
| `Orchestration.GlobalModel.ResetInteractions` | drjava/src/edu/rice/cs/drjava/GlobalModel.java:249-260 | with a valid package, the pane is reset (frozen at its end) with its name and root; with an invalid one, with ("", null); a missing ancestor escapes and changes nothing; the pane stays valid |
| `Orchestration.GlobalModel.CompileSavedDocument` | drjava/src/edu/rice/cs/drjava/GlobalModel.java:193-222 | success: compileStarted, the compile of the one file under the root, then compileEnded, consoleReset and interactionsReset, an empty console and a pane reset with the root and the package; invalid package: a single CompilerError(path, -1, -1, message, false), console and pane unchanged; unsaved: the null-file fault |
| `Orchestration.GlobalModel.LookupFailed` | drjava/src/edu/rice/cs/drjava/GlobalModel.java:214-221 | an invalid package of a saved file becomes the single CompilerError(path, -1, -1, message, false); for an unsaved file the catch block fails on the null file; a missing ancestor escapes; nothing else changes |
| `Orchestration.GlobalModel.CompileAndReset` | drjava/src/edu/rice/cs/drjava/GlobalModel.java:206-212 | one compilation of the file under the root, then the three notifications in order, an empty console and a valid pane reset with the root as its only class-path entry |
| `Orchestration.GlobalModel.StartCompile` | drjava/src/edu/rice/cs/drjava/GlobalModel.java:188-223 | save first if modified; if the document is still modified nothing else happens; otherwise the compile step runs on the saved document: on success the console is emptied and the pane is reset with the source root as its only class-path entry and the package as its scope; on a failed lookup console and pane are unchanged |
| `Orchestration.SaveThenOpen` | drjava/src/edu/rice/cs/drjava/GlobalModel.java:126-183 | saving to a file and opening it again gives back the same text, unmodified and bound to that file, with fileSaved then fileOpened broadcast and no listener asked |
| `Orchestration.GlobalModel.Quit` | drjava/src/edu/rice/cs/drjava/GlobalModel.java:239-244 | the program terminates iff the document may be abandoned |
| `Gaps.Gap.constructor` | drjava/src/edu/rice/cs/drjava/model/definitions/reducedmodel/GapTest.java:72-73 | a gap of the given size |
| `Gaps.Gap.GetSize` | drjava/src/edu/rice/cs/drjava/model/definitions/reducedmodel/GapTest.java:75-79 | the size read back is never negative |
| `Gaps.Grown` | drjava/src/edu/rice/cs/drjava/model/definitions/reducedmodel/GapTest.java:71-80 | the size never decreases, and it changes iff the amount is positive |
| `Gaps.Shrunk` | drjava/src/edu/rice/cs/drjava/model/definitions/reducedmodel/GapTest.java:85-96 | the size never increases, changes iff 0 < amount <= size, and never becomes negative |
| `Gaps.ShrinkUndoesGrow` | drjava/src/edu/rice/cs/drjava/model/definitions/reducedmodel/GapTest.java:71-96 | shrinking by what was just grown restores the size |
| `Gaps.GrowUndoesShrink` | drjava/src/edu/rice/cs/drjava/model/definitions/reducedmodel/GapTest.java:85-96 | growing by what was just shrunk restores the size, when the shrink applied |
| `Gaps.Gap.Grow` | drjava/src/edu/rice/cs/drjava/model/definitions/reducedmodel/GapTest.java:74-78 | the new size is `Grown(old size, delta)`, and it stays non-negative |
| `Gaps.Gap.Shrink` | drjava/src/edu/rice/cs/drjava/model/definitions/reducedmodel/GapTest.java:88-94 | the new size is `Shrunk(old size, delta)`, and it stays non-negative |
| `Gaps.TestGrow` | drjava/src/edu/rice/cs/drjava/model/definitions/reducedmodel/GapTest.java:71-80 | the sizes read back are 5, 5 and 1, as `testGrow` asserts |
| `Gaps.TestShrink` | drjava/src/edu/rice/cs/drjava/model/definitions/reducedmodel/GapTest.java:85-96 | the sizes read back are 2, 2, 1 and 1, as `testShrink` asserts |

## Left out

- **The interpreter, the compiler and the disk** are replaced by parameters and records:
  - the interpreter (DynamicJava) is a function from text to an outcome;
  - the compiler is the recorded `Compilation`, and the errors it returns are dropped, as the source drops them at line 207;
  - the disk is a map.
  - Because `reset` creates a fresh interpreter, its class path is the only interpreter state modelled.
- **Other I/O faults:**
  - An `IOException` other than a missing file, a failing writer, and the `BadLocationException`/`InternalError` paths are left out. The Swing document cannot raise them here.
  - The `requires` on `InsertString` and `Remove` are the cases where `PlainDocument` throws `BadLocationException`: a non-empty insertion past the end, or a removal of one or more characters that runs past the end.
- **Output with no effect on the model:** the beep on a refused edit, `printStackTrace`, and the debugging lines written to the console stream.
- **Files not in this model:** `gotoLine`, the getters and `isModifiedSinceSave`, and `DefinitionsDocument`/`DefinitionsEditorKit`. `DefinitionsDocument` is not part of this model. The package declaration is the function `packageOf`, and the document is only a file, a text and a modified flag.
- **`JUnitTestRunner` and `OrGUIAvailabilityComponentAdapter`** are not part of this model.
- Orchestration.GlobalModel.SaveBeforeProceeding: a listener that saves from inside its saveBeforeProceeding notification re-enters the model; here that save is applied after the notification loop, and at most one save is performed.
- **Paths:** they are absolute, and `getAbsolutePath` joins the names with "/"; relative paths and platform separators are not modelled.
- Gaps.Gap.constructor: requires a non-negative size; `Gap.java` is not part of this model, and its second argument, the token state, is not modelled.
- Gaps.Gap.Shrink: a shrink by exactly the current size empties the gap; the test does not pin this case down.
- Interactions.InteractionsDocument.SetPackageScope: the scope is kept as a field; its effect on later evaluations lives in the interpreter and is not modelled. `Reset` keeps the old scope although it stands for a fresh interpreter; every caller sets the scope right after a reset, so nothing observable differs.
- Orchestration.GlobalModel.Quit: `System.exit` is a flag; the process is not ended.
- Interactions.InteractionsDocument.InsertString: offsets, lengths and `frozenPos` count characters of `string`, which are Unicode scalar values; Swing counts UTF-16 code units, so offsets differ for text outside the Basic Multilingual Plane.
