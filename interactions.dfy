/**
 * The interactions pane: a text buffer whose text before `frozenPos` is
 * history that the user may not edit, and the read-eval-print step that
 * takes the editable tail, hands it to the embedded interpreter and appends
 * the answer and a fresh prompt.
 *
 * The interpreter is an oracle: `Eval` receives the function that maps the
 * text handed over to what the interpreter did with it.
 */
module Interactions {
  import opened Options
  import opened JavaText

  const Banner: string := "Welcome to DrJava.\n"
  const PromptText: string := "> "
  /** What the rewrite of a "java" command puts around the quoted arguments. */
  const MainOpen: string := ".main(new String[]{"
  const MainClose: string := "});"
  const ErrorPrefix: string := "\nError in evaluation: "
  /** The start of the message DynamicJava gives a parse failure. */
  const SyntaxErrorSignature: string := "koala.dynamicjava.interpreter.InterpreterException: Encountered"
  /** toString() of the message-less exception a StringTokenizer throws when it runs out of tokens. */
  const NoSuchElement: string := "java.util.NoSuchElementException"
  /** What a parse failure is reported as. */
  const InvalidSyntax: string := "Invalid syntax"

  /** What the interpreter did with one piece of input. */
  datatype Outcome =
    | Value(shown: string)                                   // an object; shown is String.valueOf of it
    | NoResult                                               // JavaInterpreter.NO_RESULT: a statement
    | Thrown(message: Option<string>, description: string)   // an exception: getMessage() and toString()
    | ShowFailed(description: string)                        // String.valueOf threw; toString() of what it threw

  /** The message shown after "Error in evaluation: ": parse failures become "Invalid syntax". */
  function Normalised(message: string): (r: string)
    ensures StartsWith(message, SyntaxErrorSignature) <==> r == InvalidSyntax && message != InvalidSyntax
    ensures !StartsWith(message, SyntaxErrorSignature) ==> r == message
  {
    if StartsWith(message, SyntaxErrorSignature) then InvalidSyntax else message
  }

  /** The text eval appends before the new prompt. */
  function Response(o: Outcome): string {
    match o
    case Value(shown) => "\n" + shown + "\n"
    case NoResult => "\n"
    case Thrown(message, description) =>
      // A null message is replaced by the exception's own description.
      ErrorPrefix + Normalised(if message.Some? then message.value else description) + "\n"
    case ShowFailed(description) =>
      // Rethrown as new RuntimeException(t.toString()), whose message is that description.
      ErrorPrefix + Normalised(description) + "\n"
  }

  /** Every answer starts on a line of its own and leaves the next prompt at the start of a line. */
  lemma ResponseFraming(o: Outcome)
    ensures var r := Response(o); |r| >= 1 && r[0] == '\n' && r[|r| - 1] == '\n'
    ensures o.Thrown? || o.ShowFailed? ==> StartsWith(Response(o), ErrorPrefix)
  {
  }

  /** A parse failure is reported as invalid syntax, whatever else its message says. */
  lemma SyntaxErrorReported(rest: string, description: string)
    ensures Response(Thrown(Some(SyntaxErrorSignature + rest), description)) == ErrorPrefix + InvalidSyntax + "\n"
  {
    assert (SyntaxErrorSignature + rest)[..|SyntaxErrorSignature|] == SyntaxErrorSignature;
  }

  /** _deleteSemiColon: drops exactly the last character. */
  function DeleteSemicolon(s: string): (r: string)
    requires s != []
    ensures r + [s[|s| - 1]] == s
  {
    s[..|s| - 1]
  }

  function Quoted(arg: string): string {
    "\"" + arg + "\""
  }

  /** The arguments, each between double quotes and not escaped, separated by commas. */
  function QuoteArgs(args: seq<string>): string
    decreases |args|
  {
    if |args| == 0 then ""
    else if |args| == 1 then Quoted(args[0])
    else QuoteArgs(args[..|args| - 1]) + "," + Quoted(args[|args| - 1])
  }

  /** Quoting one more argument appends it after a comma, or alone when it is the first. */
  lemma QuoteArgsStep(args: seq<string>, k: nat)
    requires k < |args|
    ensures QuoteArgs(args[..k + 1]) == QuoteArgs(args[..k]) + (if k > 0 then "," else "") + Quoted(args[k])
  {
    assert args[..k + 1][..k] == args[..k];
  }

  lemma Regroup(h: string, a: string, b: string, c: string)
    ensures h + a + b + c == h + (a + b + c)
  {
  }

  /**
   * What _testClassCall turns "java Cls a b" into: Cls.main(new String[]{"a","b"});
   * None when the tokenizer runs out before the class name (a NoSuchElementException).
   */
  function MainCall(s: string): Option<string> {
    var body := if EndsWith(s, ";") then DeleteSemicolon(s) else s;
    var tokens := Tokenize(body);
    if |tokens| < 2 then None
    else Some(tokens[1] + MainOpen + QuoteArgs(tokens[2..]) + MainClose)
  }

  /** _testClassCall, with its two loops: one collects the arguments, one writes them out. */
  method TestClassCall(s: string) returns (call: Option<string>)
    ensures call == MainCall(s)
  {
    var body := s;
    if EndsWith(body, ";") {
      body := DeleteSemicolon(body);
    }
    var tokens := Tokenize(body);
    if |tokens| < 2 {
      // st.nextToken() throws: there is no class name.
      return None;
    }
    var argument := tokens[1];
    var args: seq<string> := [];
    var next := 2;
    while next < |tokens|
      invariant 2 <= next <= |tokens|
      invariant args == tokens[2..next]
    {
      args := args + [tokens[next]];
      next := next + 1;
    }
    argument := argument + MainOpen;
    ghost var head := argument;
    var k := 0;
    while k < |args|
      invariant 0 <= k <= |args|
      invariant argument == head + QuoteArgs(args[..k]) + (if 0 < k < |args| then "," else "")
    {
      QuoteArgsStep(args, k);
      Regroup(head, QuoteArgs(args[..k]), if k > 0 then "," else "", Quoted(args[k]));
      argument := argument + Quoted(args[k]);
      if k + 1 < |args| {
        argument := argument + ",";
      }
      k := k + 1;
    }
    assert args[..k] == args;
    assert args == tokens[2..];
    assert argument == tokens[1] + MainOpen + QuoteArgs(tokens[2..]);
    argument := argument + MainClose;
    call := Some(argument);
  }

  /** "java Cls a b", with any runs of delimiters between the words, is rewritten into a call of Cls.main with the arguments quoted in order. */
  lemma ClassCallRoundTrip(cls: string, args: seq<string>, gaps: seq<string>)
    requires IsWord(cls)
    requires forall i :: 0 <= i < |args| ==> IsWord(args[i])
    requires |gaps| == |args| + 1 && forall i :: 0 <= i < |gaps| ==> IsBlankRun(gaps[i])
    requires !EndsWith(Spaced(["java", cls] + args, gaps), ";")
    ensures MainCall(Spaced(["java", cls] + args, gaps)) == Some(cls + MainOpen + QuoteArgs(args) + MainClose)
  {
    var words := ["java", cls] + args;
    CommandWords(cls, args);
    MainCallOfWords(words, gaps);
    assert words[1] == cls && words[2..] == args;
  }

  /** The words of a "java" command are all tokens. */
  lemma CommandWords(cls: string, args: seq<string>)
    requires IsWord(cls)
    requires forall i :: 0 <= i < |args| ==> IsWord(args[i])
    ensures var words := ["java", cls] + args; forall i :: 0 <= i < |words| ==> IsWord(words[i])
  {
    var words := ["java", cls] + args;
    JavaIsWord();
    forall i | 0 <= i < |words| ensures IsWord(words[i]) {
      if i >= 2 { assert words[i] == args[i - 2]; }
    }
  }

  lemma JavaIsWord()
    ensures IsWord("java")
  {
    forall k | 0 <= k < 4 ensures !IsDelimiter("java"[k]) { }
  }

  /** MainCall reads the class name and the arguments off words separated by runs of delimiters. */
  lemma MainCallOfWords(words: seq<string>, gaps: seq<string>)
    requires |words| >= 2 && forall i :: 0 <= i < |words| ==> IsWord(words[i])
    requires |gaps| + 1 == |words| && forall i :: 0 <= i < |gaps| ==> IsBlankRun(gaps[i])
    requires !EndsWith(Spaced(words, gaps), ";")
    ensures MainCall(Spaced(words, gaps)) == Some(words[1] + MainOpen + QuoteArgs(words[2..]) + MainClose)
  {
    TokenizeSpaced(words, gaps);
  }

  /** Exactly one trailing semicolon is ignored. */
  lemma SemicolonIgnored(s: string)
    requires !EndsWith(s, ";")
    ensures MainCall(s + ";") == MainCall(s)
  {
    assert DeleteSemicolon(s + ";") == s;
  }

  /** The text handed to the interpreter for the editable text `pending`; None when the rewrite fails. */
  function Submitted(pending: string): Option<string> {
    var toEval := Trim(pending);
    if StartsWith(toEval, "java ") then MainCall(toEval) else Some(toEval)
  }

  /** What one eval step makes of the editable text. */
  function EvalOutcome(interpret: string -> Outcome, pending: string): Outcome {
    match Submitted(pending)
    case None => Thrown(None, NoSuchElement)
    case Some(toEval) => interpret(toEval)
  }

  /** What one eval step hands to the interpreter: nothing when the rewrite fails. */
  function Forwarded(pending: string): seq<string> {
    match Submitted(pending)
    case Some(toEval) => [toEval]
    case None => []
  }

  /**
   * A "java" command typed with any blank padding, a space right after "java"
   * and any runs of delimiters between the other words, reaches the
   * interpreter as a call of main.
   */
  lemma JavaCommandSubmitted(lead: string, cls: string, args: seq<string>, gaps: seq<string>, trail: string)
    requires forall k :: 0 <= k < |lead| ==> IsTrimmed(lead[k])
    requires forall k :: 0 <= k < |trail| ==> IsTrimmed(trail[k])
    requires IsWord(cls) && forall i :: 0 <= i < |args| ==> IsWord(args[i])
    requires |gaps| == |args| + 1 && forall i :: 0 <= i < |gaps| ==> IsBlankRun(gaps[i])
    requires gaps[0] != [] && gaps[0][0] == ' '
    requires var last := if args == [] then cls else args[|args| - 1];
      last != [] && !IsTrimmed(last[|last| - 1]) && last[|last| - 1] != ';'
    ensures Submitted(lead + Spaced(["java", cls] + args, gaps) + trail)
         == Some(cls + MainOpen + QuoteArgs(args) + MainClose)
  {
    var command := Spaced(["java", cls] + args, gaps);
    CommandEnds(cls, args, gaps);
    TrimPadded(lead, command, trail);
    ClassCallRoundTrip(cls, args, gaps);
  }

  /** A "java" command whose first gap starts with a space starts with "java " and ends with the last word's last character. */
  lemma CommandEnds(cls: string, args: seq<string>, gaps: seq<string>)
    requires cls != [] && forall i :: 0 <= i < |args| ==> args[i] != []
    requires |gaps| == |args| + 1 && gaps[0] != [] && gaps[0][0] == ' '
    ensures var command := Spaced(["java", cls] + args, gaps);
      var last := if args == [] then cls else args[|args| - 1];
      |command| >= 5 && command[..5] == "java " && command[0] == 'j' &&
      command[|command| - 1] == last[|last| - 1]
  {
    var words := ["java", cls] + args;
    var command := Spaced(words, gaps);
    var last := words[|words| - 1];
    assert last == if args == [] then cls else args[|args| - 1];
    SpacedLast(words, gaps);
    assert command[|command| - 1] == command[|command| - |last|..][|last| - 1];
    var rest := Spaced(words[1..], gaps[1..]);
    assert command == "java" + gaps[0] + rest;
    assert command[..5] == "java" + [gaps[0][0]];
  }

  /** Any other input reaches the interpreter trimmed and otherwise unchanged. */
  lemma OtherInputSubmittedTrimmed(pending: string)
    requires !StartsWith(Trim(pending), "java ")
    ensures Submitted(pending) == Some(Trim(pending))
  {
  }

  /**
   * "java ;" (or "java" and any blanks before the semicolon) names no class: the
   * tokenizer's exception is reported and nothing reaches the interpreter.
   */
  lemma MissingClassName(blanks: string, interpret: string -> Outcome)
    requires blanks != [] && blanks[0] == ' '
    requires forall k :: 0 <= k < |blanks| ==> IsDelimiter(blanks[k])
    ensures Submitted("java" + blanks + ";") == None
    ensures Response(EvalOutcome(interpret, "java" + blanks + ";")) == ErrorPrefix + NoSuchElement + "\n"
  {
    var command := "java" + blanks + ";";
    JavaPrefixed(blanks[1..] + ";");
    assert command == "java" + " " + (blanks[1..] + ";");
    SubmittedUntrimmed(command);
    CommandWithoutClassTokens(blanks);
    NoSuchElementReported();
  }

  lemma JavaPrefixed(rest: string)
    ensures StartsWith("java" + " " + rest, "java ")
  {
    assert ("java" + " " + rest)[..5] == "java" + " ";
  }

  /** Text with no blank at either end is submitted as it stands. */
  lemma SubmittedUntrimmed(command: string)
    requires command != [] && !IsTrimmed(command[0]) && !IsTrimmed(command[|command| - 1])
    ensures Submitted(command) == if StartsWith(command, "java ") then MainCall(command) else Some(command)
  {
    TrimPadded([], command, []);
    assert [] + command + [] == command;
  }

  /** The semicolon goes, and only "java" is left as a token. */
  lemma CommandWithoutClassTokens(blanks: string)
    requires blanks != [] && blanks[0] == ' '
    requires forall k :: 0 <= k < |blanks| ==> IsDelimiter(blanks[k])
    ensures MainCall("java" + blanks + ";") == None
  {
    var command := "java" + blanks + ";";
    assert EndsWith(command, ";");
    assert DeleteSemicolon(command) == "java" + blanks;
    JavaIsWord();
    TokenizeWordFirst("java", blanks);
    TokenizeBlanks(blanks);
  }

  lemma NoSuchElementReported()
    ensures Response(Thrown(None, NoSuchElement)) == ErrorPrefix + NoSuchElement + "\n"
  {
    assert !StartsWith(NoSuchElement, SyntaxErrorSignature);
  }

  /** The interactions document. */
  class InteractionsDocument {
    /** The whole text of the pane. */
    var text: string
    /** Index of the first editable character. */
    var frozenPos: nat
    /** Directories added to the current interpreter's class path, in order. */
    var classPath: seq<string>
    /** The package scope the orchestrator last set. */
    var packageScope: string
    /** Every text handed to an interpreter, in order. */
    var evaluated: seq<string>

    ghost predicate Valid()
      reads this`text, this`frozenPos
    {
      frozenPos <= |text|
    }

    /** The text the user is typing: everything after the frozen point. */
    function Editable(): string
      reads this`text, this`frozenPos
      requires Valid()
    {
      text[frozenPos..]
    }

    constructor ()
      ensures Valid()
      ensures text == Banner + PromptText && frozenPos == |text| == 21
      ensures classPath == [] && packageScope == "" && evaluated == []
    {
      text := [];
      frozenPos := 0;
      classPath := [];
      packageScope := "";
      evaluated := [];
      new;
      Reset();
    }

    /** insertString: refused in front of the frozen point, otherwise inserts at offs. */
    method InsertString(offs: int, str: string)
      requires Valid()
      requires frozenPos <= offs && str != [] ==> offs <= |text|
      modifies this`text
      ensures Valid()
      ensures offs < frozenPos || str == [] ==> text == old(text)
      ensures frozenPos <= offs && str != [] ==> text == old(text)[..offs] + str + old(text)[offs..]
      ensures text[..frozenPos] == old(text)[..frozenPos]
    {
      if offs < frozenPos {
        // The toolkit beeps; nothing changes.
      } else if str != [] {
        // The document ignores an empty insertion.
        text := text[..offs] + str + text[offs..];
      }
    }

    /** remove: refused in front of the frozen point, otherwise deletes len characters at offs. */
    method Remove(offs: int, len: int)
      requires Valid()
      requires frozenPos <= offs && len > 0 ==> offs + len <= |text|
      modifies this`text
      ensures Valid()
      ensures offs < frozenPos || len <= 0 ==> text == old(text)
      ensures frozenPos <= offs && len > 0 ==> text == old(text)[..offs] + old(text)[offs + len..]
      ensures text[..frozenPos] == old(text)[..frozenPos]
    {
      if offs < frozenPos {
        // The toolkit beeps; nothing changes.
      } else if len > 0 {
        // The document ignores a removal of no characters.
        text := text[..offs] + text[offs + len..];
      }
    }

    /** Appends the prompt and freezes everything before the new end. */
    method Prompt()
      requires Valid()
      modifies this`text, this`frozenPos
      ensures Valid()
      ensures text == old(text) + PromptText
      ensures frozenPos == |text| && Editable() == []
      ensures old(frozenPos) < frozenPos
    {
      text := text + PromptText;
      frozenPos := |text|;
    }

    /** Clears the pane, writes the banner and a prompt, and starts a new interpreter. */
    method Reset()
      modifies this`text, this`frozenPos, this`classPath
      ensures Valid()
      ensures text == Banner + PromptText && frozenPos == |text| == 21
      ensures classPath == []
    {
      text := [];
      text := text + Banner;
      frozenPos := 0;
      Prompt();
      classPath := [];
    }

    /** Adds a directory to the current interpreter's class path. */
    method AddClassPath(path: string)
      modifies this`classPath
      ensures classPath == old(classPath) + [path]
    {
      classPath := classPath + [path];
    }

    /** Records the package the interpreter's code is scoped to. */
    method SetPackageScope(packageName: string)
      modifies this`packageScope
      ensures packageScope == packageName
    {
      packageScope := packageName;
    }

    /**
     * eval: hands the trimmed (and possibly rewritten) editable text to the
     * interpreter, appends the answer or the error, then a new prompt.
     * The history, including what the user typed, is kept as a prefix.
     */
    method Eval(interpret: string -> Outcome)
      requires Valid()
      modifies this`text, this`frozenPos, this`evaluated
      ensures Valid()
      ensures text == old(text) + Response(EvalOutcome(interpret, old(Editable()))) + PromptText
      ensures frozenPos == |text| && old(frozenPos) < frozenPos
      ensures evaluated == old(evaluated) + Forwarded(old(Editable()))
    {
      var outcome := Interpret(interpret);
      AppendResponse(outcome);
      Prompt();
    }

    /** The try block of eval up to the interpreter's answer: trim, rewrite a "java" command, interpret. */
    method Interpret(interpret: string -> Outcome) returns (outcome: Outcome)
      requires Valid()
      modifies this`evaluated
      ensures outcome == EvalOutcome(interpret, old(Editable()))
      ensures evaluated == old(evaluated) + Forwarded(old(Editable()))
    {
      var call := Submission();
      if call.None? {
        // The tokenizer's exception reaches the catch block without a message.
        outcome := Thrown(None, NoSuchElement);
      } else {
        evaluated := evaluated + [call.value];
        outcome := interpret(call.value);
      }
    }

    /** The start of eval: the editable text, trimmed, and rewritten when it is a "java" command. */
    method Submission() returns (call: Option<string>)
      requires Valid()
      ensures call == Submitted(Editable())
    {
      var toEval := Trim(text[frozenPos..]);
      call := Some(toEval);
      if StartsWith(toEval, "java ") {
        call := TestClassCall(toEval);
      }
    }

    /** Appends the interpreter's answer, or the error the try block ended with. */
    method AppendResponse(outcome: Outcome)
      requires Valid()
      modifies this`text
      ensures Valid()
      ensures text == old(text) + Response(outcome)
    {
      match outcome {
        case Value(shown) =>
          text := text + ("\n" + shown + "\n");
        case NoResult =>
          text := text + "\n";
        case Thrown(message, description) =>
          AppendError(if message.Some? then message.value else description);
        case ShowFailed(description) =>
          AppendError(description);
      }
    }

    /** The catch block of eval: reports the message, or "Invalid syntax" for a parse failure. */
    method AppendError(message: string)
      requires Valid()
      modifies this`text
      ensures Valid()
      ensures text == old(text) + (ErrorPrefix + Normalised(message) + "\n")
    {
      if StartsWith(message, SyntaxErrorSignature) {
        text := text + (ErrorPrefix + InvalidSyntax + "\n");
      } else {
        text := text + (ErrorPrefix + message + "\n");
      }
    }
  }
}
