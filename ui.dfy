/**
 * The four-step commit wizard of ui/model.go.
 *
 * The Go `Model` is a value: `Update` changes a copy and returns it with a
 * command, so the wizard is a datatype and `Update` a function from a model
 * and a message to the next model and a command.  What the Bubble Tea widgets
 * (the list and the two text inputs) make of a message that is handed on to
 * them, and what `git commit` does, are not modelled: both come in as values.
 */
module Ui {
  import opened Wrappers
  import opened Strings
  import Git

  // ---------------------------------------------------------------- the catalog

  /** One entry of the change-type list. */
  datatype Item = Item(commitType: string, description: string)
  {
    /**
     * The text the list's filter matches against: the type, a blank and the
     * description.  A type without blanks is the first word of it, and the
     * description is everything after that first blank.
     */
    function FilterValue(): (r: string)
      ensures |r| == |commitType| + 1 + |description|
      ensures r[..|commitType|] == commitType && r[|commitType|] == ' ' && r[|commitType| + 1..] == description
      ensures ' ' !in commitType ==> forall i :: 0 <= i < |commitType| ==> r[i] != ' '
    {
      commitType + " " + description
    }
  }

  /** The ten conventional-commit types offered, in the order shown. */
  const Catalog: seq<Item> := [
    Item("feat", "A new feature"),
    Item("fix", "A bug fix"),
    Item("docs", "Documentation only changes"),
    Item("style", "Changes that do not affect the meaning of the code"),
    Item("refactor", "A code change that neither fixes a bug nor adds a feature"),
    Item("perf", "A code change that improves performance"),
    Item("test", "Adding missing tests or correcting existing tests"),
    Item("build", "Changes that affect the build system or external dependencies"),
    Item("ci", "Changes to CI configuration files and scripts"),
    Item("chore", "Other changes that don't modify src or test files")
  ]

  /** A position of the list's cursor. */
  type CatalogIndex = i: int | 0 <= i < 10

  /** A type name: a non-empty word of lower-case ASCII letters. */
  predicate IsTypeName(t: string) {
    t != [] && forall i :: 0 <= i < |t| ==> 'a' <= t[i] <= 'z'
  }

  /** Every catalog type is a type name, and no two entries share a type. */
  lemma CatalogTypes()
    ensures |Catalog| == 10
    ensures forall i :: 0 <= i < |Catalog| ==> IsTypeName(Catalog[i].commitType)
    ensures forall i, j :: 0 <= i < j < |Catalog| ==> Catalog[i].commitType != Catalog[j].commitType
  {
    forall i | 0 <= i < |Catalog| ensures IsTypeName(Catalog[i].commitType) {
      LowerCaseWord(Catalog[i].commitType);
    }
    forall i, j | 0 <= i < j < |Catalog| ensures Catalog[i].commitType != Catalog[j].commitType {
      var a, b := Catalog[i].commitType, Catalog[j].commitType;
      assert a[0] != b[0] || (|a| > 1 && |b| > 1 && a[1] != b[1]) || |a| != |b|;
    }
  }

  lemma LowerCaseWord(t: string)
    requires t in ["feat", "fix", "docs", "style", "refactor", "perf", "test", "build", "ci", "chore"]
    ensures IsTypeName(t)
  {
  }

  /** Two entries whose types have no blank and whose filter texts agree are the same entry. */
  lemma FilterValueInjective(a: Item, b: Item)
    requires ' ' !in a.commitType && ' ' !in b.commitType
    requires a.FilterValue() == b.FilterValue()
    ensures a == b
  {
    var r := a.FilterValue();
    assert |a.commitType| == |b.commitType|;
    assert a.commitType == r[..|a.commitType|] == b.commitType;
  }

  /** The filter text tells the catalog entries apart. */
  lemma FilterValuesDistinct(i: CatalogIndex, j: CatalogIndex)
    requires Catalog[i].FilterValue() == Catalog[j].FilterValue()
    ensures i == j
  {
    CatalogTypes();
    assert IsTypeName(Catalog[i].commitType) && IsTypeName(Catalog[j].commitType);
    FilterValueInjective(Catalog[i], Catalog[j]);
  }

  // ---------------------------------------------------------------- the wizard state

  datatype Step = TypeSelect | Scope | Message | Error

  /** The part of the list widget the wizard uses. */
  datatype ListView = ListView(cursor: CatalogIndex, title: string, filteringEnabled: bool, showHelp: bool)

  /** The part of a text-input widget the wizard uses. */
  datatype TextInput = TextInput(value: string, focused: bool, placeholder: string, charLimit: nat, width: nat)

  datatype Model = Model(
    list: ListView,
    scope: TextInput,
    message: TextInput,
    step: Step,
    gitResult: Option<Git.CommitResult>,
    showError: bool)

  const ListTitle: string := "Select the type of change"
  const ScopeInput: TextInput := TextInput("", false, "scope (optional)", 50, 30)
  const MessageInput: TextInput := TextInput("", false, "commit message", 100, 50)

  /** The outcome of a commit attempt, as CommitWithResult builds it. */
  predicate WellFormedResult(r: Git.CommitResult) {
    (r.success ==> r == Git.CommitResult(true, Git.SuccessMessage, ""))
    && (!r.success ==> r.details != "")
  }

  /**
   * What holds of every model the wizard can reach: the widgets keep their
   * configuration, the error flag is set exactly on the error screen, which
   * always has a failed attempt to show, focus follows the step, nothing is
   * typed before its step, and a successful attempt leaves the wizard on the
   * message step.
   */
  predicate Inv(m: Model) {
    && m.list.title == ListTitle && m.list.filteringEnabled && m.list.showHelp
    && m.scope.(value := "", focused := false) == ScopeInput
    && m.message.(value := "", focused := false) == MessageInput
    && (m.step == Error <==> m.showError)
    && (m.gitResult.Some? ==> WellFormedResult(m.gitResult.value))
    && (m.gitResult.Some? && m.gitResult.value.success ==> m.step == Message)
    && match m.step
       case TypeSelect =>
         m.scope.value == "" && !m.scope.focused && m.message.value == "" && !m.message.focused
         && m.gitResult.None?
       case Scope =>
         m.scope.focused && m.message.value == "" && !m.message.focused && m.gitResult.None?
       case Message =>
         !m.scope.focused && m.message.focused
       case Error =>
         !m.scope.focused && m.message.focused && m.message.value != ""
         && m.gitResult.Some? && !m.gitResult.value.success
  }

  /** InitialModel: the type list with the cursor on "feat", nothing typed, no attempt yet. */
  function InitialModel(): (m: Model)
    ensures m.step == TypeSelect && !m.showError && m.gitResult == None && GetCommitResult(m) == None
    ensures Catalog[m.list.cursor].commitType == "feat"
    ensures m.scope.value == "" && m.message.value == ""
    ensures m.list.title == "Select the type of change" && m.list.filteringEnabled
    ensures m.scope.placeholder == "scope (optional)" && m.message.placeholder == "commit message"
    ensures Inv(m)
  {
    Model(ListView(0, ListTitle, true, true), ScopeInput, MessageInput, TypeSelect, None, false)
  }

  /** GetCommitResult: the outcome of the last commit attempt, if there was one. */
  function GetCommitResult(m: Model): (r: Option<Git.CommitResult>)
    ensures m.gitResult.None? ==> r.None?
    ensures m.gitResult.Some? ==> r == m.gitResult
    ensures Inv(m) && m.step == Error ==> r.Some? && !r.value.success && r.value.details != ""
    ensures Inv(m) && r.Some? && r.value.success ==> m.step == Message && r.value.message == Git.SuccessMessage
  {
    m.gitResult
  }

  // ---------------------------------------------------------------- the commit header

  /**
   * The header of a conventional commit: the type, the scope in parentheses
   * when there is one, a colon and a blank, then the description.
   */
  function Header(commitType: string, scope: string, description: string): (h: string)
    ensures scope == "" ==> h == commitType + ": " + description
    ensures scope != "" ==> h == commitType + "(" + scope + "): " + description
  {
    commitType + ScopePart(scope) + ": " + description
  }

  /** The scope as the header shows it: in parentheses, or nothing when no scope was typed. */
  function ScopePart(scope: string): string
  {
    if scope != "" then "(" + scope + ")" else ""
  }

  /** buildCommitMessage: the header for the selected type, the scope and the message typed. */
  function BuildCommitMessage(m: Model): (r: string)
    ensures m.scope.value == "" ==> r == Catalog[m.list.cursor].commitType + ": " + m.message.value
    ensures m.scope.value != "" ==> r == Catalog[m.list.cursor].commitType + "(" + m.scope.value + "): " + m.message.value
  {
    Header(Catalog[m.list.cursor].commitType, m.scope.value, m.message.value)
  }

  /** The header handed to git reads back as the type selected, the scope and the message typed. */
  lemma BuildCommitMessageParses(m: Model)
    requires ')' !in m.scope.value
    ensures ParseHeader(BuildCommitMessage(m))
      == Some(HeaderParts(Catalog[m.list.cursor].commitType, m.scope.value, m.message.value))
  {
    CatalogTypes();
    HeaderRoundTrip(Catalog[m.list.cursor].commitType, m.scope.value, m.message.value);
  }

  /** The prompt the message step shows in front of the text being typed. */
  function MessagePrompt(m: Model): (p: string)
    ensures p + m.message.value == BuildCommitMessage(m)
  {
    Catalog[m.list.cursor].commitType + ScopePart(m.scope.value) + ": "
  }

  datatype HeaderParts = HeaderParts(commitType: string, scope: string, description: string)

  /** Number of lower-case letters at the front of `s`. */
  function TypeLength(s: string): (n: nat)
    ensures n <= |s| && (n > 0 ==> IsTypeName(s[..n]))
    ensures n < |s| ==> !('a' <= s[n] <= 'z')
  {
    if s != [] && 'a' <= s[0] <= 'z' then
      var n := 1 + TypeLength(s[1..]);
      assert forall i :: 1 <= i < n ==> s[..n][i] == s[1..][..n - 1][i - 1];
      n
    else 0
  }

  /**
   * Reads a header back into its parts: a type name, then either ": " or a
   * non-empty scope up to the first ')' followed by ": ", then the description.
   */
  function ParseHeader(s: string): Option<HeaderParts>
  {
    var n := TypeLength(s);
    if n == 0 then None else ParseAfterType(s[..n], s[n..])
  }

  function ParseAfterType(commitType: string, rest: string): Option<HeaderParts>
  {
    if |rest| >= 2 && rest[..2] == ": " then Some(HeaderParts(commitType, "", rest[2..]))
    else if rest != [] && rest[0] == '(' then ParseScope(commitType, rest[1..])
    else None
  }

  function ParseScope(commitType: string, inner: string): Option<HeaderParts>
  {
    match IndexOf(inner, ')')
    case None => None
    case Some(j) =>
      var after := inner[j + 1..];
      if j > 0 && |after| >= 2 && after[..2] == ": " then Some(HeaderParts(commitType, inner[..j], after[2..]))
      else None
  }

  lemma {:induction false} TypeLengthOfWord(t: string, rest: string)
    requires IsTypeName(t) && (rest != [] ==> !('a' <= rest[0] <= 'z'))
    ensures TypeLength(t + rest) == |t|
    decreases |t|
  {
    assert (t + rest)[0] == t[0];
    assert (t + rest)[1..] == t[1..] + rest;
    if |t| > 1 {
      TypeLengthOfWord(t[1..], rest);
    } else {
      assert t[1..] + rest == rest;
    }
  }

  /** A header built from a type name and a scope without ')' reads back as its parts. */
  lemma HeaderRoundTrip(commitType: string, scope: string, description: string)
    requires IsTypeName(commitType) && ')' !in scope
    ensures ParseHeader(Header(commitType, scope, description)) == Some(HeaderParts(commitType, scope, description))
  {
    if scope == "" {
      var rest := ": " + description;
      assert Header(commitType, scope, description) == commitType + rest;
      ParseTypeThenRest(commitType, rest);
      assert rest[..2] == ": " && rest[2..] == description;
    } else {
      ScopedHeaderRoundTrip(commitType, scope, description);
    }
  }

  lemma ScopedHeaderRoundTrip(commitType: string, scope: string, description: string)
    requires IsTypeName(commitType) && ')' !in scope && scope != ""
    ensures ParseHeader(Header(commitType, scope, description)) == Some(HeaderParts(commitType, scope, description))
  {
    var after := ": " + description;
    var inner := scope + [')'] + after;
    assert Header(commitType, scope, description) == commitType + ("(" + inner);
    ParseTypeThenRest(commitType, "(" + inner);
    ParseAfterParen(commitType, inner);
    FirstPieceBeforeSeparator(scope, after, ')');
    assert after[2..] == description;
  }

  lemma ParseTypeThenRest(commitType: string, rest: string)
    requires IsTypeName(commitType) && (rest != [] ==> !('a' <= rest[0] <= 'z'))
    ensures ParseHeader(commitType + rest) == ParseAfterType(commitType, rest)
  {
    TypeLengthOfWord(commitType, rest);
    assert (commitType + rest)[..|commitType|] == commitType;
    assert (commitType + rest)[|commitType|..] == rest;
  }

  lemma ParseAfterParen(commitType: string, inner: string)
    ensures ParseAfterType(commitType, "(" + inner) == ParseScope(commitType, inner)
  {
    var rest := "(" + inner;
    assert rest[0] == '(' && rest[1..] == inner;
  }

  /** Whatever reads back as a header is exactly the header of its parts. */
  lemma HeaderParsed(s: string)
    requires ParseHeader(s).Some?
    ensures var p := ParseHeader(s).value;
      IsTypeName(p.commitType) && ')' !in p.scope && Header(p.commitType, p.scope, p.description) == s
  {
    var n := TypeLength(s);
    assert s == s[..n] + s[n..];
    AfterTypeParsed(s[..n], s[n..]);
  }

  lemma AfterTypeParsed(commitType: string, rest: string)
    requires ParseAfterType(commitType, rest).Some?
    ensures var p := ParseAfterType(commitType, rest).value;
      p.commitType == commitType && ')' !in p.scope && Header(commitType, p.scope, p.description) == commitType + rest
  {
    if |rest| >= 2 && rest[..2] == ": " {
      assert rest == ": " + rest[2..];
    } else {
      var inner := rest[1..];
      ParseAfterParen(commitType, inner);
      assert rest == "(" + inner;
      ScopeParsed(commitType, inner);
      var p := ParseScope(commitType, inner).value;
      ScopedHeader(commitType, p.scope, p.description);
    }
  }

  lemma ScopeParsed(commitType: string, inner: string)
    requires ParseScope(commitType, inner).Some?
    ensures var p := ParseScope(commitType, inner).value;
      p.commitType == commitType && p.scope != "" && ')' !in p.scope
      && inner == p.scope + ")" + ": " + p.description
  {
    var j := IndexOf(inner, ')').value;
    var after := inner[j + 1..];
    assert inner == inner[..j] + ")" + after;
    assert after == ": " + after[2..];
  }

  lemma ScopedHeader(commitType: string, scope: string, description: string)
    requires scope != ""
    ensures Header(commitType, scope, description) == commitType + ("(" + (scope + ")" + ": " + description))
  {
  }

  // ---------------------------------------------------------------- the error screen

  const ErrorTitle: string := "Commit Failed!"
  const RetryHint: string := "Press 'r' to retry or 'q' to quit"

  /** The error screen repeats the details only when they add something to the message. */
  predicate ShowsDetails(r: Git.CommitResult) {
    r.details != "" && r.details != r.message
  }

  /** The blocks of text on the error screen, top to bottom, without styling. */
  function ErrorScreen(result: Option<Git.CommitResult>): (blocks: seq<string>)
    ensures |blocks| >= 2 && blocks[0] == ErrorTitle && blocks[|blocks| - 1] == RetryHint
    ensures result.None? ==> |blocks| == 2
    ensures result.Some? ==>
      && blocks[1] == result.value.message
      && (|blocks| == 4 <==> ShowsDetails(result.value))
      && (|blocks| == 4 ==> blocks[2] == result.value.details)
      && |blocks| in {3, 4}
  {
    match result
    case None => [ErrorTitle, RetryHint]
    case Some(r) =>
      [ErrorTitle, r.message] + (if ShowsDetails(r) then [r.details] else []) + [RetryHint]
  }

  /**
   * After a failed commit the error screen shows git's raw output below the
   * summary exactly when git printed something other than the summary.
   */
  lemma FailedCommitScreen(run: Git.GitRun)
    requires run.err.Some?
    ensures var r := Git.CommitWithResult(run);
      var output := run.stdout + run.stderr;
      ShowsDetails(r) <==> output != "" && output != r.message
    ensures var r := Git.CommitWithResult(run);
      ShowsDetails(r) ==> r.details == run.stdout + run.stderr
  {
    var output := run.stdout + run.stderr;
    Git.DetailsNeverEmpty(run.err.value, output);
  }

  // ---------------------------------------------------------------- Update

  /**
   * The key presses Update tells apart, by the name Bubble Tea gives them:
   * "ctrl+c", "enter", a single typed character such as "q" or "r", and
   * every other key.
   */
  datatype KeyName = CtrlC | Enter | Rune(typed: char) | OtherKey

  /** A Bubble Tea message: a key press, a resize, or anything else. */
  datatype Msg = Key(key: KeyName) | WindowSize(width: int, height: int) | OtherMsg

  /**
   * What the widget of the current step makes of a message handed on to it:
   * the list's new cursor, or the focused text input's new text.
   */
  datatype Reply = Reply(cursor: CatalogIndex, text: string)

  /** The command returned with the next model. */
  datatype Cmd = Quit | Blink | NoCmd | WidgetCmd

  /** The next model, its command, and the header handed to `git commit` if one was. */
  datatype Transition = Transition(model: Model, cmd: Cmd, attempt: Option<string>)

  predicate IsQuitKey(msg: Msg) {
    msg == Key(CtrlC) || msg == Key(Rune('q'))
  }

  /**
   * Update: the next model and command for `msg`.  `outcome` is what
   * git.CommitWithResult reports for the header if Update commits it.
   */
  function Update(m: Model, msg: Msg, outcome: Git.CommitResult, reply: Reply): (t: Transition)
    ensures t.attempt.Some? <==> msg == Key(Enter) && m.step == Message && m.message.value != ""
    ensures t.attempt.Some? ==> t.attempt.value == BuildCommitMessage(m) && t.model.gitResult == Some(outcome)
    ensures t.attempt.None? ==> t.model.gitResult == m.gitResult
    ensures t.cmd == Quit <==> IsQuitKey(msg) || (t.attempt.Some? && outcome.success)
    ensures t.model.step != m.step ==> msg == Key(Enter) || msg == Key(Rune('r'))
    ensures t.model.list.cursor != m.list.cursor ==> m.step == TypeSelect
  {
    match msg
    case Key(k) =>
      if k == CtrlC || k == Rune('q') then
        Transition(m, Quit, None)
      else if k == Enter && m.step == TypeSelect then
        Transition(m.(step := Scope, scope := m.scope.(focused := true)), Blink, None)
      else if k == Enter && m.step == Scope then
        Transition(m.(step := Message, scope := m.scope.(focused := false), message := m.message.(focused := true)), Blink, None)
      else if k == Enter && m.step == Message then
        if m.message.value == "" then
          Transition(m, NoCmd, None)
        else
          var commitMsg := BuildCommitMessage(m);
          if !outcome.success then
            Transition(m.(gitResult := Some(outcome), step := Error, showError := true), NoCmd, Some(commitMsg))
          else
            Transition(m.(gitResult := Some(outcome)), Quit, Some(commitMsg))
      else if k == Rune('r') && m.step == Error && m.showError then
        Transition(m.(step := Message, message := m.message.(focused := true), showError := false), Blink, None)
      else
        Forward(m, reply)
    case WindowSize(_, _) => Forward(m, reply)
    case OtherMsg => Forward(m, reply)
  }

  /** The message goes on to the widget of the current step; the error screen has none. */
  function Forward(m: Model, reply: Reply): (t: Transition)
    ensures t.attempt.None? && t.model.step == m.step && t.model.gitResult == m.gitResult
    ensures t.cmd == (if m.step == Error then NoCmd else WidgetCmd)
    ensures m.step == TypeSelect ==> t.model == m.(list := m.list.(cursor := reply.cursor))
    ensures m.step == Scope ==> t.model == m.(scope := m.scope.(value := reply.text))
    ensures m.step == Message ==> t.model == m.(message := m.message.(value := reply.text))
    ensures m.step == Error ==> t.model == m
  {
    match m.step
    case TypeSelect => Transition(m.(list := m.list.(cursor := reply.cursor)), WidgetCmd, None)
    case Scope => Transition(m.(scope := m.scope.(value := reply.text)), WidgetCmd, None)
    case Message => Transition(m.(message := m.message.(value := reply.text)), WidgetCmd, None)
    case Error => Transition(m, NoCmd, None)
  }

  /** Every outcome git.CommitWithResult reports is well formed. */
  lemma CommitOutcomesWellFormed(run: Git.GitRun)
    ensures WellFormedResult(Git.CommitWithResult(run))
  {
  }

  /** Update preserves the wizard invariant. */
  lemma UpdateKeepsInv(m: Model, msg: Msg, outcome: Git.CommitResult, reply: Reply)
    requires Inv(m) && WellFormedResult(outcome)
    ensures Inv(Update(m, msg, outcome, reply).model)
  {
  }

  // ---------------------------------------------------------------- single transitions

  /**
   * Every message Update does not handle itself goes on to the widget of the
   * current step: any key other than quit, Enter outside the error screen, and
   * "r" on the error screen while the error is shown, and every resize or
   * other message.
   */
  lemma UnhandledMessagesPassOn(m: Model, msg: Msg, outcome: Git.CommitResult, reply: Reply)
    requires !IsQuitKey(msg)
    requires !(msg == Key(Enter) && m.step != Error)
    requires !(msg == Key(Rune('r')) && m.step == Error && m.showError)
    ensures Update(m, msg, outcome, reply) == Forward(m, reply)
  {
  }

  /** "ctrl+c" and "q" quit from every step and change nothing. */
  lemma QuitKeys(m: Model, msg: Msg, outcome: Git.CommitResult, reply: Reply)
    requires IsQuitKey(msg)
    ensures Update(m, msg, outcome, reply) == Transition(m, Quit, None)
  {
  }

  /** Enter on the type list opens the scope input; Enter there moves on to the message, scope or not. */
  lemma EnterAdvances(m: Model, outcome: Git.CommitResult, reply: Reply)
    requires m.step in {TypeSelect, Scope}
    ensures var t := Update(m, Key(Enter), outcome, reply);
      t.cmd == Blink && t.attempt.None?
      && (m.step == TypeSelect ==> t.model == m.(step := Scope, scope := m.scope.(focused := true)))
      && (m.step == Scope ==>
            t.model == m.(step := Message, scope := m.scope.(focused := false), message := m.message.(focused := true)))
  {
  }

  /** Enter with nothing typed stays put and calls no git. */
  lemma EmptyMessageIgnored(m: Model, outcome: Git.CommitResult, reply: Reply)
    requires m.step == Message && m.message.value == ""
    ensures Update(m, Key(Enter), outcome, reply) == Transition(m, NoCmd, None)
  {
  }

  /**
   * Enter with a message commits the header; a failure opens the error screen,
   * a success quits with the wizard left on the message step.
   */
  lemma CommitAttempt(m: Model, outcome: Git.CommitResult, reply: Reply)
    requires m.step == Message && m.message.value != ""
    ensures var t := Update(m, Key(Enter), outcome, reply);
      t.attempt == Some(BuildCommitMessage(m)) && t.model.gitResult == Some(outcome)
      && t.model.list == m.list && t.model.scope == m.scope && t.model.message == m.message
      && (!outcome.success ==> t.model.step == Error && t.model.showError && t.cmd == NoCmd)
      && (outcome.success ==> t.model.step == Message && t.model.showError == m.showError && t.cmd == Quit)
  {
  }

  /** "r" on the error screen goes back to the message step and keeps type, scope, message and result. */
  lemma Retry(m: Model, outcome: Git.CommitResult, reply: Reply)
    requires m.step == Error && m.showError
    ensures var t := Update(m, Key(Rune('r')), outcome, reply);
      t.model.step == Message && !t.model.showError && t.model.message.focused && t.cmd == Blink
      && t.model.list == m.list && t.model.scope == m.scope && t.model.message.value == m.message.value
      && t.model.gitResult == m.gitResult && t.attempt.None?
  {
  }

  /** On the error screen every other message, Enter included, changes nothing. */
  lemma ErrorScreenIgnoresInput(m: Model, msg: Msg, outcome: Git.CommitResult, reply: Reply)
    requires m.step == Error && !IsQuitKey(msg) && msg != Key(Rune('r'))
    ensures Update(m, msg, outcome, reply) == Transition(m, NoCmd, None)
  {
  }

  /**
   * Once the wizard is on the message step or the error screen, the type and
   * the scope are fixed: typing, committing, failing and retrying touch only
   * the message.
   */
  lemma TypeAndScopeFixedWhileTyping(m: Model, msg: Msg, outcome: Git.CommitResult, reply: Reply)
    requires m.step in {Message, Error}
    ensures var t := Update(m, msg, outcome, reply);
      t.model.list == m.list && t.model.scope == m.scope
  {
  }

  /**
   * A failed commit followed by "r" and Enter hands git the same header
   * again: the retry keeps everything the header is built from.
   */
  lemma {:induction false} RetryResendsHeader(m: Model, failed: Git.CommitResult, next: Git.CommitResult, reply: Reply)
    requires m.step == Message && m.message.value != "" && !failed.success
    ensures var t1 := Update(m, Key(Enter), failed, reply);
      var t2 := Update(t1.model, Key(Rune('r')), next, reply);
      var t3 := Update(t2.model, Key(Enter), next, reply);
      t1.model.step == Error && t2.model.step == Message
      && t1.attempt == Some(BuildCommitMessage(m)) && t3.attempt == t1.attempt
  {
    CommitAttempt(m, failed, reply);
    var t1 := Update(m, Key(Enter), failed, reply);
    Retry(t1.model, next, reply);
    var t2 := Update(t1.model, Key(Rune('r')), next, reply);
    assert BuildCommitMessage(t2.model) == BuildCommitMessage(m);
  }

  // ---------------------------------------------------------------- sessions

  /** One message of a session, with what git and the widget would make of it. */
  datatype Input = Input(msg: Msg, outcome: Git.CommitResult, reply: Reply)

  /** Where a session stands: the model, whether it has quit, and the commits attempted with their outcomes. */
  datatype Session = Session(model: Model, quit: bool, attempts: seq<string>, results: seq<Git.CommitResult>)

  /**
   * A session: each message in turn goes to Update, and the first Quit
   * command ends the session at once.
   */
  function Run(m: Model, inputs: seq<Input>): (s: Session)
    ensures |s.attempts| == |s.results|
    decreases |inputs|
  {
    if inputs == [] then Session(m, false, [], [])
    else
      var t := Update(m, inputs[0].msg, inputs[0].outcome, inputs[0].reply);
      var tried := if t.attempt.Some? then [t.attempt.value] else [];
      var got := if t.attempt.Some? then [inputs[0].outcome] else [];
      if t.cmd == Quit then Session(t.model, true, tried, got)
      else
        var rest := Run(t.model, inputs[1..]);
        Session(rest.model, rest.quit, tried + rest.attempts, got + rest.results)
  }

  /** Outcomes as git.CommitWithResult reports them. */
  predicate WellFormedOutcomes(inputs: seq<Input>) {
    forall i :: 0 <= i < |inputs| ==> WellFormedResult(inputs[i].outcome)
  }

  /** A session that starts from a model satisfying the wizard invariant ends in one that satisfies it too. */
  lemma {:induction false} RunKeepsInv(m: Model, inputs: seq<Input>)
    requires Inv(m) && WellFormedOutcomes(inputs)
    ensures Inv(Run(m, inputs).model)
    decreases |inputs|
  {
    if inputs != [] {
      var t := Update(m, inputs[0].msg, inputs[0].outcome, inputs[0].reply);
      UpdateKeepsInv(m, inputs[0].msg, inputs[0].outcome, inputs[0].reply);
      if t.cmd != Quit {
        assert WellFormedOutcomes(inputs[1..]) by {
          forall i | 0 <= i < |inputs[1..]| ensures WellFormedResult(inputs[1..][i].outcome) {
            assert inputs[1..][i] == inputs[i + 1];
          }
        }
        RunKeepsInv(t.model, inputs[1..]);
      }
    }
  }

  /** The header of a commit the wizard can attempt: a catalog type, any scope, a non-empty message. */
  ghost predicate IsWizardHeader(s: string) {
    exists i: CatalogIndex, scope: string, description: string ::
      description != "" && s == Header(Catalog[i].commitType, scope, description)
  }

  /** The header one Update hands to git has a catalog type and a non-empty message. */
  lemma UpdateAttemptsHeader(m: Model, msg: Msg, outcome: Git.CommitResult, reply: Reply)
    ensures var t := Update(m, msg, outcome, reply);
      t.attempt.Some? ==> IsWizardHeader(t.attempt.value)
  {
    var t := Update(m, msg, outcome, reply);
    if t.attempt.Some? {
      var w := m.list.cursor;
      assert t.attempt.value == Header(Catalog[w].commitType, m.scope.value, m.message.value);
    }
  }

  /** Git is only ever handed a header with a catalog type and a non-empty message. */
  lemma {:induction false} RunAttemptsHeaders(m: Model, inputs: seq<Input>)
    ensures forall k :: 0 <= k < |Run(m, inputs).attempts| ==> IsWizardHeader(Run(m, inputs).attempts[k])
    decreases |inputs|
  {
    if inputs != [] {
      var t := Update(m, inputs[0].msg, inputs[0].outcome, inputs[0].reply);
      UpdateAttemptsHeader(m, inputs[0].msg, inputs[0].outcome, inputs[0].reply);
      var tried := if t.attempt.Some? then [t.attempt.value] else [];
      var rest := if t.cmd == Quit then [] else Run(t.model, inputs[1..]).attempts;
      RunAttemptsUnfold(m, inputs);
      if t.cmd != Quit {
        RunAttemptsHeaders(t.model, inputs[1..]);
      }
      AllWizardHeaders(tried, rest);
    }
  }

  /** The attempts of a session: those of its first message, then those of the rest unless it quit. */
  lemma RunAttemptsUnfold(m: Model, inputs: seq<Input>)
    requires inputs != []
    ensures var t := Update(m, inputs[0].msg, inputs[0].outcome, inputs[0].reply);
      Run(m, inputs).attempts
        == (if t.attempt.Some? then [t.attempt.value] else [])
           + (if t.cmd == Quit then [] else Run(t.model, inputs[1..]).attempts)
  {
    var t := Update(m, inputs[0].msg, inputs[0].outcome, inputs[0].reply);
    if t.cmd == Quit {
      var tried := if t.attempt.Some? then [t.attempt.value] else [];
      assert tried + [] == tried;
    }
  }

  lemma AllWizardHeaders(a: seq<string>, b: seq<string>)
    requires forall k :: 0 <= k < |a| ==> IsWizardHeader(a[k])
    requires forall k :: 0 <= k < |b| ==> IsWizardHeader(b[k])
    ensures forall k :: 0 <= k < |a + b| ==> IsWizardHeader((a + b)[k])
  {
    forall k | 0 <= k < |a + b| ensures IsWizardHeader((a + b)[k]) {
      if k >= |a| {
        assert (a + b)[k] == b[k - |a|];
      }
    }
  }

  /** A successful commit is the last one a session attempts. */
  lemma {:induction false} SuccessIsLastAttempt(m: Model, inputs: seq<Input>)
    ensures forall k :: 0 <= k < |Run(m, inputs).results| - 1 ==> !Run(m, inputs).results[k].success
    decreases |inputs|
  {
    if inputs != [] {
      var t := Update(m, inputs[0].msg, inputs[0].outcome, inputs[0].reply);
      if t.cmd != Quit {
        SuccessIsLastAttempt(t.model, inputs[1..]);
        var rest := Run(t.model, inputs[1..]).results;
        var got := if t.attempt.Some? then [inputs[0].outcome] else [];
        var all := got + rest;
        assert Run(m, inputs).results == all;
        forall k | 0 <= k < |all| - 1 ensures !all[k].success {
          if k >= |got| {
            assert all[k] == rest[k - |got|];
          }
        }
      }
    }
  }

  /** A successful commit ends the session. */
  lemma {:induction false} SuccessQuits(m: Model, inputs: seq<Input>)
    ensures Run(m, inputs).results != [] && Run(m, inputs).results[|Run(m, inputs).results| - 1].success ==>
      Run(m, inputs).quit
    decreases |inputs|
  {
    if inputs != [] {
      var t := Update(m, inputs[0].msg, inputs[0].outcome, inputs[0].reply);
      if t.cmd != Quit {
        SuccessQuits(t.model, inputs[1..]);
      }
    }
  }

  /** GetCommitResult at the end of a session is the outcome of its last attempt. */
  lemma {:induction false} RunRecordsLastResult(m: Model, inputs: seq<Input>)
    ensures Run(m, inputs).results == [] ==> GetCommitResult(Run(m, inputs).model) == GetCommitResult(m)
    ensures Run(m, inputs).results != [] ==>
      GetCommitResult(Run(m, inputs).model) == Some(Run(m, inputs).results[|Run(m, inputs).results| - 1])
    decreases |inputs|
  {
    if inputs != [] {
      var t := Update(m, inputs[0].msg, inputs[0].outcome, inputs[0].reply);
      if t.cmd != Quit {
        RunRecordsLastResult(t.model, inputs[1..]);
        var got := if t.attempt.Some? then [inputs[0].outcome] else [];
        var rest := Run(t.model, inputs[1..]).results;
        assert Run(m, inputs).results == got + rest;
        if rest != [] {
          assert (got + rest)[|got + rest| - 1] == rest[|rest| - 1];
        }
      }
    }
  }

  // ---------------------------------------------------------------- the cases of model_test.go

  lemma BuildCommitMessageExample(m: Model)
    requires m.list.cursor == 0 && m.scope.value == "" && m.message.value == "add new feature"
    ensures BuildCommitMessage(m) == "feat: add new feature"
  {
  }

  lemma ScopedBuildCommitMessageExample(m: Model)
    requires m.list.cursor == 0 && m.scope.value == "auth" && m.message.value == "add new feature"
    ensures BuildCommitMessage(m) == "feat(auth): add new feature"
  {
    assert Catalog[0].commitType == "feat";
    assert "feat" + "(" + "auth" + "): " + "add new feature" == "feat(auth): add new feature";
  }

  lemma FilterValueExample()
    ensures Item("feat", "A new feature").FilterValue() == "feat A new feature"
  {
  }

  /**
   * A whole session: Enter on "feat", Enter with no scope, the message typed,
   * and Enter with git succeeding: the wizard quits after one attempt.
   */
  lemma HappySession(ok: Git.CommitResult, typed: Reply)
    requires ok.success && typed.text == "add new feature"
    ensures var s := Run(InitialModel(), [
        Input(Key(Enter), ok, typed), Input(Key(Enter), ok, typed),
        Input(Key(Rune('a')), ok, typed), Input(Key(Enter), ok, typed)]);
      s.quit && s.attempts == ["feat: add new feature"] && s.results == [ok]
  {
    var enter, typing := Input(Key(Enter), ok, typed), Input(Key(Rune('a')), ok, typed);
    var ins := [enter, enter, typing, enter];
    var m0 := InitialModel();
    var m1 := Update(m0, Key(Enter), ok, typed).model;
    var m2 := Update(m1, Key(Enter), ok, typed).model;
    var m3 := Update(m2, Key(Rune('a')), ok, typed).model;
    assert m3.message.value == "add new feature" && m3.list.cursor == 0 && m3.scope.value == "";
    BuildCommitMessageExample(m3);
    var last := Run(m3, [enter]);
    assert last.quit && last.attempts == ["feat: add new feature"] && last.results == [ok];
    assert ins[1..][1..][1..] == [enter];
    assert Run(m2, [typing, enter]) == last;
    assert ins[1..][1..] == [typing, enter];
    assert Run(m1, [enter, typing, enter]) == last;
    assert ins[1..] == [enter, typing, enter];
    assert Run(m0, ins) == last;
  }
}
