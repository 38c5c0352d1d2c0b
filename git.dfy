/**
 * The commit invoker and the commit-failure classifier of pkg/git/git.go.
 *
 * Running `git` is not modelled: what a run of `git commit -m <message>` (or
 * of `git diff --cached --name-only`) produced is given to the functions here
 * as a value, and everything the Go code then does with that value is modelled.
 */
module Git {
  import opened Wrappers
  import opened Strings

  /** ErrorType: the reason a commit failed. */
  datatype ErrorType = Unknown | HookFailed | NoChanges | MergeConflict | NotInRepo

  /** The Go `error` that exec.Cmd.Run returned (for instance "exit status 1"). */
  datatype ExecError = ExecError(text: string)

  /** What one run of `git commit -m <message>` produced. */
  datatype GitRun = GitRun(err: Option<ExecError>, stdout: string, stderr: string)

  /** CommitError: a classified failure of `git commit`. */
  datatype CommitError = CommitError(errorType: ErrorType, message: string, output: string, err: ExecError)
  {
    /** The text of the error, "git commit failed: <message>". */
    function Error(): (r: string)
      ensures |r| == |ErrorPrefix| + |message|
      ensures r[..|ErrorPrefix|] == ErrorPrefix && r[|ErrorPrefix|..] == message
    {
      ErrorPrefix + message
    }

    predicate IsHook() {
      errorType == HookFailed
    }

    /** The raw output of git when there is any, else the summary message. */
    function GetDetails(): (r: string)
      ensures output != "" ==> r == output
      ensures output == "" ==> r == message
      ensures r == "" ==> output == "" && message == ""
    {
      if output != "" then output else message
    }
  }

  const ErrorPrefix: string := "git commit failed: "

  const HookFailedMessage: string := "Pre-commit hook failed"
  const NoChangesMessage: string := "No changes to commit"
  const MergeConflictMessage: string := "Merge conflicts need to be resolved"
  const NotInRepoMessage: string := "Not in a git repository"
  const FallbackMessage: string := "Commit failed"
  const SuccessMessage: string := "Changes committed successfully"

  /** The summary message that goes with each classified (non-Unknown) reason. */
  function MessageOf(t: ErrorType): string
    requires t != Unknown
  {
    match t
    case HookFailed => HookFailedMessage
    case NoChanges => NoChangesMessage
    case MergeConflict => MergeConflictMessage
    case NotInRepo => NotInRepoMessage
  }

  /** Which of the failure keywords the lower-cased output contains. */
  predicate MentionsHook(output: string) { Contains(ToLower(output), "hook") }
  predicate MentionsNothingToCommit(output: string) { Contains(ToLower(output), "nothing to commit") }
  predicate MentionsConflict(output: string) {
    Contains(ToLower(output), "merge conflict") || Contains(ToLower(output), "conflicts then run git commit")
  }
  predicate MentionsNotARepository(output: string) { Contains(ToLower(output), "not a git repository") }

  /**
   * parseCommitError: classify the combined output of a failed commit.
   * The keyword tests run in a fixed order and the first one that holds
   * decides; with no keyword, the message is the first line of the output,
   * trimmed, or "Commit failed" when there is no output at all.
   */
  function ParseCommitError(err: ExecError, output: string): (e: CommitError)
    ensures e.output == output && e.err == err
    ensures e.errorType == HookFailed <==> MentionsHook(output)
    ensures e.errorType == NoChanges <==> !MentionsHook(output) && MentionsNothingToCommit(output)
    ensures e.errorType == MergeConflict <==>
      !MentionsHook(output) && !MentionsNothingToCommit(output) && MentionsConflict(output)
    ensures e.errorType == NotInRepo <==>
      !MentionsHook(output) && !MentionsNothingToCommit(output) && !MentionsConflict(output)
      && MentionsNotARepository(output)
    ensures e.errorType != Unknown ==> e.message == MessageOf(e.errorType)
    ensures e.errorType == Unknown && output == "" ==> e.message == FallbackMessage
    ensures e.errorType == Unknown && output != "" ==> e.message == TrimSpace(FirstLine(output))
  {
    var lowered := ToLower(output);
    if Contains(lowered, "hook") then
      CommitError(HookFailed, HookFailedMessage, output, err)
    else if Contains(lowered, "nothing to commit") then
      CommitError(NoChanges, NoChangesMessage, output, err)
    else if Contains(lowered, "merge conflict") || Contains(lowered, "conflicts then run git commit") then
      CommitError(MergeConflict, MergeConflictMessage, output, err)
    else if Contains(lowered, "not a git repository") then
      CommitError(NotInRepo, NotInRepoMessage, output, err)
    else
      CommitError(Unknown, if output != "" then TrimSpace(Split(output, '\n')[0]) else FallbackMessage, output, err)
  }

  /** Commit: nothing on success; on failure the classified combined stdout and stderr. */
  function Commit(run: GitRun): (r: Option<CommitError>)
    ensures r.None? <==> run.err.None?
    ensures r.Some? ==> r.value.output == run.stdout + run.stderr && r.value.err == run.err.value
    ensures r.Some? ==> r.value == ParseCommitError(run.err.value, run.stdout + run.stderr)
  {
    match run.err
    case None => None
    case Some(e) => Some(ParseCommitError(e, run.stdout + run.stderr))
  }

  /** CommitResult: what the wizard shows after a commit attempt. */
  datatype CommitResult = CommitResult(success: bool, message: string, details: string)

  /** CommitWithResult: the outcome of one commit attempt as the wizard sees it. */
  function CommitWithResult(run: GitRun): (r: CommitResult)
    ensures r.success <==> run.err.None?
    ensures r.success ==> r.message == SuccessMessage && r.details == ""
    ensures !r.success ==>
      var e := ParseCommitError(run.err.value, run.stdout + run.stderr);
      r.message == e.message && r.details == e.GetDetails()
    ensures !r.success ==> r.details != ""
  {
    match Commit(run)
    case None => CommitResult(true, SuccessMessage, "")
    case Some(e) =>
      DetailsNeverEmpty(e.err, e.output);
      CommitResult(false, e.message, e.GetDetails())
  }

  // ---------------------------------------------------------------- staged files

  /** What one run of `git diff --cached --name-only` produced. */
  datatype ListRun = ListRun(err: Option<ExecError>, stdout: string)

  /** The text-parsing half of GetStagedFiles. */
  function ParseStagedFiles(output: string): (files: seq<string>)
    ensures files == [] <==> AllSpace(output)
    ensures files != [] ==> Join(files, '\n') == TrimSpace(output)
    ensures files != [] ==> |files| == Count(TrimSpace(output), '\n') + 1
    ensures forall i :: 0 <= i < |files| ==> '\n' !in files[i]
  {
    if TrimSpace(output) == "" then []
    else
      JoinSplit(TrimSpace(output), '\n');
      SplitLength(TrimSpace(output), '\n');
      Split(TrimSpace(output), '\n')
  }

  /** GetStagedFiles: the staged paths, or the wrapped error of the git run. */
  function GetStagedFiles(run: ListRun): (r: Result<seq<string>, string>)
    ensures r.Err? <==> run.err.Some?
    ensures r.Err? ==> r.error == "failed to get staged files: " + run.err.value.text
    ensures r.Ok? ==> r.value == ParseStagedFiles(run.stdout)
  {
    match run.err
    case Some(e) => Err("failed to get staged files: " + e.text)
    case None => Ok(ParseStagedFiles(run.stdout))
  }

  // ---------------------------------------------------------------- properties

  /**
   * Listing the staged paths one per line, as `git diff --cached --name-only`
   * does, and parsing that listing gives back the paths.
   */
  lemma {:induction false} StagedFilesRoundTrip(files: seq<string>)
    requires files != [] && files[0] != [] && files[|files| - 1] != []
    requires !IsSpace(files[0][0]) && !IsSpace(files[|files| - 1][|files[|files| - 1]| - 1])
    requires forall i :: 0 <= i < |files| ==> '\n' !in files[i]
    ensures ParseStagedFiles(Join(files, '\n') + "\n") == files
  {
    var listing := Join(files, '\n');
    JoinEdges(files, '\n');
    assert "" + listing + "\n" == listing + "\n";
    TrimSpaceOfPadded("", listing, "\n");
    SplitJoin(files, '\n');
  }


  /**
   * The classification of a failed commit never has empty details: an empty
   * output leaves no keyword to find, so the message is the fallback text.
   */
  lemma DetailsNeverEmpty(err: ExecError, output: string)
    ensures ParseCommitError(err, output).GetDetails() != ""
    ensures output == "" ==> ParseCommitError(err, output) == CommitError(Unknown, FallbackMessage, "", err)
  {
    if output == "" {
      assert !Contains(ToLower(output), "hook");
      assert !Contains(ToLower(output), "nothing to commit");
      assert !Contains(ToLower(output), "merge conflict");
      assert !Contains(ToLower(output), "conflicts then run git commit");
      assert !Contains(ToLower(output), "not a git repository");
    }
  }

  /** IsHook holds exactly for failures whose output mentions a hook, whatever else it mentions. */
  lemma IsHookIffHookMentioned(err: ExecError, output: string)
    ensures ParseCommitError(err, output).IsHook() <==> MentionsHook(output)
    ensures ParseCommitError(err, output).IsHook() ==> ParseCommitError(err, output).message == HookFailedMessage
  {
  }

  /** Upper and lower case do not matter to the reason found. */
  lemma ClassificationIgnoresCase(err: ExecError, a: string, b: string)
    requires ToLower(a) == ToLower(b)
    ensures ParseCommitError(err, a).errorType == ParseCommitError(err, b).errorType
    ensures ParseCommitError(err, a).errorType != Unknown ==>
      ParseCommitError(err, a).message == ParseCommitError(err, b).message
  {
  }

  /** Classifying the lower-cased output finds the same reason. */
  lemma {:induction false} ClassifyLowered(err: ExecError, output: string)
    ensures ParseCommitError(err, ToLower(output)).errorType == ParseCommitError(err, output).errorType
  {
    assert ToLower(ToLower(output)) == ToLower(output);
    ClassificationIgnoresCase(err, ToLower(output), output);
  }

  /**
   * With no keyword in the output, the message is the first line with its
   * surrounding white space removed: a line padded with blanks and followed
   * by nothing or by a line break and further lines yields exactly that line.
   */
  lemma {:induction false} UnknownMessageIsFirstLine(err: ExecError, pre: string, line: string, post: string, tail: string)
    requires AllSpace(pre) && AllSpace(post) && '\n' !in pre + line + post
    requires line != [] ==> !IsSpace(line[0]) && !IsSpace(line[|line| - 1])
    requires tail == [] || tail[0] == '\n'
    requires pre + line + post + tail != []
    requires var o := pre + line + post + tail;
      !MentionsHook(o) && !MentionsNothingToCommit(o) && !MentionsConflict(o) && !MentionsNotARepository(o)
    ensures ParseCommitError(err, pre + line + post + tail) == CommitError(Unknown, line, pre + line + post + tail, err)
  {
    var first := pre + line + post;
    var o := first + tail;
    if tail == [] {
      assert o == first;
    } else {
      assert o == first + ['\n'] + tail[1..];
      FirstPieceBeforeSeparator(first, tail[1..], '\n');
    }
    assert Split(o, '\n')[0] == first;
    assert first == pre + line + post;
    TrimSpaceOfPadded(pre, line, post);
  }

  /**
   * The message of an unclassified failure with output is a single line, with
   * no white space at its ends, that occurs in the output.
   */
  lemma DefaultMessageShape(output: string)
    ensures '\n' !in TrimSpace(FirstLine(output))
    ensures var m := TrimSpace(FirstLine(output));
      m != [] ==> !IsSpace(m[0]) && !IsSpace(m[|m| - 1])
    ensures exists k: nat :: OccursAt(output, TrimSpace(FirstLine(output)), k)
  {
    var line := FirstLine(output);
    var m := TrimSpace(line);
    var k := LeadingSpaces(line);
    assert m == line[k..k + |m|];
    assert forall i :: 0 <= i < |m| ==> m[i] == line[k + i];
    assert line == output[..|line|];
    assert output[k..k + |m|] == line[k..k + |m|];
    assert OccursAt(output, m, k);
  }

  /** Error() keeps the whole message: two errors with the same text have the same message. */
  lemma ErrorDeterminesMessage(a: CommitError, b: CommitError)
    requires a.Error() == b.Error()
    ensures a.message == b.message
  {
    assert a.message == a.Error()[|ErrorPrefix|..];
  }

  // ---------------------------------------------------------------- the rule table

  /** One line of the classifier's ordered rule table. */
  datatype Rule = Rule(keywords: seq<string>, errorType: ErrorType, message: string)

  /** The rules in the order they are tried. */
  const Rules: seq<Rule> := [
    Rule(["hook"], HookFailed, HookFailedMessage),
    Rule(["nothing to commit"], NoChanges, NoChangesMessage),
    Rule(["merge conflict", "conflicts then run git commit"], MergeConflict, MergeConflictMessage),
    Rule(["not a git repository"], NotInRepo, NotInRepoMessage)
  ]

  function MatchesAny(lowered: string, keywords: seq<string>): bool
  {
    if keywords == [] then false
    else Contains(lowered, keywords[0]) || MatchesAny(lowered, keywords[1..])
  }

  /** The first rule, in table order, one of whose keywords occurs. */
  function FirstMatch(rules: seq<Rule>, lowered: string): (r: Option<Rule>)
    ensures r.Some? ==> r.value in rules && MatchesAny(lowered, r.value.keywords)
    ensures r.None? ==> forall i :: 0 <= i < |rules| ==> !MatchesAny(lowered, rules[i].keywords)
  {
    if rules == [] then None
    else if MatchesAny(lowered, rules[0].keywords) then Some(rules[0])
    else FirstMatch(rules[1..], lowered)
  }

  /** The classifier written as a walk down the rule table. */
  function ClassifyByRules(err: ExecError, output: string): CommitError
  {
    match FirstMatch(Rules, ToLower(output))
    case Some(rule) => CommitError(rule.errorType, rule.message, output, err)
    case None => CommitError(Unknown, if output == "" then FallbackMessage else TrimSpace(FirstLine(output)), output, err)
  }

  /** The first-match switch of parseCommitError agrees with the ordered rule table. */
  lemma ParseCommitErrorFollowsRules(err: ExecError, output: string)
    ensures ParseCommitError(err, output) == ClassifyByRules(err, output)
  {
    var l := ToLower(output);
    var r1, r2, r3 := Rules[1..], Rules[2..], Rules[3..];
    assert r1[0] == Rules[1] && r1[1..] == r2;
    assert r2[0] == Rules[2] && r2[1..] == r3;
    assert r3[0] == Rules[3] && r3[1..] == [];
    SingleKeyword(l, "hook");
    SingleKeyword(l, "nothing to commit");
    SingleKeyword(l, "conflicts then run git commit");
    SingleKeyword(l, "not a git repository");
    var conflict := Rules[2].keywords;
    assert conflict[1..] == ["conflicts then run git commit"];
    assert MatchesAny(l, conflict) == (Contains(l, "merge conflict") || Contains(l, "conflicts then run git commit"));
    assert FirstMatch(r3, l) == (if Contains(l, "not a git repository") then Some(Rules[3]) else FirstMatch([], l));
    assert FirstMatch(r2, l) == (if MatchesAny(l, conflict) then Some(Rules[2]) else FirstMatch(r3, l));
    assert FirstMatch(r1, l) == (if Contains(l, "nothing to commit") then Some(Rules[1]) else FirstMatch(r2, l));
    assert FirstMatch(Rules, l) == (if Contains(l, "hook") then Some(Rules[0]) else FirstMatch(r1, l));
  }

  lemma SingleKeyword(l: string, k: string)
    ensures MatchesAny(l, [k]) == Contains(l, k)
  {
    assert [k][1..] == [];
  }

  // ---------------------------------------------------------------- the cases of git_test.go

  lemma HookFailureExample(err: ExecError)
    ensures ParseCommitError(err, "pre-commit hook failed") == CommitError(HookFailed, HookFailedMessage, "pre-commit hook failed", err)
  {
    var o := "pre-commit hook failed";
    assert ToLower(o) == o by { LowerOfLowerCase(o); }
    assert Contains(o, "hook") by {
      ContainsPart("pre-commit ", "hook", " failed");
      assert "pre-commit " + "hook" + " failed" == o;
    }
  }

  /** Upper case in git's output does not hide the keyword. */
  lemma UpperCaseHookExample(err: ExecError)
    ensures ParseCommitError(err, "PRE-COMMIT HOOK FAILED").errorType == HookFailed
  {
    var l := "pre-commit hook failed";
    assert ToLower("PRE-COMMIT HOOK FAILED") == l;
    assert Contains(l, "hook") by {
      ContainsPart("pre-commit ", "hook", " failed");
      assert "pre-commit " + "hook" + " failed" == l;
    }
  }

  /** "hook" outranks every other keyword. */
  lemma HookOutranksExample(err: ExecError)
    ensures ParseCommitError(err, "nothing to commit (hook)").errorType == HookFailed
  {
    var o := "nothing to commit (hook)";
    assert ToLower(o) == o by { LowerOfLowerCase(o); }
    assert Contains(o, "hook") by {
      ContainsPart("nothing to commit (", "hook", ")");
      assert "nothing to commit (" + "hook" + ")" == o;
    }
  }

  lemma NoChangesExample(err: ExecError)
    ensures ParseCommitError(err, "nothing to commit") == CommitError(NoChanges, NoChangesMessage, "nothing to commit", err)
  {
    var o := "nothing to commit";
    assert ToLower(o) == o by { LowerOfLowerCase(o); }
    assert !Contains(o, "hook") by { MissingCharacter(o, "hook", 'k'); }
    assert Contains(o, o) by {
      ContainsPart("", o, "");
      assert "" + o + "" == o;
    }
  }

  lemma MergeConflictExample(err: ExecError)
    ensures ParseCommitError(err, "fix " + "conflicts then run git commit")
      == CommitError(MergeConflict, MergeConflictMessage, "fix " + "conflicts then run git commit", err)
  {
    ConflictHintHasConflictKeyword("fix " + "conflicts then run git commit");
  }

  /** The test's merge-conflict output: git's hint, with no earlier keyword. */
  lemma ConflictHintHasConflictKeyword(o: string)
    requires o == "fix " + "conflicts then run git commit"
    ensures ToLower(o) == o
    ensures !Contains(o, "hook") && !Contains(o, "nothing to commit") && Contains(o, "conflicts then run git commit")
  {
    LowerOfLowerCase(o);
    ConflictHintKeywords(o);
  }

  lemma ConflictHintKeywords(o: string)
    requires o == "fix " + "conflicts then run git commit"
    ensures !Contains(o, "hook") && !Contains(o, "nothing to commit") && Contains(o, "conflicts then run git commit")
  {
    MissingCharacter(o, "hook", 'k');
    AbsentByFirstPair(o, "nothing to commit");
    ContainsPart("fix ", "conflicts then run git commit", "");
    assert "fix " + "conflicts then run git commit" + "" == o;
  }

  lemma NotInRepoExample(err: ExecError)
    ensures ParseCommitError(err, "not a git repository") == CommitError(NotInRepo, NotInRepoMessage, "not a git repository", err)
  {
    var o := "not a git repository";
    NotInRepoLetters(o);
    WithoutKeywordLetters(o);
    ContainsItself(o);
  }

  /** The test's not-a-repository output is lower case and has neither a 'k' nor a 'c'. */
  lemma NotInRepoLetters(o: string)
    requires o == "not a git repository"
    ensures ToLower(o) == o && 'k' !in o && 'c' !in o
  {
    LowerOfLowerCase(o);
  }

  lemma UnknownErrorExample(err: ExecError)
    ensures ParseCommitError(err, "some random error") == CommitError(Unknown, "some random error", "some random error", err)
  {
    var o := "some random error";
    RandomErrorLetters(o);
    WithoutKeywordLetters(o);
    UnknownSingleLine(err, o);
  }

  /** The test's unknown output: one lower-case line without a 'k', a 'c' or a 'g'. */
  lemma RandomErrorLetters(o: string)
    requires o == "some random error"
    ensures ToLower(o) == o && 'k' !in o && 'c' !in o && 'g' !in o
    ensures o != [] && '\n' !in o && !IsSpace(o[0]) && !IsSpace(o[|o| - 1])
  {
    LowerOfLowerCase(o);
  }

  /** Output that is one line with no keyword and no surrounding blanks is its own message. */
  lemma UnknownSingleLine(err: ExecError, o: string)
    requires o != [] && '\n' !in o && !IsSpace(o[0]) && !IsSpace(o[|o| - 1])
    requires !MentionsHook(o) && !MentionsNothingToCommit(o) && !MentionsConflict(o) && !MentionsNotARepository(o)
    ensures ParseCommitError(err, o) == CommitError(Unknown, o, o, err)
  {
    assert "" + o + "" + "" == o;
    UnknownMessageIsFirstLine(err, "", o, "", "");
  }

  /**
   * Lower-case output without a 'k' or a 'c' mentions no hook, no empty
   * commit and no conflict; without a 'g' it does not mention a missing
   * repository either.
   */
  lemma WithoutKeywordLetters(o: string)
    requires ToLower(o) == o && 'k' !in o && 'c' !in o
    ensures !MentionsHook(o) && !MentionsNothingToCommit(o) && !MentionsConflict(o)
    ensures 'g' !in o ==> !MentionsNotARepository(o)
  {
    MissingCharacter(o, "hook", 'k');
    MissingCharacter(o, "nothing to commit", 'c');
    MissingCharacter(o, "merge conflict", 'c');
    MissingCharacter(o, "conflicts then run git commit", 'c');
    if 'g' !in o {
      MissingCharacter(o, "not a git repository", 'g');
    }
  }

  lemma ContainsItself(s: string)
    ensures Contains(s, s)
  {
    assert OccursAt(s, s, 0);
  }

  lemma ContainsPart(a: string, sub: string, b: string)
    ensures Contains(a + sub + b, sub)
  {
    assert (a + sub + b)[|a|..|a| + |sub|] == sub;
    assert OccursAt(a + sub + b, sub, |a|);
  }

  /** Lower-casing text that has no upper-case letter changes nothing. */
  lemma LowerOfLowerCase(s: string)
    requires forall i :: 0 <= i < |s| ==> !('A' <= s[i] <= 'Z')
    ensures ToLower(s) == s
  {
  }

  /** A keyword with a character the text lacks does not occur in it. */
  lemma MissingCharacter(s: string, sub: string, c: char)
    requires c in sub && c !in s
    ensures !Contains(s, sub)
  {
  }
}
