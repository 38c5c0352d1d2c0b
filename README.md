# git-cc: a Dafny model of the commit wizard and its git error classifier

git-cc is a terminal wizard for writing conventional-commit headers. The user:

1. picks a change type ("feat", "fix", … ten in all) from a filterable list;
2. types an optional scope;
3. types a message.

The wizard then runs `git commit -m "<type>(<scope>): <message>"`. When the commit fails, it shows why and offers a retry.

This project models two parts of the program:

- **`pkg/git/git.go`**, as module `Git` (`git.dfy`). It covers:
  - `CommitError` with `Error`, `IsHook` and `GetDetails`;
  - the failure classifier `parseCommitError`;
  - `Commit` and `CommitWithResult`, which map what a `git commit` run produced to a `CommitResult`;
  - the parsing half of `GetStagedFiles`.

  Running git is not modelled. What a run produced arrives as a value: a `GitRun` with the exec error, if any, plus stdout and stderr. A listing run arrives as a `ListRun`. Everything the Go code does with those values is modelled.
- **`ui/model.go`**, as module `Ui` (`ui.dfy`). It covers:
  - the wizard state (`Model`) and `InitialModel`;
  - the `Update` transition function;
  - `buildCommitMessage` and `item.FilterValue`;
  - the rule for what the error screen shows;
  - `GetCommitResult`.

  The Go `Model` is a value type whose `Update` returns a changed copy. So the model is a datatype, and `Update` is a function from a model and a message to the next model, a command and the header handed to git, if any.

  Two things arrive as parameters of `Update`:
  - the `CommitResult` that `git.CommitWithResult` reports for that header;
  - a `Reply`: what the focused Bubble Tea widget makes of a message passed on to it (the list's new cursor, or the text input's new text).

  `CommitOutcomesWellFormed` proves that every result `Git.CommitWithResult` produces satisfies the assumption `UpdateKeepsInv` makes about outcomes. `Run` folds `Update` over a sequence of messages and ends the session at the first `Quit` command. The session lemmas are stated over `Run`.

Supporting files:

- `strings.dfy`: ASCII versions of the `strings` functions the code uses (`ToLower`, `Contains`, `TrimSpace`, `Split`), plus `Join`. Its round-trip lemmas are `JoinSplit` and `SplitJoin`.
- `wrappers.dfy`: `Option` and `Result`.

Three behaviours of the code are worth stating plainly, because they are easy to assume otherwise:

- **Default message.** With no keyword, `parseCommitError` takes the first line of the output, trimmed, and skips no line whatever it holds (`pkg/git/git.go:86-90`).
- **Warnings.** Any exec error is a failure. No warning line in the output turns a failed run into a success (`pkg/git/git.go:50-54`, `pkg/git/git.go:133-146`).
- **Quitting.** 'q' quits on every step, including the scope and message steps, so it cannot be typed there (`ui/model.go:147-148`). `Ui.QuitKeys` states this.

## Model

| member | source | states |
|---|---|---|
| Git.CommitError.Error | pkg/git/git.go:28-30 | The error text is "git commit failed: " followed by the whole message; the message can be read back from it |
| Git.ErrorDeterminesMessage | pkg/git/git.go:28-30 | Two errors with the same `Error()` text have the same message, so the text loses nothing |
| Git.IsHookIffHookMentioned | pkg/git/git.go:32-34 | `CommitError.IsHook` of a classified failure holds exactly when the lower-cased output contains "hook", and then its message is "Pre-commit hook failed" |
| Git.CommitError.GetDetails | pkg/git/git.go:36-41 | Details are the raw output whenever it is non-empty, else the message, so they are empty only when both are |
| Git.DetailsNeverEmpty | pkg/git/git.go:59-93 | The details of a classified failure are never empty; with no output the failure is Unknown with "Commit failed" |
| Git.ParseCommitError | pkg/git/git.go:59-93 | Output and exec error are kept. The reason is the first keyword rule that matches the lower-cased output, in the order hook, "nothing to commit", merge conflict (either phrase), "not a git repository"; each reason holds if and only if its keyword occurs and no earlier one does. A classified reason carries its fixed message; Unknown carries the trimmed first line, or "Commit failed" for empty output |
| Git.ParseCommitErrorFollowsRules | pkg/git/git.go:69-90 | The switch equals a walk down an ordered rule table (keywords, reason, message): first matching rule wins, no match gives the first-line default |
| Git.ClassificationIgnoresCase | pkg/git/git.go:67 | Outputs equal up to ASCII case get the same reason and, when classified, the same message |
| Git.ClassifyLowered | pkg/git/git.go:67 | Lower-casing the output before classifying changes nothing about the reason |
| Git.UnknownMessageIsFirstLine | pkg/git/git.go:86-90 | With no keyword, output made of a blank-padded line, optionally followed by a line break and more, yields exactly that line as message |
| Git.DefaultMessageShape | pkg/git/git.go:88 | The default message is one line with no white space at its ends and occurs in the output |
| Git.Commit | pkg/git/git.go:43-57 | No error exactly when the git run succeeded; on failure the error is ParseCommitError of the exec error and stdout followed by stderr |
| Git.CommitWithResult | pkg/git/git.go:131-152 | Success exactly when the run succeeded, then "Changes committed successfully" with empty details; on failure the classified message and GetDetails, which are never empty |
| Git.ParseStagedFiles | pkg/git/git.go:122-128 | Blank output gives no paths; otherwise the paths, none containing a line break, joined by line breaks are the trimmed output, one more than its line breaks |
| Git.StagedFilesRoundTrip | pkg/git/git.go:122-128 | A non-empty list of paths without line breaks, whose first path does not start and whose last path does not end with white space (TrimSpace would strip it), printed one per line with a final line break, parses back to the same list |
| Git.GetStagedFiles | pkg/git/git.go:112-129 | An exec error becomes "failed to get staged files: " plus its text; otherwise the parsed paths |
| Git.HookFailureExample | pkg/git/git_test.go:18-23 | "pre-commit hook failed" is a hook failure with message "Pre-commit hook failed" |
| Git.UpperCaseHookExample | pkg/git/git.go:67-72 | Upper-case "PRE-COMMIT HOOK FAILED" is a hook failure too |
| Git.HookOutranksExample | pkg/git/git.go:69-76 | Output mentioning both "nothing to commit" and "hook" is a hook failure |
| Git.NoChangesExample | pkg/git/git_test.go:24-29 | "nothing to commit" is NoChanges with "No changes to commit" |
| Git.MergeConflictExample | pkg/git/git_test.go:30-35 | "fix conflicts then run git commit" is MergeConflict with "Merge conflicts need to be resolved" |
| Git.NotInRepoExample | pkg/git/git_test.go:36-41 | "not a git repository" is NotInRepo with "Not in a git repository" |
| Git.UnknownErrorExample | pkg/git/git_test.go:42-47 | "some random error" is Unknown with that line as its message |
| Ui.Item.FilterValue | ui/model.go:23 | The filter text is the type, one blank, then the description; a blank-free type is its first word |
| Ui.FilterValueInjective | ui/model.go:23 | Items with blank-free types and the same filter text are the same item |
| Ui.CatalogTypes | ui/model.go:98-109 | The ten types are lower-case words, pairwise distinct |
| Ui.FilterValuesDistinct | ui/model.go:98-109 | No two catalog entries share a filter text |
| Ui.InitialModel | ui/model.go:97-134 | Type step, no error, no result, cursor on "feat", empty inputs, title "Select the type of change", filtering on, placeholders "scope (optional)" and "commit message"; satisfies the wizard invariant |
| Ui.GetCommitResult | ui/model.go:256-258 | Nothing before any attempt, otherwise the stored result; on an error screen satisfying the wizard invariant the result is a failure with details, and a successful result leaves the wizard on the message step |
| Ui.BuildCommitMessage | ui/model.go:247-254 | The header is the selected type, "(scope)" only when a scope was typed, ": " and the message |
| Ui.BuildCommitMessageParses | ui/model.go:247-254 | The header reads back as the selected type, the scope and the message (scope without ')') |
| Ui.HeaderRoundTrip | ui/model.go:249-253 | Parsing a header built from a type word and a scope without ')' gives back its three parts |
| Ui.HeaderParsed | ui/model.go:249-253 | Whatever parses as a header is the header of its parts |
| Ui.MessagePrompt | ui/model.go:223-231 | The message step's prompt followed by the typed message is exactly the header to be committed |
| Ui.ErrorScreen | ui/model.go:233-242 | Title first, retry hint last; with a result, its message next, and the details as a further block exactly when non-empty and different from the message |
| Ui.FailedCommitScreen | ui/model.go:235-239 | After a failed commit the screen repeats git's raw output exactly when it is non-empty and differs from the summary |
| Ui.Update | ui/model.go:140-210 | Commits exactly on Enter in the message step with a non-empty message, handing git the built header and recording its result; its own command is Quit exactly on ctrl+c, "q" or a successful commit (widget commands are abstracted); only Enter and "r" change the step; only the type step moves the cursor |
| Ui.Forward | ui/model.go:195-209 | A message passed on goes to the current step's widget only: the list takes the new cursor on the type step, the scope or the message input takes the new text on its step, and nothing else changes; the error screen has no widget, so the model stays as it was with no command |
| Ui.TypeAndScopeFixedWhileTyping | ui/model.go:140-210 | On the message step and the error screen no message changes the selected type or the scope |
| Ui.CommitOutcomesWellFormed | pkg/git/git.go:131-152 | Every result CommitWithResult builds has the shape the wizard invariant expects |
| Ui.UpdateKeepsInv | ui/model.go:140-210 | Update preserves the wizard invariant: widget configuration, error flag iff error step, focus per step, a failed result on the error screen |
| Ui.RunKeepsInv | ui/model.go:140-210 | A session that starts from a model satisfying the wizard invariant ends in a model that satisfies it too |
| Ui.UnhandledMessagesPassOn | ui/model.go:195-209 | Every message other than a quit key, Enter outside the error screen and "r" on the shown error screen goes to the current step's widget, exactly as Forward states (so "r" and other keys are typed into the scope and message inputs) |
| Ui.QuitKeys | ui/model.go:147-148 | ctrl+c and "q" quit from every step and change nothing |
| Ui.EnterAdvances | ui/model.go:152-161 | Enter moves type to scope (focusing it) and scope to message (moving focus), with a blink and no commit |
| Ui.EmptyMessageIgnored | ui/model.go:163-166 | Enter with an empty message changes nothing, returns no command and runs no commit |
| Ui.CommitAttempt | ui/model.go:168-177 | Enter with a message commits the header; failure opens the error screen with no command, success quits on the message step |
| Ui.Retry | ui/model.go:180-187 | "r" on the error screen returns to the focused message step with the error cleared, keeping type, scope, text and result |
| Ui.ErrorScreenIgnoresInput | ui/model.go:150-209 | On the error screen any message other than quit and "r", Enter included, changes nothing |
| Ui.RetryResendsHeader | ui/model.go:168-187 | Failing, retrying and pressing Enter again hands git the same header |
| Ui.RunAttemptsHeaders | ui/model.go:163-169 | Git is only handed headers with a catalog type and a non-empty message |
| Ui.SuccessIsLastAttempt | ui/model.go:171-177 | Every attempt before the last in a session failed |
| Ui.SuccessQuits | ui/model.go:177 | A session whose last attempt succeeded has quit |
| Ui.RunRecordsLastResult | ui/model.go:169 | After a session GetCommitResult is the outcome of its last attempt, or unchanged when none was made |
| Ui.BuildCommitMessageExample | ui/model_test.go:170-177 | "feat" with no scope and "add new feature" builds "feat: add new feature" |
| Ui.ScopedBuildCommitMessageExample | ui/model_test.go:179-185 | With scope "auth" it builds "feat(auth): add new feature" |
| Ui.FilterValueExample | ui/model_test.go:272-290 | The filter text of feat is "feat A new feature" |
| Ui.HappySession | ui/model.go:150-177 | Enter, Enter, typing and Enter on a successful git makes one attempt, "feat: add new feature", and quits |

## Left out

- Running processes (`exec.Command(...).Run()` in `Commit`, `GetStagedFiles`, `IsInGitRepo` and `IsGitRepository`) is not modelled: a run's outcome is an input value, and `IsInGitRepo`/`IsGitRepository` only report whether such a run failed.
- The branch of `CommitWithResult` for an error that is not a `CommitError` (`pkg/git/git.go:141-145`) is absent, because `Commit` only ever returns a `CommitError`.
- Ui.Run, Ui.SuccessIsLastAttempt, Ui.SuccessQuits: `Run` treats a Quit command as ending the session at once. In Bubble Tea, `tea.Quit` runs asynchronously, so key messages queued before its `QuitMsg` still reach `Update`; a second Enter pressed while git commits could start another attempt after a successful one. The model does not capture that.
- Ui.Update, Ui.Forward: a widget's own command is the single value `WidgetCmd` and is never Quit, although the list widget's own key map can return Quit (on "esc") on the type step; the sessions in the model therefore never end through a widget.
- `parseCommitError` is called with a nil error in the Go tests; here the exec error is always present, because `Commit` only classifies when `Run` failed.
- Git.ParseCommitError, Git.ParseStagedFiles: `strings.ToLower` and `strings.TrimSpace` work on Unicode in Go; the model lower-cases ASCII letters only and trims ASCII white space only (the staged-file listing is trimmed the same way, `pkg/git/git.go:123`, `pkg/git/git.go:127`).
- Ui.Update: the widgets' own behaviour (list navigation and filtering, text editing, cursor blinking, focus rendering) is not modelled; what a widget makes of a message arrives as a `Reply`, and the command it returns is the single value `WidgetCmd`.
- Ui.Update: key presses are reduced to the names the code tells apart (ctrl+c, enter, a typed character, any other key); the scope and message character limits (50 and 100) and widths are recorded as configuration but not enforced on `Reply` text.
- Window resizing only sizes the list (`ui/model.go:190-192`); the size is not part of the model.
- `View` is modelled for the error screen's content (`ErrorScreen`) and the message prompt (`MessagePrompt`) only; styling, padding and the list, scope and message widgets' own rendering are not.
- `itemListDelegate` (`ui/model.go:65-95`), `Init`, `main.go` and the integration tests are not part of this model.
- Ui.BuildCommitMessage: `list.SelectedItem()` can be nil while the filter hides every item, and the Go type assertion would then panic; the model always has a selected catalog entry (the cursor is a catalog index).
- Ui.BuildCommitMessageParses: the round trip needs a scope without ')', which the code does not check; a scope containing ')' yields a header that reads back differently.
