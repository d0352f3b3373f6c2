/**
 * `POST /api/git/push`: the commit message cleaned from the request, the
 * `git add` / `commit` / `rev-parse` / `push` sequence, and the two
 * decisions taken from git's answers: a failed commit that only reports
 * nothing to commit still goes on to push, and an empty branch name falls
 * back to `main`. Running git is outside the model: each invocation's
 * outcome is a parameter.
 */
module GitPush {
  import opened Wrappers
  import opened Text

  // ---------------------------------------------------------------------
  // The commit message
  // ---------------------------------------------------------------------

  predicate IsBreak(c: char) {
    c == '\r' || c == '\n'
  }

  predicate BreakFree(s: string) {
    forall k :: 0 <= k < |s| ==> !IsBreak(s[k])
  }

  /**
   * `.replace(/[\r\n]+/g, " ")`: each maximal run of line breaks becomes one
   * blank; the last break of a run writes it.
   */
  function ReplaceBreaks(s: string): (r: string)
    ensures BreakFree(r) && |r| <= |s|
  {
    if s == [] then []
    else if IsBreak(s[0]) then
      if |s| > 1 && IsBreak(s[1]) then ReplaceBreaks(s[1..]) else " " + ReplaceBreaks(s[1..])
    else [s[0]] + ReplaceBreaks(s[1..])
  }

  /** Text without line breaks is left as it is. */
  lemma {:induction false} ReplaceBreaksOfBreakFree(s: string)
    requires BreakFree(s)
    ensures ReplaceBreaks(s) == s
  {
    if s != [] {
      ReplaceBreaksOfBreakFree(s[1..]);
    }
  }

  /** Every character is white space. */
  predicate Blank(s: string) {
    forall k :: 0 <= k < |s| ==> IsSpace(s[k])
  }

  lemma BlankCons(c: char, s: string)
    ensures Blank([c] + s) <==> IsSpace(c) && Blank(s)
  {
    var t := [c] + s;
    if Blank(t) {
      assert IsSpace(t[0]);
      forall k | 0 <= k < |s| ensures IsSpace(s[k]) {
        assert s[k] == t[k + 1];
      }
    }
    if IsSpace(c) && Blank(s) {
      forall k | 0 <= k < |t| ensures IsSpace(t[k]) {
        if k > 0 {
          assert t[k] == s[k - 1];
        }
      }
    }
  }

  /** Line breaks are white space and so is the blank replacing them: blank text stays blank, and only blank text. */
  lemma {:induction false} ReplaceBreaksBlank(s: string)
    ensures Blank(ReplaceBreaks(s)) <==> Blank(s)
  {
    if s != [] {
      ReplaceBreaksBlank(s[1..]);
      BlankCons(s[0], s[1..]);
      assert [s[0]] + s[1..] == s;
      var t := ReplaceBreaks(s[1..]);
      if !IsBreak(s[0]) {
        BlankCons(s[0], t);
      } else if !(|s| > 1 && IsBreak(s[1])) {
        BlankCons(' ', t);
      }
    }
  }

  /** The longest commit message kept. */
  const MaxMessage := 140

  /** The message used when the request gives none. */
  function DefaultMessage(timestamp: string): string {
    "Update all changes " + timestamp
  }

  /** `String(value || "").replace(/[\r\n]+/g, " ").trim()`. */
  function CleanMessage(message: Option<string>): string {
    Trim(ReplaceBreaks(message.GetOr("")))
  }

  /**
   * `sanitizeCommitMessage`: a blank message becomes the default one, stamped
   * with `timestamp` (`new Date().toISOString()`); any other message loses
   * its line breaks and surrounding white space and is cut to 140
   * characters.
   */
  function SanitizeCommitMessage(message: Option<string>, timestamp: string): (r: string)
    ensures CleanMessage(message) == [] ==> r == DefaultMessage(timestamp)
    ensures CleanMessage(message) != [] ==>
      0 < |r| <= MaxMessage && |r| <= |CleanMessage(message)| && r == CleanMessage(message)[..|r|] && BreakFree(r) && !IsSpace(r[0])
    ensures 0 < |CleanMessage(message)| <= MaxMessage ==> r == CleanMessage(message)
    ensures |CleanMessage(message)| > MaxMessage ==> r == CleanMessage(message)[..MaxMessage]
  {
    var raw := CleanMessage(message);
    if raw == [] then DefaultMessage(timestamp)
    else
      TrimIsTrimmed(ReplaceBreaks(message.GetOr("")));
      CleanBreakFree(message);
      if |raw| <= MaxMessage then raw else raw[..MaxMessage]
  }

  /** Trimming keeps the text free of line breaks. */
  lemma CleanBreakFree(message: Option<string>)
    ensures BreakFree(CleanMessage(message))
  {
    var s := ReplaceBreaks(message.GetOr(""));
    var a := TrimIsSubstring(s);
    var t := CleanMessage(message);
    assert forall k :: 0 <= k < |t| ==> t[k] == s[a + k];
  }

  /** The default message is used exactly when the request's message is missing or all white space. */
  lemma DefaultExactlyWhenBlank(message: Option<string>)
    ensures CleanMessage(message) == [] <==> Blank(message.GetOr(""))
  {
    var s := message.GetOr("");
    ReplaceBreaksBlank(s);
    TrimEmptyIff(ReplaceBreaks(s));
    assert Blank(ReplaceBreaks(s)) <==> forall k :: 0 <= k < |ReplaceBreaks(s)| ==> IsSpace(ReplaceBreaks(s)[k]);
  }

  // ---------------------------------------------------------------------
  // git's answers
  // ---------------------------------------------------------------------

  /** The outcome of one `git` invocation: its standard output, or the rejected error's outputs. */
  datatype GitRun = Succeeded(stdout: string) | Failed(errStdout: Option<string>, errStderr: Option<string>)

  /** `${error.stdout || ""}\n${error.stderr || ""}`. */
  function FailureText(run: GitRun): string
    requires run.Failed?
  {
    run.errStdout.GetOr("") + "\n" + run.errStderr.GetOr("")
  }

  /** `s.includes(p)`, scanning from the left. */
  predicate Includes(s: string, p: string)
    decreases |s|
  {
    OccursAt(s, p, 0) || (s != [] && Includes(s[1..], p))
  }

  /** The scan finds `p` exactly when `p` occurs somewhere in `s`. */
  lemma {:induction false} IncludesIsContains(s: string, p: string)
    ensures Includes(s, p) <==> Contains(s, p)
    decreases |s|
  {
    if s != [] {
      IncludesIsContains(s[1..], p);
      if Contains(s, p) && !OccursAt(s, p, 0) {
        var i :| 0 <= i <= |s| - |p| && OccursAt(s, p, i);
        assert s[1..][i - 1..i - 1 + |p|] == s[i..i + |p|];
        assert OccursAt(s[1..], p, i - 1);
      }
      if Contains(s[1..], p) {
        var i :| 0 <= i <= |s[1..]| - |p| && OccursAt(s[1..], p, i);
        assert s[i + 1..i + 1 + |p|] == s[1..][i..i + |p|];
        assert OccursAt(s, p, i + 1);
      }
    } else if Contains(s, p) {
      var i :| 0 <= i <= |s| - |p| && OccursAt(s, p, i);
      assert i == 0;
    }
  }

  /** The failed commit only reports that there was nothing to commit. */
  predicate NothingToCommit(run: GitRun)
    requires run.Failed?
  {
    Includes(FailureText(run), "nothing to commit") || Includes(FailureText(run), "working tree clean")
  }

  /** Neither phrase spans a line break, so it must appear in the standard output or in the error output. */
  lemma NothingToCommitIn(run: GitRun)
    requires run.Failed?
    ensures var out, err := run.errStdout.GetOr(""), run.errStderr.GetOr("");
      NothingToCommit(run) <==>
        Contains(out, "nothing to commit") || Contains(err, "nothing to commit") ||
        Contains(out, "working tree clean") || Contains(err, "working tree clean")
  {
    var out, err := run.errStdout.GetOr(""), run.errStderr.GetOr("");
    assert '\n' !in "nothing to commit" && '\n' !in "working tree clean";
    IncludesIsContains(FailureText(run), "nothing to commit");
    IncludesIsContains(FailureText(run), "working tree clean");
    ContainsAcrossSeparator(out, '\n', err, "nothing to commit");
    ContainsAcrossSeparator(out, '\n', err, "working tree clean");
  }

  /** `details || "Error desconocido"`, `details` being the trimmed outputs of the failure. */
  function ErrorDetails(run: GitRun): (r: string)
    requires run.Failed?
    ensures r != [] && Trimmed(r)
    ensures Trim(FailureText(run)) != [] ==> r == Trim(FailureText(run))
  {
    TrimIsTrimmed(FailureText(run));
    var details := Trim(FailureText(run));
    if details == [] then "Error desconocido" else details
  }

  /** `branchRes.stdout.trim() || "main"`. */
  function Branch(stdout: string): (r: string)
    ensures r != [] && Trimmed(r)
    ensures Trim(stdout) != [] ==> r == Trim(stdout)
    ensures Trim(stdout) == [] ==> r == "main"
  {
    TrimIsTrimmed(stdout);
    if Trim(stdout) == [] then "main" else Trim(stdout)
  }

  // ---------------------------------------------------------------------
  // The handler
  // ---------------------------------------------------------------------

  /** The JSON response of the handler. */
  datatype PushResponse =
    | Unauthorized
    | Pushed(committed: bool, branch: string, message: PushMessage)
    | PushFailed(details: string)

  /** The git invocations of the handler, in the order they are issued. */
  datatype GitCommand = Add | Reset | Commit(message: string) | RevParse | Push(branch: string)

  /** The argument vector each invocation hands to `git`. */
  function Args(c: GitCommand): (r: seq<string>)
    ensures |r| >= 2
  {
    match c
    case Add => ["add", "-A"]
    case Reset => ["reset", "HEAD", "--", ".dev.log", ".dev.out.log", ".dev.err.log"]
    case Commit(message) => ["commit", "-m", message]
    case RevParse => ["rev-parse", "--abbrev-ref", "HEAD"]
    case Push(branch) => ["push", "origin", branch]
  }

  /** The two success messages of the handler. */
  datatype PushMessage = CommittedAndPushed | PushedWithoutCommit

  /** The text each success message is sent as. */
  function MessageText(m: PushMessage): (r: string)
    ensures r != [] && Trimmed(r)
  {
    match m
    case CommittedAndPushed => "Commit y push realizados"
    case PushedWithoutCommit => "Sin cambios para commit, push realizado"
  }

  /**
   * `POST`: outside development a valid session token is required; the
   * request's message is sanitized and the git steps run with it.
   */
  method Post(production: bool, tokenValid: bool, message: Option<string>, timestamp: string,
              add: GitRun, commit: GitRun, revParse: GitRun, push: GitRun)
    returns (resp: PushResponse, commands: seq<GitCommand>)
    ensures resp.Unauthorized? <==> production && !tokenValid
    ensures resp.Unauthorized? ==> commands == []
    ensures !resp.Unauthorized? ==>
      Ran(SanitizeCommitMessage(message, timestamp), add, commit, revParse, push, resp, commands)
  {
    if production && !tokenValid {
      return Unauthorized, [];
    }
    resp, commands := Run(SanitizeCommitMessage(message, timestamp), add, commit, revParse, push);
  }

  /**
   * What the git steps of an authorised `POST` answer: pushed exactly when
   * every step succeeds, a failed commit that only reports nothing to commit
   * counting as success with `committed = false`; otherwise the first
   * failure, with that run's details, and the commands issued up to it.
   */
  predicate Ran(commitMessage: string, add: GitRun, commit: GitRun, revParse: GitRun, push: GitRun,
                resp: PushResponse, commands: seq<GitCommand>)
  {
    var settled := commit.Succeeded? || NothingToCommit(commit);
    !resp.Unauthorized? &&
    (resp.Pushed? <==> add.Succeeded? && settled && revParse.Succeeded? && push.Succeeded?) &&
    (resp.Pushed? ==>
      resp.committed == commit.Succeeded? &&
      resp.branch == Branch(revParse.stdout) &&
      resp.message == (if resp.committed then CommittedAndPushed else PushedWithoutCommit) &&
      commands == [Add, Reset, Commit(commitMessage), RevParse, Push(resp.branch)]) &&
    (add.Failed? ==>
      resp == PushFailed(ErrorDetails(add)) && commands == [Add]) &&
    (add.Succeeded? && !settled ==>
      resp == PushFailed(ErrorDetails(commit)) && commands == [Add, Reset, Commit(commitMessage)]) &&
    (add.Succeeded? && settled && revParse.Failed? ==>
      resp == PushFailed(ErrorDetails(revParse)) && commands == [Add, Reset, Commit(commitMessage), RevParse]) &&
    (add.Succeeded? && settled && revParse.Succeeded? && push.Failed? ==>
      resp == PushFailed(ErrorDetails(push)) &&
      commands == [Add, Reset, Commit(commitMessage), RevParse, Push(Branch(revParse.stdout))])
  }

  /**
   * The git steps of an authorised `POST`, issued in order; `commands`
   * lists the invocations (`Args` gives their argument vectors). The first
   * failure ends the request with that run's outputs as details, except
   * that a failed commit reporting nothing to commit continues. The `reset`
   * that unstages the log files may fail without consequence.
   */
  method Run(commitMessage: string, add: GitRun, commit: GitRun, revParse: GitRun, push: GitRun)
    returns (resp: PushResponse, commands: seq<GitCommand>)
    ensures Ran(commitMessage, add, commit, revParse, push, resp, commands)
  {
    if add.Failed? {
      return PushFailed(ErrorDetails(add)), [Add];
    }
    // the `reset` of the log files runs next; its failure is ignored
    if commit.Failed? && !NothingToCommit(commit) {
      return PushFailed(ErrorDetails(commit)), [Add, Reset, Commit(commitMessage)];
    }
    if revParse.Failed? {
      return PushFailed(ErrorDetails(revParse)), [Add, Reset, Commit(commitMessage), RevParse];
    }
    var branch := Branch(revParse.stdout);
    commands := [Add, Reset, Commit(commitMessage), RevParse, Push(branch)];
    if push.Failed? {
      return PushFailed(ErrorDetails(push)), commands;
    }
    var committed := commit.Succeeded?;
    resp := Pushed(committed, branch, if committed then CommittedAndPushed else PushedWithoutCommit);
  }
}
