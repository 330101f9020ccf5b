/** The `comment` command: the argument fold that picks the issue id fragment, the refusal
    to go on without one, and the append of the edited comment to the matching issue. The
    editor, the issue files, the author lookup and `selection::update_issue` are outside
    the model; their outcomes arrive as parameters. */
module CommentCommand {
  import opened Options
  import opened TimeFormat
  import opened IssueModel
  import opened Timeline
  import opened Fsm

  datatype Flags = Flags(issueIdPart: Option<string>)

  const NoFlags := Flags(None)

  /** `std_handler`: every argument is taken as the id fragment, replacing any earlier one. */
  function StdHandler(flags: Flags, arg: string): (r: NextState<Flags>)
    ensures r.Continue? && r.state.issueIdPart == Some(arg)
  {
    Continue(flags.(issueIdPart := Some(arg)))
  }

  /** Folding the handler over the arguments leaves the last argument, if there is one. */
  lemma FoldGivesLastArg(args: seq<string>)
    ensures Run(StdHandler, NoFlags, args).issueIdPart ==
            (if |args| == 0 then None else Some(args[|args| - 1]))
  {
  }

  /** What the external editor left behind for the comment body. */
  datatype EditOutcome =
    | NotEdited           // the editor reported no edit
    | Unreadable          // the file could not be read back
    | Edited(text: string)

  /** The outcomes of the collaborators `comment_on_matching` calls: the author lookup, the
      clock, the current branch, the generated comment id and the editor. */
  datatype Environment = Environment(author: string, now: Tm, branch: Option<string>, commentId: string,
                                     edit: EditOutcome)

  /** The comment `comment_on_matching` builds from an edited body. */
  function EditedComment(env: Environment): (c: Comment)
    requires env.edit.Edited?
    ensures c.body == env.edit.text && c.author == env.author && c.creationTime == env.now
    ensures c.id == env.commentId
    ensures c.branch == env.branch.GetOr(UnknownBranch)
    ensures env.branch.None? ==> c.branch == "<unknown>"
  {
    NewComment(env.author, env.edit.text, env.now, env.branch, env.commentId)
  }

  /** `comment_on_matching`: with an edited, readable body the issue gains exactly one comment
      at the end of its timeline and nothing else changes; otherwise it comes back as it
      was. Either way it is the same issue. */
  function CommentOnMatching(matching: Issue, env: Environment): (r: Issue)
    ensures env.edit.Edited? ==> AppendedOne(matching, CommentEvent(EditedComment(env)), r)
    ensures !env.edit.Edited? ==> r == matching
    ensures SameIssue(r, matching)
  {
    match env.edit
    case Edited(text) =>
      var newEvents := matching.events + [CommentEvent(NewComment(env.author, text, env.now, env.branch, env.commentId))];
      matching.(events := newEvents)
    case _ => matching
  }

  /** The update the command hands to the issue selection. */
  function CommentStep(env: Environment): Issue -> Issue {
    m => CommentOnMatching(m, env)
  }

  /** Commenting is `add_comment` of the edited comment, so it leaves the tag state alone. */
  lemma CommentingKeepsTags(matching: Issue, env: Environment, name: string)
    ensures env.edit.Edited? ==> CommentOnMatching(matching, env) == AddComment(matching, EditedComment(env))
    ensures AllTags(CommentOnMatching(matching, env).events) == AllTags(matching.events)
    ensures MostRecentTagForName(CommentOnMatching(matching, env).events, name) ==
            MostRecentTagForName(matching.events, name)
  {
    if env.edit.Edited? {
      AddCommentKeepsTags(matching, EditedComment(env), name);
    }
  }

  /** `new_comment`. `stored` is what reading the issue files yields, `updateIssue` stands for
      `selection::update_issue` and `writeOk` for the outcome of writing the issues back.
      Without an id fragment the command fails with 1 before touching the issue files;
      otherwise it hands the last argument to the selection and writes its result, returning
      0 when the write succeeds and 1 when it fails. */
  method NewCommentCommand(args: seq<string>, stored: seq<Issue>,
                           updateIssue: (string, seq<Issue>, Issue -> Issue) -> seq<Issue>,
                           env: Environment, writeOk: bool)
    returns (exitCode: int, issuesRead: bool, written: Option<seq<Issue>>)
    ensures |args| == 0 ==> exitCode == 1 && !issuesRead && written == None
    ensures |args| > 0 ==>
              && issuesRead
              && written == Some(updateIssue(args[|args| - 1], stored, CommentStep(env)))
              && exitCode == (if writeOk then 0 else 1)
  {
    var finalFlags := Drive(StdHandler, NoFlags, args);
    FoldGivesLastArg(args);
    if finalFlags.issueIdPart.None? {
      exitCode, issuesRead, written := 1, false, None;
    } else {
      issuesRead := true;
      var updated := updateIssue(finalFlags.issueIdPart.value, stored, CommentStep(env));
      written := Some(updated);
      exitCode := if writeOk then 0 else 1;
    }
  }
}
