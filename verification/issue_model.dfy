/** The issue aggregate: comments, tag toggles, status and the issue itself, with the
    constructors, accessors, identity equality and the two appending mutators. */
module IssueModel {
  import opened Options
  import opened TimeFormat

  datatype Comment = Comment(creationTime: Tm, author: string, body: string, branch: string, id: string)

  datatype Tag = Tag(time: Tm, name: string, enabled: bool, author: string, changeId: string)

  /** One entry of an issue's timeline. */
  datatype Event = CommentEvent(comment: Comment) | TagEvent(tag: Tag)

  datatype Status = Status(name: string, lastChangeTime: Tm)

  datatype Issue = Issue(
    title: string,
    creationTime: Tm,
    author: string,
    body: string,
    id: string,
    events: seq<Event>,
    branch: string,
    status: Status)

  /** The branch recorded when the current branch cannot be determined. */
  const UnknownBranch := "<unknown>"

  /** Issues are equal when their ids are: nothing else is compared. */
  predicate SameIssue(a: Issue, b: Issue) {
    a.id == b.id
  }

  /** Identity equality is an equivalence relation that ignores every field but the id. */
  lemma SameIssueIsIdentity(a: Issue, b: Issue, c: Issue)
    ensures SameIssue(a, a)
    ensures SameIssue(a, b) ==> SameIssue(b, a)
    ensures SameIssue(a, b) && SameIssue(b, c) ==> SameIssue(a, c)
    ensures SameIssue(a, b) <==> a.(title := b.title, creationTime := b.creationTime, author := b.author,
                                     body := b.body, events := b.events, branch := b.branch,
                                     status := b.status) == b
  {
  }

  /** The source's own equality test: issues built from different texts but given the same
      id are equal, and an issue with another id is not. */
  lemma IssueEquality(i1: Issue, i2: Issue, i3: Issue)
    requires i1.title != i2.title && i1.body != i2.body && i1.author != i2.author
    requires i2.id == i1.id && i3.id != i1.id
    ensures SameIssue(i1, i2) && !SameIssue(i2, i3)
  {
  }

  /** `IssueStatus::default()`: the configured default status name at the empty time. */
  function DefaultStatus(defaultName: string): Status {
    Status(defaultName, EmptyTm)
  }

  /** `IssueComment::new`, with the clock, the current branch and the generated id as
      parameters. */
  function NewComment(author: string, body: string, now: Tm, currentBranch: Option<string>, id: string): Comment {
    Comment(now, author, body, currentBranch.GetOr(UnknownBranch), id)
  }

  /** `Issue::new`, with the clock, the current branch, the generated id and the configured
      default status name as parameters. */
  function NewIssue(title: string, body: string, author: string, now: Tm, currentBranch: Option<string>,
                    id: string, defaultName: string): (r: Issue)
    ensures r.title == title && r.body == body && r.author == author && r.id == id && r.creationTime == now
    ensures r.events == [] && r.status == DefaultStatus(defaultName)
    ensures currentBranch.None? ==> r.branch == UnknownBranch
    ensures currentBranch.Some? ==> r.branch == currentBranch.value
  {
    Issue(title, now, author, body, id, [], currentBranch.GetOr(UnknownBranch), DefaultStatus(defaultName))
  }

  /** The discriminator written in front of an event's payload. */
  function EventType(e: Event): (r: string)
    ensures r == "comment" || r == "tag"
    ensures r == "tag" <==> e.TagEvent?
  {
    match e
    case CommentEvent(_) => "comment"
    case TagEvent(_) => "tag"
  }

  /** The time of an event of either kind. */
  function EventTime(e: Event): Tm {
    match e
    case CommentEvent(c) => c.creationTime
    case TagEvent(t) => t.time
  }

  /** The id of an event of either kind. */
  function EventId(e: Event): string {
    match e
    case CommentEvent(c) => c.id
    case TagEvent(t) => t.changeId
  }

  /** The accessors read the fields each kind was built with. */
  lemma EventAccessors(c: Comment, t: Tag)
    ensures EventTime(CommentEvent(c)) == c.creationTime && EventId(CommentEvent(c)) == c.id
    ensures EventTime(TagEvent(t)) == t.time && EventId(TagEvent(t)) == t.changeId
  {
  }

  /** True when `r` is `i` with exactly `e` appended to its timeline and nothing else changed. */
  predicate AppendedOne(i: Issue, e: Event, r: Issue) {
    && |r.events| == |i.events| + 1
    && r.events[..|i.events|] == i.events
    && r.events[|i.events|] == e
    && r.(events := i.events) == i
  }

  /** `add_comment`: the comment goes at the end of the timeline. */
  function AddComment(i: Issue, c: Comment): (r: Issue)
    ensures AppendedOne(i, CommentEvent(c), r)
    ensures SameIssue(r, i)
  {
    i.(events := i.events + [CommentEvent(c)])
  }

  /** `add_tag`: the tag toggle goes at the end of the timeline. */
  function AddTag(i: Issue, t: Tag): (r: Issue)
    ensures AppendedOne(i, TagEvent(t), r)
    ensures SameIssue(r, i)
  {
    i.(events := i.events + [TagEvent(t)])
  }
}
