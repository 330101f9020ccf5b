/** The issue store's JSON codec: per-kind event encoders and decoders, the
    `[kind, payload]` timeline entry with its legacy bare-comment form, the status codec with
    its default fallback, and the versioned issue envelope. */
module IssueJson {
  import opened Options
  import opened Decimal
  import opened TimeFormat
  import opened JsonValue
  import opened IssueModel

  const BodyKey := "bodyText"
  const TimeKey := "time"
  const AuthorKey := "author"
  const TitleKey := "title"
  const IdKey := "id"
  const VersionKey := "evict-version"
  const BranchKey := "branch"
  const StateKey := "status"
  const NameKey := "name"
  const EnabledKey := "enabled"

  /** The format version written into every issue envelope; the decoder accepts only the
      version number 1. */
  const CurrentVersion := "1"

  /** `get_string_for_key`: the string stored under `key`, if the value there is a string. */
  function GetStringForKey(m: map<string, Json>, key: string): (r: Option<string>)
    ensures r.Some? <==> key in m && m[key].Str?
    ensures r.Some? ==> m[key] == Str(r.value)
  {
    if key in m && m[key].Str? then Some(m[key].s) else None
  }

  /** `json_time`: a time as formatted text. */
  function JsonTime(t: Tm): Json {
    Str(Format(t))
  }

  /** `key` holds text that parses as a time. */
  predicate HasTime(m: map<string, Json>, key: string) {
    key in m && m[key].Str? && Parse(m[key].s).Some?
  }

  // ---------------------------------------------------------------------------------------
  // Tags
  // ---------------------------------------------------------------------------------------

  function TagToJson(t: Tag): Json {
    Object(map[TimeKey := JsonTime(t.time), AuthorKey := Str(t.author), NameKey := Str(t.name),
               EnabledKey := Boolean(t.enabled), IdKey := Str(t.changeId)])
  }

  /** `read_enabled`: the flag must be a JSON boolean. */
  function ReadEnabled(m: map<string, Json>): Option<bool> {
    if EnabledKey in m && m[EnabledKey].Boolean? then Some(m[EnabledKey].b) else None
  }

  function TagReadFromMap(m: map<string, Json>): Option<Tag> {
    var name :- GetStringForKey(m, NameKey);
    var author :- GetStringForKey(m, AuthorKey);
    var enabled :- ReadEnabled(m);
    var id :- GetStringForKey(m, IdKey);
    var timeText :- GetStringForKey(m, TimeKey);
    var time :- Parse(timeText);
    Some(Tag(time, name, enabled, author, id))
  }

  /** `IssueTag::from_json`: an object with string name, author and id, a boolean enabled flag
      and a parsable time; anything else decodes to nothing. */
  function TagFromJson(j: Json): (r: Option<Tag>)
    ensures r.Some? <==>
              && j.Object?
              && GetStringForKey(j.fields, NameKey).Some?
              && GetStringForKey(j.fields, AuthorKey).Some?
              && GetStringForKey(j.fields, IdKey).Some?
              && EnabledKey in j.fields && j.fields[EnabledKey].Boolean?
              && HasTime(j.fields, TimeKey)
    ensures r.Some? ==>
              && j.fields[NameKey] == Str(r.value.name)
              && j.fields[AuthorKey] == Str(r.value.author)
              && j.fields[IdKey] == Str(r.value.changeId)
              && j.fields[EnabledKey] == Boolean(r.value.enabled)
              && Parse(j.fields[TimeKey].s) == Some(r.value.time)
  {
    match j
    case Object(m) => TagReadFromMap(m)
    case _ => None
  }

  // ---------------------------------------------------------------------------------------
  // Comments
  // ---------------------------------------------------------------------------------------

  function CommentToJson(c: Comment): Json {
    Object(map[BodyKey := Str(c.body), TimeKey := JsonTime(c.creationTime), AuthorKey := Str(c.author),
               BranchKey := Str(c.branch), IdKey := Str(c.id)])
  }

  /** `freshId` stands for the id `generate_id` would produce at decoding time. */
  function CommentReadFromMap(m: map<string, Json>, freshId: string): Option<Comment> {
    var body :- GetStringForKey(m, BodyKey);
    var author :- GetStringForKey(m, AuthorKey);
    var branch :- GetStringForKey(m, BranchKey);
    var timeText :- GetStringForKey(m, TimeKey);
    var time :- Parse(timeText);
    Some(Comment(time, author, body, branch, GetStringForKey(m, IdKey).GetOr(freshId)))
  }

  /** `IssueComment::from_json`: an object with string body, author and branch and a
      parsable time; the id is read when it is a string and generated otherwise. */
  function CommentFromJson(j: Json, freshId: string): (r: Option<Comment>)
    ensures r.Some? <==>
              && j.Object?
              && GetStringForKey(j.fields, BodyKey).Some?
              && GetStringForKey(j.fields, AuthorKey).Some?
              && GetStringForKey(j.fields, BranchKey).Some?
              && HasTime(j.fields, TimeKey)
    ensures r.Some? ==>
              && j.fields[BodyKey] == Str(r.value.body)
              && j.fields[AuthorKey] == Str(r.value.author)
              && j.fields[BranchKey] == Str(r.value.branch)
              && Parse(j.fields[TimeKey].s) == Some(r.value.creationTime)
              && r.value.id == (if IdKey in j.fields && j.fields[IdKey].Str? then j.fields[IdKey].s else freshId)
  {
    match j
    case Object(m) => CommentReadFromMap(m, freshId)
    case _ => None
  }

  // ---------------------------------------------------------------------------------------
  // Timeline entries
  // ---------------------------------------------------------------------------------------

  /** `event_data`: the payload of either kind. */
  function EventData(e: Event): Json {
    match e
    case CommentEvent(c) => CommentToJson(c)
    case TagEvent(t) => TagToJson(t)
  }

  /** `IssueTimelineEvent::to_json`: the pair `[kind, payload]`. */
  function EventToJson(e: Event): (r: Json)
    ensures r.Array? && |r.items| == 2
    ensures r.items[0] == Str("comment") || r.items[0] == Str("tag")
    ensures r.items[0] == Str(EventType(e))
    ensures e.TagEvent? ==> r.items[1] == TagToJson(e.tag)
    ensures e.CommentEvent? ==> r.items[1] == CommentToJson(e.comment)
  {
    Array([Str(EventType(e)), EventData(e)])
  }

  /** `IssueTimelineEvent::from_json`. A pair must name a known kind; anything that is not an
      array is read as a comment payload, the layout of the oldest stores. */
  function EventFromJson(j: Json, freshId: string): (r: Option<Event>)
    ensures j.Array? && |j.items| != 2 ==> r.None?
    ensures j.Array? && |j.items| == 2 && j.items[0] != Str("comment") && j.items[0] != Str("tag") ==> r.None?
    ensures r.Some? && r.value.TagEvent? ==>
              j.Array? && j.items[0] == Str("tag") && TagFromJson(j.items[1]) == Some(r.value.tag)
    ensures r.Some? && r.value.CommentEvent? ==>
              if j.Array? then j.items[0] == Str("comment") && CommentFromJson(j.items[1], freshId) == Some(r.value.comment)
              else CommentFromJson(j, freshId) == Some(r.value.comment)
    ensures j.Array? && |j.items| == 2 && j.items[0] == Str("tag") ==>
              (r.Some? <==> TagFromJson(j.items[1]).Some?)
    ensures j.Array? && |j.items| == 2 && j.items[0] == Str("comment") ==>
              (r.Some? <==> CommentFromJson(j.items[1], freshId).Some?)
    ensures !j.Array? ==> (r.Some? <==> CommentFromJson(j, freshId).Some?)
  {
    match j
    case Array(list) =>
      if |list| != 2 then None
      else if list[0] == Str("comment") then AsCommentEvent(CommentFromJson(list[1], freshId))
      else if list[0] == Str("tag") then
        match TagFromJson(list[1])
        case Some(t) => Some(TagEvent(t))
        case None => None
      else None
    case _ => AsCommentEvent(CommentFromJson(j, freshId))
  }

  function AsCommentEvent(c: Option<Comment>): Option<Event> {
    match c
    case Some(c) => Some(CommentEvent(c))
    case None => None
  }

  /** What an event keeps through encoding: its time loses its nanoseconds. */
  function TruncateEvent(e: Event): Event {
    match e
    case CommentEvent(c) => CommentEvent(c.(creationTime := Truncate(c.creationTime)))
    case TagEvent(t) => TagEvent(t.(time := Truncate(t.time)))
  }

  /** Encoding keeps what sorting and lookup read from an event: its kind and id, and its
      time up to the nanoseconds. */
  lemma TruncateKeepsAccessors(e: Event)
    ensures EventId(TruncateEvent(e)) == EventId(e)
    ensures EventTime(TruncateEvent(e)) == Truncate(EventTime(e))
    ensures EventType(TruncateEvent(e)) == EventType(e)
  {
  }

  /** Rust's `filter_map` over a list, where the function also sees each entry's position:
      the `Some` results, in order. */
  function FilterMapIndexed<A, B>(list: seq<A>, f: (A, nat) -> Option<B>): (r: seq<B>)
    ensures |r| <= |list|
    decreases |list|
  {
    if |list| == 0 then []
    else
      var n := |list| - 1;
      var init := FilterMapIndexed(list[..n], f);
      match f(list[n], n)
      case Some(e) => init + [e]
      case None => init
  }

  /** `load_events`: the decodable entries of a timeline array, in order; entries that fail
      are dropped, and a value that is not an array gives no events. `freshIds(i)` stands for
      the id generated while decoding entry `i`. */
  function LoadEvents(j: Json, freshIds: nat -> string): seq<Event> {
    match j
    case Array(list) => FilterMapIndexed(list, (entry, i) => EventFromJson(entry, freshIds(i)))
    case _ => []
  }

  // ---------------------------------------------------------------------------------------
  // Status
  // ---------------------------------------------------------------------------------------

  function StatusToJson(s: Status): Json {
    Object(map[NameKey := Str(s.name), TimeKey := JsonTime(s.lastChangeTime)])
  }

  function StatusReadFromMap(m: map<string, Json>): Option<Status> {
    var name :- GetStringForKey(m, NameKey);
    var timeText :- GetStringForKey(m, TimeKey);
    var time :- Parse(timeText);
    Some(Status(name, time))
  }

  /** `IssueStatus::from_json`: never fails; anything but an object with a string name and a
      parsable time gives the default status. */
  function StatusFromJson(j: Json, defaultName: string): (r: Status)
    ensures (j.Object? && GetStringForKey(j.fields, NameKey).Some? && HasTime(j.fields, TimeKey))
            || r == DefaultStatus(defaultName)
    ensures j.Object? && GetStringForKey(j.fields, NameKey).Some? && HasTime(j.fields, TimeKey) ==>
              j.fields[NameKey] == Str(r.name) && Parse(j.fields[TimeKey].s) == Some(r.lastChangeTime)
  {
    match j
    case Object(m) => StatusReadFromMap(m).GetOr(DefaultStatus(defaultName))
    case _ => DefaultStatus(defaultName)
  }

  // ---------------------------------------------------------------------------------------
  // The issue envelope
  // ---------------------------------------------------------------------------------------

  /** `no_comment_json`: the issue's metadata under the current version; neither the body
      nor the timeline is written. */
  function NoCommentJson(i: Issue): Json {
    Object(map[VersionKey := Str(CurrentVersion), TitleKey := Str(i.title),
               TimeKey := Str(Format(i.creationTime)), AuthorKey := Str(i.author), IdKey := Str(i.id),
               BranchKey := Str(i.branch), StateKey := StatusToJson(i.status)])
  }

  /** Why decoding an issue aborts the process. */
  datatype Panic =
    | NoVersion           // the version is missing or not a string
    | VersionNotANumber   // the version text is not a decimal `isize`

  /** The three outcomes of decoding an issue. */
  datatype IssueLoad = Loaded(issue: Issue) | NotLoaded | Panicked(reason: Panic)

  /** The status stored in an envelope, or the default when there is none. */
  function EnvelopeStatus(m: map<string, Json>, defaultName: string): Status {
    if StateKey in m then StatusFromJson(m[StateKey], defaultName) else DefaultStatus(defaultName)
  }

  function ReadVersion1(m: map<string, Json>, defaultName: string): Option<Issue> {
    var title :- GetStringForKey(m, TitleKey);
    var author :- GetStringForKey(m, AuthorKey);
    var branch :- GetStringForKey(m, BranchKey);
    var id :- GetStringForKey(m, IdKey);
    var status := EnvelopeStatus(m, defaultName);
    var timeText :- GetStringForKey(m, TimeKey);
    var time :- Parse(timeText);
    Some(Issue(title, time, author, "", id, [], branch, status))
  }

  /** `Issue::read_from_map`: dispatches on the version, then requires string title, author,
      branch, id and a parsable time. */
  function ReadFromMap(m: map<string, Json>, defaultName: string): (r: IssueLoad)
    ensures GetStringForKey(m, VersionKey).None? <==> r == Panicked(NoVersion)
    ensures r == Panicked(VersionNotANumber) <==>
              GetStringForKey(m, VersionKey).Some? && ParseIsize(m[VersionKey].s).None?
    ensures r.Loaded? <==>
              && GetStringForKey(m, VersionKey).Some? && ParseIsize(m[VersionKey].s) == Some(1)
              && GetStringForKey(m, TitleKey).Some? && GetStringForKey(m, AuthorKey).Some?
              && GetStringForKey(m, BranchKey).Some? && GetStringForKey(m, IdKey).Some?
              && HasTime(m, TimeKey)
    ensures r.Loaded? ==>
              && m[TitleKey] == Str(r.issue.title) && m[AuthorKey] == Str(r.issue.author)
              && m[BranchKey] == Str(r.issue.branch) && m[IdKey] == Str(r.issue.id)
              && Parse(m[TimeKey].s) == Some(r.issue.creationTime)
              && r.issue.body == "" && r.issue.events == []
              && r.issue.status == EnvelopeStatus(m, defaultName)
  {
    match GetStringForKey(m, VersionKey)
    case None => Panicked(NoVersion)
    case Some(versionText) =>
      match ParseIsize(versionText)
      case None => Panicked(VersionNotANumber)
      case Some(version) =>
        if version != 1 then NotLoaded
        else
          match ReadVersion1(m, defaultName)
          case Some(i) => Loaded(i)
          case None => NotLoaded
  }

  /** `Issue::from_json`: only an object can hold an issue. Sorting the decoded timeline is
      the identity here, since a decoded issue has no events. */
  function IssueFromJson(j: Json, defaultName: string): (r: IssueLoad)
    ensures !j.Object? ==> r == NotLoaded
    ensures j.Object? ==> r == ReadFromMap(j.fields, defaultName)
  {
    match j
    case Object(m) => ReadFromMap(m, defaultName)
    case _ => NotLoaded
  }
}
