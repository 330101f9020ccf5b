# Evict issue timeline and comment command, in Dafny

Evict is a bug tracker that keeps its issues next to the code in a version-control
repository. This project models two parts of it:

- **The issue model.** The `Issue`, its timeline of comments and tag toggles, and its
  status. It covers:
  - identity equality between issues;
  - appending events to the timeline;
  - the two tag queries that read a timeline: `most_recent_tag_for_name`, a forward scan
    that keeps the latest tag for a name, and `all_tags`, a backward walk that reports the
    names currently enabled;
  - the JSON codecs for tags, comments, timeline events, statuses and the issue envelope,
    including the decoding rules for legacy entries and malformed entries.
- **The `comment` command.** This covers:
  - the fold of the argument handler over the command line;
  - the refusal to go on without an issue id fragment;
  - the append of the newly edited comment to the selected issue.

Modules:

| file | module | contents |
|---|---|---|
| options.dfy | `Options` | `Option` with the `:-` protocol |
| decimal.dfy | `Decimal` | decimal rendering, and `isize::from_str_radix(_, 10)` with its 64-bit range |
| time_format.dfy | `TimeFormat` | the broken-down time `Tm`, and `strftime`/`strptime` specialised to the format `"%F %Y at %T"` |
| json_value.dfy | `JsonValue` | the JSON value tree |
| issue_model.dfy | `IssueModel` | comments, tags, events, status, issues; constructors, accessors, `add_comment`/`add_tag` |
| timeline.dfy | `Timeline` | `most_recent_tag_for_name`, `all_tags` and their characterisations |
| issue_json.dfy | `IssueJson` | every `to_json`/`from_json`, `load_events`, `no_comment_json`, `read_from_map` |
| issue_json_properties.dfy | `IssueJsonProperties` | round trips and decoding-rule lemmas |
| fsm.dfy | `Fsm` | the part of the argument state machine the command uses |
| comment_command.dfy | `CommentCommand` | `Flags`, `std_handler`, `comment_on_matching`, `new_comment` |

Outside collaborators become parameters:

- the clock reading (`now`);
- the generated ids (`id`, `freshId`, and `freshIds(i)` for the id generated while
  decoding timeline entry `i`);
- the current branch;
- the configured default status name (`defaultName`);
- the author lookup and the editor's outcome (`Environment`);
- the issue files read (`stored`);
- the write outcome (`writeOk`);
- the issue selection (`updateIssue`).

The panics of `read_from_map` are results of their own: `Panicked(NoVersion)` and
`Panicked(VersionNotANumber)`.

On timestamps:

- `TimeFormat.Key` is the lexicographic order of the `Tm` fields. It stands in for comparing
  `to_timespec()` values, and agrees with that only on valid calendar dates with seconds at
  most 59 (see "Left out").
- A timestamp survives the text format only when it is `Representable`: its year lies in
  1000..9999 and every field is in the range `strptime` accepts. It comes back with its
  nanoseconds dropped (`Truncate`).

About `all_tags`:

- Enabling a tag does not close its name for the rest of the backward walk. So a name
  enabled twice after its last disable is reported twice: `Timeline.AllTagsMultiplicity`
  counts the copies exactly, and `Timeline.RepeatedEnableIsReportedTwice` shows the
  smallest case.
- Read as a set, the doc comment of `all_tags` ("all tags currently enabled",
  src/evict/issue.rs:145) suggests each name appears at most once. The code does not
  guarantee that, and the model follows the code.
- Membership in the result means the same as "the last toggle of the name in list order
  enables it".
- On a timeline sorted by time with distinct toggle times per name, that matches
  `most_recent_tag_for_name` (`Timeline.QueriesAgreeWhenSorted`). A tie makes the two
  queries disagree (`Timeline.TiedTogglesDisagree`).

## Model

| member | source | states |
|---|---|---|
| IssueModel.IssueEquality | src/evict/issue.rs:479-488 | issues with different titles, bodies and authors but the same id are equal, and an issue with a different id is not |
| IssueModel.SameIssueIsIdentity | src/evict/issue.rs:89-93 | issue equality is an equivalence relation, and two issues are equal exactly when they differ at most in fields other than the id |
| IssueModel.NewIssue | src/evict/issue.rs:246-256 | a new issue has the given title, body, author, id and creation time, an empty timeline and the default status, and records the current branch, or `<unknown>` when there is none |
| IssueModel.EventType | src/evict/issue.rs:386-391 | the discriminator is "comment" or "tag", and it is "tag" exactly for tag events |
| IssueModel.EventAccessors | src/evict/issue.rs:422-434 | an event's time and id are the creation time and id of a comment, or the time and change id of a tag |
| IssueModel.AddComment | src/evict/issue.rs:113-115 | the timeline gains exactly the comment at its end; the old events and every other field are unchanged; the issue is still equal to the original |
| IssueModel.AddTag | src/evict/issue.rs:117-119 | the timeline gains exactly the tag toggle at its end; the old events and every other field are unchanged; the issue is still equal to the original |
| Timeline.MostRecentTagCharacterised | src/evict/issue.rs:121-143 | the result is None exactly when no tag has the name; otherwise it is the earliest tag, in list order, among those with the latest time for that name |
| Timeline.TieKeepsFirst | src/evict/issue.rs:127-135 | of two toggles of a name with equal times, the first in list order is kept |
| Timeline.UntaggedAreDisabled | src/evict/issue.rs:150-160 | a name is closed by the backward walk exactly when some toggle disables it |
| Timeline.AllTagsReportsUnshadowed | src/evict/issue.rs:149-166 | a name is reported exactly when some toggle enables it and no later toggle disables it |
| Timeline.AllTagsMembership | src/evict/issue.rs:149-166 | a name is reported exactly when its last toggle in list order enables it |
| Timeline.AllTagsComeFromEnabledTags | src/evict/issue.rs:152-158 | every reported name was enabled by some toggle in the timeline |
| Timeline.AllTagsMultiplicity | src/evict/issue.rs:149-166 | a name is reported once for each enabling toggle after its last disabling toggle |
| Timeline.RepeatedEnableIsReportedTwice | src/evict/issue.rs:152-158 | two enabling toggles of the same name make the report list that name twice |
| Timeline.CommentsAreIgnored | src/evict/issue.rs:152-163 | removing a comment from anywhere in the timeline leaves the report and the backward walk unchanged |
| Timeline.DisabledShadowsHistory | src/evict/issue.rs:155-160 | after a disabling toggle, what comes before it adds only other names, and only after the report for the later events |
| Timeline.AddTagDecidesName | src/evict/issue.rs:117-119 | after a tag toggle is appended, its name is reported exactly when the toggle enables it, and every other name is reported as before |
| Timeline.AddCommentKeepsTags | src/evict/issue.rs:113-115 | appending a comment changes neither `all_tags` nor `most_recent_tag_for_name` |
| Timeline.LatestIsLastWhenSorted | src/evict/issue.rs:145-148 | on a time-sorted timeline with distinct toggle times, no toggle of the name follows the latest one |
| Timeline.QueriesAgreeWhenSorted | src/evict/issue.rs:145-149 | on a time-sorted timeline with distinct toggle times, a name is reported exactly when its most recent tag is enabled |
| Timeline.TiedTogglesDisagree | src/evict/issue.rs:121-166 | two tied toggles (enable then disable) are sorted, but the forward scan returns the enable while the report leaves out the name |
| Decimal.ParseIsize | src/evict/issue.rs:200 | a parsed version number lies in the 64-bit signed range |
| Decimal.ParseIsizeOfRender | src/evict/issue.rs:200 | every number in the 64-bit signed range reads back from its decimal text |
| TimeFormat.Parse | src/evict/issue.rs:30 | every parsed time has each field in the range the format accepts |
| TimeFormat.ParseOfFormat | src/evict/issue.rs:30 | for every time, its formatted text parses back exactly when the time is representable, and then as itself with nanoseconds dropped |
| TimeFormat.FormatParsesOnlyAligned | src/evict/issue.rs:30 | a formatted text that parses came from a time whose year has four digits and whose other fields have two |
| TimeFormat.FormatRoundTrip | src/evict/issue.rs:475-477 | a representable time reads back from its text without its nanoseconds, and as itself when those are zero |
| TimeFormat.EmptyTmDoesNotParse | src/evict/issue.rs:464-466 | the default status's empty time formats to text that does not parse |
| IssueJson.GetStringForKey | src/evict/issue.rs:101-109 | the result is the key's string when the key holds a string, and None otherwise |
| IssueJson.TagFromJson | src/evict/issue.rs:272-316 | a tag decodes exactly from an object with string name, author and id, a boolean enabled and a parsable time, and carries exactly those values |
| IssueJson.CommentFromJson | src/evict/issue.rs:337-368 | a comment decodes exactly from an object with string body, author and branch and a parsable time; its id is the stored string or a fresh one |
| IssueJson.EventToJson | src/evict/issue.rs:377-398 | an event encodes as a two-element array whose first element is its discriminator string and whose second is the tag's or the comment's own encoding |
| IssueJson.EventFromJson | src/evict/issue.rs:400-420 | arrays of the wrong length or with an unknown discriminator are rejected; a `"tag"` or `"comment"` pair decodes exactly when its payload decodes as that kind, and into that kind; a non-array decodes exactly when it reads as a bare comment |
| IssueJson.TruncateKeepsAccessors | src/evict/issue.rs:422-434 | dropping the nanoseconds keeps an event's kind and id, and its time up to the nanoseconds |
| IssueJson.FilterMapIndexed | src/evict/issue.rs:240 | filtering keeps at most as many results as entries; which results it keeps, how many and in what order is stated by `FilterMapCount`, `FilterMapKeepsSome` and `FilterMapKeepsOrder` |
| IssueJson.StatusFromJson | src/evict/issue.rs:446-462 | a status decodes from an object with a string name and a parsable time, and anything else gives the default status |
| IssueJson.ReadFromMap | src/evict/issue.rs:195-234 | a missing version panics, as does a version that is not a number; an issue loads exactly when the version is 1 and the title, author, branch, id and time are present; it then carries those values with an empty body and timeline |
| IssueJson.IssueFromJson | src/evict/issue.rs:182-193 | a non-object is not loaded, and an object is read field by field |
| IssueJsonProperties.TagRoundTrip | src/evict/issue.rs:260-306 | a tag with a representable time decodes from its encoding, with nanoseconds dropped |
| IssueJsonProperties.CommentRoundTrip | src/evict/issue.rs:324-368 | a comment with a representable time decodes from its encoding, keeping its own id |
| IssueJsonProperties.EventRoundTrip | src/evict/issue.rs:377-420 | an event with a representable time decodes from its encoding without nanoseconds, and as itself when those are zero |
| IssueJsonProperties.LegacyCommentPayload | src/evict/issue.rs:415-418 | a non-array entry decodes as if it were wrapped as a comment event |
| IssueJsonProperties.MissingCommentIdIsGenerated | src/evict/issue.rs:360-361 | a comment without an id decodes as if the generated id had been stored |
| IssueJsonProperties.FilterMapKeepsImages | src/evict/issue.rs:240 | every element kept is the image of some entry |
| IssueJsonProperties.FilterMapKeepsAll | src/evict/issue.rs:240 | when every entry maps to a value, all values are kept, in order |
| IssueJsonProperties.SomeCount | src/evict/issue.rs:240 | counts the entries that map to a value, never more than there are entries, and none when every entry fails |
| IssueJsonProperties.FilterMapCount | src/evict/issue.rs:240 | filtering keeps exactly as many values as there are entries mapping to one |
| IssueJsonProperties.FilterMapKeepsSome | src/evict/issue.rs:240 | an entry mapping to a value keeps it whatever the other entries do, right after the values kept for the entries before it |
| IssueJsonProperties.SomeCountGrows | src/evict/issue.rs:240 | an entry mapping to a value makes every longer prefix count strictly more values |
| IssueJsonProperties.FilterMapKeepsOrder | src/evict/issue.rs:240 | the values of two entries are kept in the entries' order |
| IssueJsonProperties.LoadEventsKeepsDecodable | src/evict/issue.rs:236-244 | every loaded event is the decoding of some entry of the array |
| IssueJsonProperties.LoadEventsRoundTrip | src/evict/issue.rs:236-244 | an encoded timeline loads back entry for entry, with nanoseconds dropped |
| IssueJsonProperties.LoadEventsCount | src/evict/issue.rs:236-244 | one event is loaded per entry that decodes |
| IssueJsonProperties.LoadEventsKeepsEntry | src/evict/issue.rs:236-244 | an entry that decodes is loaded however many other entries fail |
| IssueJsonProperties.LoadEventsKeepsOrder | src/evict/issue.rs:236-244 | entries that decode are loaded in array order |
| IssueJsonProperties.LoadedTimelineKeepsAccessors | src/evict/issue.rs:422-434 | a timeline read back keeps each event's kind and id, and its time without nanoseconds, position by position |
| IssueJsonProperties.MalformedEntryIsDropped | src/evict/issue.rs:240 | an entry that fails to decode is dropped and the good entry next to it is kept |
| IssueJsonProperties.StatusRoundTrip | src/evict/issue.rs:437-462 | a status with a representable time decodes from its encoding |
| IssueJsonProperties.DefaultStatusRoundTrip | src/evict/issue.rs:446-466 | the default status, whose time cannot be parsed, still reads back as the default status |
| IssueJsonProperties.CurrentVersionIsOne | src/evict/issue.rs:202 | the version written by the envelope is read as 1 |
| IssueJsonProperties.OtherVersionsAreNotLoaded | src/evict/issue.rs:231-233 | any version other than 1 in the 64-bit range gives no issue |
| IssueJsonProperties.EnvelopeFields | src/evict/issue.rs:168-180 | the envelope holds the version, title, formatted time, author, id, branch and encoded status as strings |
| IssueJsonProperties.EnvelopeLoads | src/evict/issue.rs:203-226 | a map with version 1 and the five string fields loads as the issue built from them |
| IssueJsonProperties.IssueRoundTrip | src/evict/issue.rs:182-234 | an issue with a representable creation time loads back from its envelope |
| IssueJsonProperties.ReadBackPreserves | src/evict/issue.rs:219-223 | the loaded issue is equal to the written one, with the same title, author, id, branch and formatted creation time, and an empty body and timeline |
| IssueJsonProperties.ReadBackStatus | src/evict/issue.rs:211-214 | the loaded status equals the written one when its time is representable, or when it is the default |
| IssueJsonProperties.WriteAndReadIssueJson | src/evict/issue.rs:490-514 | a new issue loads back from its envelope as an equal issue, with the same title, author and id and the same formatted creation time |
| Fsm.Process | src/evict/commands/comment.rs:42 | a step keeps the handler and takes the state the handler continues with |
| Fsm.RunAppend | src/evict/commands/comment.rs:41-43 | feeding two batches of tokens one after the other is the same as feeding them together |
| Fsm.Drive | src/evict/commands/comment.rs:40-45 | processing the tokens one by one in a loop gives the reference fold |
| CommentCommand.StdHandler | src/evict/commands/comment.rs:33-37 | every argument continues the machine, with that argument as the id fragment |
| CommentCommand.FoldGivesLastArg | src/evict/commands/comment.rs:40-45 | the folded flags hold no fragment for no arguments, and the last argument otherwise |
| CommentCommand.EditedComment | src/evict/commands/comment.rs:79 | the new comment carries the edited text, the author, the current time, the generated id and the current branch, or `<unknown>` when there is none |
| CommentCommand.CommentOnMatching | src/evict/commands/comment.rs:65-87 | with an edited, readable body, exactly that comment is appended and nothing else changes; otherwise the issue is returned unchanged; either way it is still the same issue |
| CommentCommand.CommentingKeepsTags | src/evict/commands/comment.rs:79-84 | commenting is `add_comment` of the new comment, so neither tag query changes |
| CommentCommand.NewCommentCommand | src/evict/commands/comment.rs:39-63 | with no arguments the command returns 1 and neither reads nor writes issues; otherwise it selects with the last argument, writes the result, and returns 0 exactly when the write succeeds |

## Left out

- `src/evict/config.rs` is not part of this model. It is file-system I/O around a serialiser that is not shown.
- The `time` crate is not shown. `strftime`/`strptime` are modelled only for the format `"%F %Y at %T"`:
  - the year is written unpadded and read as exactly four digits;
  - the other fields are zero-padded pairs, read within their ranges;
  - the second `%Y` overwrites the first;
  - text left over after the seconds is rejected, so only 27-character text parses. This decides which stored times the decoders accept.
- `Tm` keeps only the fields this format writes, plus nanoseconds. Weekday, day of year, daylight saving and UTC offset are left out, and so is the calendar's month length. So "parses back as itself" ignores those four fields: a time read back does not carry them over from the original.
- TimeFormat.Key: compares the `Tm` fields lexicographically rather than converting to seconds since the epoch. The two orders agree on valid calendar dates with seconds at most 59 and one UTC offset, which is not proved here. They differ on other times that parse, because `to_timespec` normalises them first: February 31 counts as March 3, and 23:59:60 equals the next day's 00:00:00. On such times `most_recent_tag_for_name` can pick a different tag than `Timeline.MostRecentTagForName`.
- `time::now`, `generate_id`, `vcs_status::current_branch` and `DEFAULT_STATUS_NAME` are parameters, because they read the clock, the repository or configuration outside the model.
- IssueJson.CurrentVersion: `evict::CURRENT_VERSION` is not part of this model and is taken to be "1", the only version `read_from_map` accepts.
- JSON numbers other than integers, and the text encoding of JSON, are not modelled. Only the value tree matters to these codecs.
- `date_sort::sort_by_time` in `Issue::from_json` is not modelled. It is applied to a freshly loaded issue, whose timeline is always empty.
- Fsm: only the `Continue` outcome of the state machine is modelled. It is the only one the comment command's handler produces.
- `selection::update_issue`, `file_manager::read_issues`/`write_issues`, `commands::edit_file`/`get_author` and `file_util` are I/O or code not shown. Their results are parameters of `CommentCommand.NewCommentCommand` and `CommentCommand.Environment`.
- The messages printed to the console, and the scratch file named `COMMENT_ON_<id>` that the editor works on, are not modelled.
