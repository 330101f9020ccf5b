/** What the codec promises: every event, status and issue envelope it writes reads back,
    up to the nanoseconds the text format drops, and the decoder's tolerance rules. */
module IssueJsonProperties {
  import opened Options
  import opened Decimal
  import opened TimeFormat
  import opened JsonValue
  import opened IssueModel
  import opened IssueJson

  /** A tag reads back from its encoding. */
  lemma TagRoundTrip(t: Tag)
    requires Representable(t.time)
    ensures TagFromJson(TagToJson(t)) == Some(t.(time := Truncate(t.time)))
  {
    FormatRoundTrip(t.time);
  }

  /** A comment reads back from its encoding; its id is read, never generated. */
  lemma CommentRoundTrip(c: Comment, freshId: string)
    requires Representable(c.creationTime)
    ensures CommentFromJson(CommentToJson(c), freshId) == Some(c.(creationTime := Truncate(c.creationTime)))
  {
    FormatRoundTrip(c.creationTime);
  }

  /** A timeline entry of either kind reads back from `[kind, payload]`; an event whose time
      has no nanoseconds reads back unchanged. */
  lemma EventRoundTrip(e: Event, freshId: string)
    requires Representable(EventTime(e))
    ensures EventFromJson(EventToJson(e), freshId) == Some(TruncateEvent(e))
    ensures EventTime(e).nsec == 0 ==> EventFromJson(EventToJson(e), freshId) == Some(e)
  {
    match e
    case CommentEvent(c) =>
      CommentRoundTrip(c, freshId);
    case TagEvent(t) =>
      TagRoundTrip(t);
  }

  /** A bare payload decodes exactly as the same payload wrapped as a comment entry. */
  lemma LegacyCommentPayload(j: Json, freshId: string)
    requires !j.Array?
    ensures EventFromJson(j, freshId) == EventFromJson(Array([Str("comment"), j]), freshId)
  {
  }

  /** A comment without an id decodes as if the generated id had been stored. */
  lemma MissingCommentIdIsGenerated(m: map<string, Json>, freshId: string)
    requires IdKey !in m
    ensures CommentFromJson(Object(m), freshId) == CommentFromJson(Object(m[IdKey := Str(freshId)]), freshId)
  {
    var m' := m[IdKey := Str(freshId)];
    assert forall k :: k != IdKey ==> GetStringForKey(m', k) == GetStringForKey(m, k);
  }

  /** Every element `filter_map` returns is the image of some entry. */
  lemma {:induction false} FilterMapKeepsImages<A, B>(list: seq<A>, f: (A, nat) -> Option<B>)
    ensures forall b :: b in FilterMapIndexed(list, f) ==> exists i :: 0 <= i < |list| && f(list[i], i) == Some(b)
    decreases |list|
  {
    if |list| > 0 {
      var n := |list| - 1;
      FilterMapKeepsImages(list[..n], f);
      assert forall i :: 0 <= i < n ==> list[..n][i] == list[i];
    }
  }

  /** When every entry maps to `Some`, `filter_map` returns every image, in order. */
  lemma {:induction false} FilterMapKeepsAll<A, B>(list: seq<A>, f: (A, nat) -> Option<B>, images: seq<B>)
    requires |list| == |images|
    requires forall k :: 0 <= k < |list| ==> f(list[k], k) == Some(images[k])
    ensures FilterMapIndexed(list, f) == images
    decreases |list|
  {
    if |list| > 0 {
      var n := |list| - 1;
      assert forall k :: 0 <= k < n ==> list[..n][k] == list[k] && images[..n][k] == images[k];
      FilterMapKeepsAll(list[..n], f, images[..n]);
      assert images == images[..n] + [images[n]];
    }
  }

  /** How many entries of `list` map to `Some`: an independent count of what `filter_map`
      keeps. */
  function SomeCount<A, B>(list: seq<A>, f: (A, nat) -> Option<B>): (r: nat)
    ensures r <= |list|
    ensures r == 0 <== forall k :: 0 <= k < |list| ==> f(list[k], k).None?
    decreases |list|
  {
    if |list| == 0 then 0
    else
      var n := |list| - 1;
      SomeCount(list[..n], f) + if f(list[n], n).Some? then 1 else 0
  }

  /** `filter_map` keeps exactly as many elements as there are entries mapping to `Some`. */
  lemma {:induction false} FilterMapCount<A, B>(list: seq<A>, f: (A, nat) -> Option<B>)
    ensures |FilterMapIndexed(list, f)| == SomeCount(list, f)
    decreases |list|
  {
    if |list| > 0 {
      FilterMapCount(list[..|list| - 1], f);
    }
  }

  /** An entry that maps to `Some` keeps its value whatever the other entries do: it sits
      after exactly the kept values of the entries before it. */
  lemma {:induction false} FilterMapKeepsSome<A, B>(list: seq<A>, f: (A, nat) -> Option<B>, k: int)
    requires 0 <= k < |list| && f(list[k], k).Some?
    ensures SomeCount(list[..k], f) < |FilterMapIndexed(list, f)|
    ensures FilterMapIndexed(list, f)[SomeCount(list[..k], f)] == f(list[k], k).value
    ensures f(list[k], k).value in FilterMapIndexed(list, f)
    decreases |list|
  {
    var n := |list| - 1;
    var init := FilterMapIndexed(list[..n], f);
    FilterMapCount(list[..n], f);
    if k == n {
      assert list[..k] == list[..n];
    } else {
      FilterMapKeepsSome(list[..n], f, k);
      assert list[..n][..k] == list[..k];
      assert list[..n][k] == list[k];
    }
  }

  /** Entries before an entry that maps to `Some` count strictly fewer kept values. */
  lemma {:induction false} SomeCountGrows<A, B>(list: seq<A>, f: (A, nat) -> Option<B>, i: int, j: int)
    requires 0 <= i < j <= |list| && f(list[i], i).Some?
    ensures SomeCount(list[..i], f) < SomeCount(list[..j], f)
    decreases j
  {
    var pre := list[..j];
    assert pre[..j - 1] == list[..j - 1];
    assert pre[j - 1] == list[j - 1];
    if i < j - 1 {
      SomeCountGrows(list, f, i, j - 1);
    }
  }

  /** `a` occurs in `r` at a position before one holding `b`. */
  ghost predicate InOrder<T>(r: seq<T>, a: T, b: T) {
    exists p, q :: 0 <= p < q < |r| && r[p] == a && r[q] == b
  }

  /** `filter_map` keeps the order of the entries that map to `Some`. */
  lemma FilterMapKeepsOrder<A, B>(list: seq<A>, f: (A, nat) -> Option<B>, i: int, j: int)
    requires 0 <= i < j < |list| && f(list[i], i).Some? && f(list[j], j).Some?
    ensures InOrder(FilterMapIndexed(list, f), f(list[i], i).value, f(list[j], j).value)
  {
    FilterMapKeepsSome(list, f, i);
    FilterMapKeepsSome(list, f, j);
    SomeCountGrows(list, f, i, j);
    var r := FilterMapIndexed(list, f);
    var p, q := SomeCount(list[..i], f), SomeCount(list[..j], f);
    assert 0 <= p < q < |r| && r[p] == f(list[i], i).value && r[q] == f(list[j], j).value;
  }

  /** `load_events` loads one event per entry that decodes. */
  lemma LoadEventsCount(list: seq<Json>, freshIds: nat -> string)
    ensures |LoadEvents(Array(list), freshIds)|
            == SomeCount(list, (entry, k) => EventFromJson(entry, freshIds(k)))
  {
    FilterMapCount(list, (entry, k) => EventFromJson(entry, freshIds(k)));
  }

  /** An entry that decodes is loaded, however many other entries fail. */
  lemma LoadEventsKeepsEntry(list: seq<Json>, freshIds: nat -> string, i: int)
    requires 0 <= i < |list| && EventFromJson(list[i], freshIds(i)).Some?
    ensures EventFromJson(list[i], freshIds(i)).value in LoadEvents(Array(list), freshIds)
  {
    FilterMapKeepsSome(list, (entry, k) => EventFromJson(entry, freshIds(k)), i);
  }

  /** Entries that decode are loaded in array order. */
  lemma LoadEventsKeepsOrder(list: seq<Json>, freshIds: nat -> string, i: int, j: int)
    requires 0 <= i < j < |list|
    ensures EventFromJson(list[i], freshIds(i)).Some? && EventFromJson(list[j], freshIds(j)).Some? ==>
              InOrder(LoadEvents(Array(list), freshIds),
                      EventFromJson(list[i], freshIds(i)).value, EventFromJson(list[j], freshIds(j)).value)
  {
    if EventFromJson(list[i], freshIds(i)).Some? && EventFromJson(list[j], freshIds(j)).Some? {
      FilterMapKeepsOrder(list, (entry, k) => EventFromJson(entry, freshIds(k)), i, j);
    }
  }

  /** The events `load_events` keeps are decodings of entries of the array. */
  lemma LoadEventsKeepsDecodable(list: seq<Json>, freshIds: nat -> string)
    ensures forall e :: e in LoadEvents(Array(list), freshIds) ==>
              exists i :: 0 <= i < |list| && EventFromJson(list[i], freshIds(i)) == Some(e)
  {
    FilterMapKeepsImages(list, (entry, i) => EventFromJson(entry, freshIds(i)));
  }

  /** The array of encoded events `load_events` would read back. */
  function EncodeTimeline(events: seq<Event>): (r: seq<Json>)
    ensures |r| == |events|
    ensures forall k :: 0 <= k < |events| ==> r[k] == EventToJson(events[k])
  {
    seq(|events|, k requires 0 <= k < |events| => EventToJson(events[k]))
  }

  /** A timeline with every time stripped of its nanoseconds. */
  function TruncateTimeline(events: seq<Event>): (r: seq<Event>)
    ensures |r| == |events|
    ensures forall k :: 0 <= k < |events| ==> r[k] == TruncateEvent(events[k])
  {
    seq(|events|, k requires 0 <= k < |events| => TruncateEvent(events[k]))
  }

  lemma EncodedEntryDecodes(events: seq<Event>, n: int, freshIds: nat -> string)
    requires 0 <= n < |events| && Representable(EventTime(events[n]))
    ensures EventFromJson(EncodeTimeline(events)[n], freshIds(n)) == Some(TruncateTimeline(events)[n])
  {
    EventRoundTrip(events[n], freshIds(n));
  }

  /** A whole timeline reads back from its encoded entries. */
  lemma LoadEventsRoundTrip(events: seq<Event>, freshIds: nat -> string)
    requires forall k :: 0 <= k < |events| ==> Representable(EventTime(events[k]))
    ensures LoadEvents(Array(EncodeTimeline(events)), freshIds) == TruncateTimeline(events)
  {
    forall k | 0 <= k < |events|
      ensures EventFromJson(EncodeTimeline(events)[k], freshIds(k)) == Some(TruncateTimeline(events)[k])
    {
      EncodedEntryDecodes(events, k, freshIds);
    }
    FilterMapKeepsAll(EncodeTimeline(events), (entry, i) => EventFromJson(entry, freshIds(i)),
                      TruncateTimeline(events));
  }

  /** A timeline read back keeps every event's kind and id, and its time up to the
      nanoseconds, position by position. */
  lemma LoadedTimelineKeepsAccessors(events: seq<Event>, freshIds: nat -> string)
    requires forall k :: 0 <= k < |events| ==> Representable(EventTime(events[k]))
    ensures var r := LoadEvents(Array(EncodeTimeline(events)), freshIds);
      && |r| == |events|
      && forall k :: 0 <= k < |events| ==>
           EventId(r[k]) == EventId(events[k]) && EventType(r[k]) == EventType(events[k])
           && EventTime(r[k]) == Truncate(EventTime(events[k]))
  {
    LoadEventsRoundTrip(events, freshIds);
    forall k | 0 <= k < |events|
      ensures EventId(TruncateTimeline(events)[k]) == EventId(events[k])
      ensures EventType(TruncateTimeline(events)[k]) == EventType(events[k])
      ensures EventTime(TruncateTimeline(events)[k]) == Truncate(EventTime(events[k]))
    {
      TruncateKeepsAccessors(events[k]);
    }
  }

  /** An entry that fails to decode is dropped, and the good entry beside it kept. */
  lemma MalformedEntryIsDropped(t: Tag, payload: map<string, Json>, freshIds: nat -> string)
    requires Representable(t.time) && NameKey !in payload
    ensures LoadEvents(Array([EventToJson(TagEvent(t)), Array([Str("tag"), Object(payload)])]), freshIds)
            == [TruncateEvent(TagEvent(t))]
  {
    var good := EventToJson(TagEvent(t));
    var list := [good, Array([Str("tag"), Object(payload)])];
    var f := (entry, i) => EventFromJson(entry, freshIds(i));
    assert TagFromJson(Object(payload)) == None;
    assert EventFromJson(list[1], freshIds(1)) == None;
    EventRoundTrip(TagEvent(t), freshIds(0));
    assert list[..1] == [good];
    FilterMapKeepsAll([good], f, [TruncateEvent(TagEvent(t))]);
  }

  /** A status reads back from its encoding. */
  lemma StatusRoundTrip(s: Status, defaultName: string)
    requires Representable(s.lastChangeTime)
    ensures StatusFromJson(StatusToJson(s), defaultName) == s.(lastChangeTime := Truncate(s.lastChangeTime))
  {
    FormatRoundTrip(s.lastChangeTime);
  }

  /** The default status writes a time that does not parse, and so reads back as the default
      status again. */
  lemma DefaultStatusRoundTrip(defaultName: string)
    ensures StatusFromJson(StatusToJson(DefaultStatus(defaultName)), defaultName) == DefaultStatus(defaultName)
  {
    EmptyTmDoesNotParse();
  }

  /** The version written is the version read. */
  lemma CurrentVersionIsOne()
    ensures ParseIsize(CurrentVersion) == Some(1)
  {
    ParseIsizeOfRender(1);
    assert Render(1) == CurrentVersion;
  }

  /** Any envelope whose version reads as a number other than 1 is not loaded. */
  lemma OtherVersionsAreNotLoaded(m: map<string, Json>, defaultName: string, version: int)
    requires VersionKey in m && m[VersionKey] == Str(Render(version))
    requires IsizeMin <= version <= IsizeMax && version != 1
    ensures ReadFromMap(m, defaultName) == NotLoaded
  {
    ParseIsizeOfRender(version);
  }

  /** The fields `no_comment_json` writes, as the decoder looks them up. */
  lemma EnvelopeFields(i: Issue, defaultName: string)
    ensures var m := NoCommentJson(i).fields;
      && GetStringForKey(m, VersionKey) == Some(CurrentVersion)
      && GetStringForKey(m, TitleKey) == Some(i.title)
      && GetStringForKey(m, AuthorKey) == Some(i.author)
      && GetStringForKey(m, BranchKey) == Some(i.branch)
      && GetStringForKey(m, IdKey) == Some(i.id)
      && GetStringForKey(m, TimeKey) == Some(Format(i.creationTime))
      && EnvelopeStatus(m, defaultName) == StatusFromJson(StatusToJson(i.status), defaultName)
  {
  }

  /** An envelope with the current version and every required field loads. */
  lemma EnvelopeLoads(m: map<string, Json>, defaultName: string, title: string, author: string,
                      branch: string, id: string, timeText: string, time: Tm)
    requires GetStringForKey(m, VersionKey) == Some(CurrentVersion)
    requires GetStringForKey(m, TitleKey) == Some(title) && GetStringForKey(m, AuthorKey) == Some(author)
    requires GetStringForKey(m, BranchKey) == Some(branch) && GetStringForKey(m, IdKey) == Some(id)
    requires GetStringForKey(m, TimeKey) == Some(timeText) && Parse(timeText) == Some(time)
    ensures ReadFromMap(m, defaultName)
            == Loaded(Issue(title, time, author, "", id, [], branch, EnvelopeStatus(m, defaultName)))
  {
    CurrentVersionIsOne();
  }

  /** The issue an envelope reads back as: the written issue with no body, no events, its
      creation time without nanoseconds and its status as the status codec reads it back. */
  function ReadBack(i: Issue, defaultName: string): Issue {
    Issue(i.title, Truncate(i.creationTime), i.author, "", i.id, [], i.branch,
          StatusFromJson(StatusToJson(i.status), defaultName))
  }

  /** An issue's envelope reads back as `ReadBack(i)`. */
  lemma IssueRoundTrip(i: Issue, defaultName: string)
    requires Representable(i.creationTime)
    ensures IssueFromJson(NoCommentJson(i), defaultName) == Loaded(ReadBack(i, defaultName))
  {
    var m := NoCommentJson(i).fields;
    var t := i.creationTime;
    FormatRoundTrip(t);
    EnvelopeFields(i, defaultName);
    EnvelopeLoads(m, defaultName, i.title, i.author, i.branch, i.id, Format(t), Truncate(t));
  }

  /** What reads back is equal to the written issue and keeps its title, author, id, branch
      and formatted creation time. */
  lemma ReadBackPreserves(i: Issue, defaultName: string)
    ensures var r := ReadBack(i, defaultName);
      && SameIssue(r, i)
      && r.title == i.title && r.author == i.author && r.id == i.id && r.branch == i.branch
      && Format(r.creationTime) == Format(i.creationTime)
      && r.body == "" && r.events == []
  {
    var t := i.creationTime;
    assert Format(Truncate(t)) == Format(t);
  }

  /** The status reads back when its time survives the format, and the default status reads
      back as itself. */
  lemma ReadBackStatus(i: Issue, defaultName: string)
    ensures Representable(i.status.lastChangeTime) ==>
              ReadBack(i, defaultName).status == i.status.(lastChangeTime := Truncate(i.status.lastChangeTime))
    ensures i.status == DefaultStatus(defaultName) ==> ReadBack(i, defaultName).status == i.status
  {
    if Representable(i.status.lastChangeTime) {
      StatusRoundTrip(i.status, defaultName);
    }
    if i.status == DefaultStatus(defaultName) {
      DefaultStatusRoundTrip(defaultName);
    }
  }

  /** The source's own round-trip test: a new issue written and read back is equal to
      itself and keeps its title, author, id and formatted creation time. */
  lemma WriteAndReadIssueJson(now: Tm, currentBranch: Option<string>, id: string, defaultName: string)
    requires Representable(now)
    ensures var issue := NewIssue("Foo", "Body", "Author", now, currentBranch, id, defaultName);
      var read := IssueFromJson(NoCommentJson(issue), defaultName);
      && read.Loaded?
      && SameIssue(read.issue, issue)
      && read.issue.title == "Foo" && read.issue.author == "Author" && read.issue.id == issue.id
      && Format(read.issue.creationTime) == Format(issue.creationTime)
  {
    var issue := NewIssue("Foo", "Body", "Author", now, currentBranch, id, defaultName);
    IssueRoundTrip(issue, defaultName);
    ReadBackPreserves(issue, defaultName);
  }
}
