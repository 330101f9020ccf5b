/** The two queries that derive tag state from an issue's timeline: the forward scan behind
    `most_recent_tag_for_name` and the backward scan behind `all_tags`. */
module Timeline {
  import opened Options
  import opened TimeFormat
  import opened IssueModel

  predicate IsTagNamed(e: Event, name: string) {
    e.TagEvent? && e.tag.name == name
  }

  /** `events[i]` is a tag toggle that turns `name` off. */
  ghost predicate DisabledAt(events: seq<Event>, name: string, i: int) {
    0 <= i < |events| && IsTagNamed(events[i], name) && !events[i].tag.enabled
  }

  /** `events[i]` is a tag toggle that turns `name` on. */
  ghost predicate EnabledAt(events: seq<Event>, name: string, i: int) {
    0 <= i < |events| && IsTagNamed(events[i], name) && events[i].tag.enabled
  }

  ghost predicate HasTagNamed(events: seq<Event>, name: string) {
    exists i :: 0 <= i < |events| && IsTagNamed(events[i], name)
  }

  ghost predicate HasDisabled(events: seq<Event>, name: string) {
    exists i :: DisabledAt(events, name, i)
  }

  // ---------------------------------------------------------------------------------------
  // most_recent_tag_for_name
  // ---------------------------------------------------------------------------------------

  /** `most_recent_tag_for_name`: visits the events in order, keeping the first tag for
      `name` and replacing the kept one only by a tag with a strictly later time. */
  function MostRecentTagForName(events: seq<Event>, name: string): Option<Tag>
    decreases |events|
  {
    if |events| == 0 then None
    else
      var recent := MostRecentTagForName(events[..|events| - 1], name);
      var e := events[|events| - 1];
      if !IsTagNamed(e, name) then recent
      else if recent.None? then Some(e.tag)
      else if Key(recent.value.time) < Key(e.tag.time) then Some(e.tag)
      else recent
  }

  /** `events[i]` is a tag for `name` whose time no other tag for `name` exceeds, and every
      earlier tag for `name` is strictly older: the first of the latest such tags. */
  ghost predicate FirstLatestAt(events: seq<Event>, name: string, i: int) {
    && 0 <= i < |events|
    && IsTagNamed(events[i], name)
    && (forall j :: 0 <= j < |events| && IsTagNamed(events[j], name) ==>
          Key(events[j].tag.time) <= Key(events[i].tag.time))
    && (forall j :: 0 <= j < i && IsTagNamed(events[j], name) ==>
          Key(events[j].tag.time) < Key(events[i].tag.time))
  }

  /** At most one position is the first of the latest tags, so the characterisation below
      determines the result completely. */
  lemma FirstLatestIsUnique(events: seq<Event>, name: string, i: int, k: int)
    requires FirstLatestAt(events, name, i) && FirstLatestAt(events, name, k)
    ensures i == k
  {
  }

  /** `r` is what the forward scan should find: nothing exactly when no tag has the name,
      and otherwise the latest such tag, the earliest one in list order on a time tie. */
  ghost predicate Characterises(events: seq<Event>, name: string, r: Option<Tag>) {
    && (r.None? <==> !HasTagNamed(events, name))
    && (r.Some? ==>
          r.value.name == name
          && exists i :: 0 <= i < |events| && FirstLatestAt(events, name, i) && events[i] == TagEvent(r.value))
  }

  lemma ExtendWithOther(p: seq<Event>, e: Event, name: string, r: Option<Tag>)
    requires Characterises(p, name, r) && !IsTagNamed(e, name)
    ensures Characterises(p + [e], name, r)
  {
    var s := p + [e];
    assert forall j :: 0 <= j < |p| ==> s[j] == p[j];
    if r.Some? {
      var i :| 0 <= i < |p| && FirstLatestAt(p, name, i) && p[i] == TagEvent(r.value);
      assert FirstLatestAt(s, name, i);
    } else {
      assert !HasTagNamed(s, name) by {
        forall j | 0 <= j < |s| ensures !IsTagNamed(s[j], name) {
          if j < |p| {
            assert s[j] == p[j];
          }
        }
      }
    }
  }

  lemma ExtendWithFirst(p: seq<Event>, e: Event, name: string)
    requires !HasTagNamed(p, name) && IsTagNamed(e, name)
    ensures Characterises(p + [e], name, Some(e.tag))
  {
    var s := p + [e];
    assert forall j :: 0 <= j < |p| ==> s[j] == p[j];
    assert FirstLatestAt(s, name, |p|) by {
      forall j | 0 <= j < |p| ensures !IsTagNamed(s[j], name) {
        assert s[j] == p[j];
      }
    }
  }

  lemma ExtendWithLater(p: seq<Event>, e: Event, name: string, i: int)
    requires FirstLatestAt(p, name, i) && IsTagNamed(e, name) && Key(p[i].tag.time) < Key(e.tag.time)
    ensures FirstLatestAt(p + [e], name, |p|)
  {
    var s := p + [e];
    assert forall j :: 0 <= j < |p| ==> s[j] == p[j];
  }

  lemma ExtendWithNotLater(p: seq<Event>, e: Event, name: string, i: int)
    requires FirstLatestAt(p, name, i) && IsTagNamed(e, name) && Key(e.tag.time) <= Key(p[i].tag.time)
    ensures FirstLatestAt(p + [e], name, i)
  {
    var s := p + [e];
    assert forall j :: 0 <= j < |p| ==> s[j] == p[j];
  }

  /** The forward scan finds nothing exactly when no tag has the name, and otherwise the
      latest such tag, the earliest one in list order on a time tie. */
  lemma {:induction false} MostRecentTagCharacterised(events: seq<Event>, name: string)
    ensures Characterises(events, name, MostRecentTagForName(events, name))
    decreases |events|
  {
    if |events| == 0 {
      return;
    }
    var p := events[..|events| - 1];
    var e := events[|events| - 1];
    assert events == p + [e];
    MostRecentTagCharacterised(p, name);
    var recent := MostRecentTagForName(p, name);
    if !IsTagNamed(e, name) {
      ExtendWithOther(p, e, name, recent);
    } else if recent.None? {
      ExtendWithFirst(p, e, name);
    } else {
      var i :| 0 <= i < |p| && FirstLatestAt(p, name, i) && p[i] == TagEvent(recent.value);
      if Key(recent.value.time) < Key(e.tag.time) {
        ExtendWithLater(p, e, name, i);
      } else {
        ExtendWithNotLater(p, e, name, i);
      }
    }
  }

  /** Two tags for one name at the same time: the one met first is kept. */
  lemma TieKeepsFirst(a: Tag, b: Tag)
    requires a.name == b.name && Key(a.time) == Key(b.time)
    ensures MostRecentTagForName([TagEvent(a), TagEvent(b)], a.name) == Some(a)
  {
    assert [TagEvent(a), TagEvent(b)][..1] == [TagEvent(a)];
    assert [TagEvent(a)][..0] == [];
    assert MostRecentTagForName([TagEvent(a)], a.name) == Some(a);
  }

  // ---------------------------------------------------------------------------------------
  // all_tags
  // ---------------------------------------------------------------------------------------

  /** The two lists `all_tags` keeps while it walks the timeline backwards: names closed by
      a disabling toggle, and the names it reports. */
  datatype ReverseScan = ReverseScan(untagged: seq<string>, tagList: seq<string>)

  /** One step of the backward walk. A name not yet closed is reported when the toggle
      enables it and closed when the toggle disables it; enabling does not close it. */
  function ScanStep(st: ReverseScan, e: Event): ReverseScan {
    match e
    case CommentEvent(_) => st
    case TagEvent(tag) =>
      var isUntag := tag.name in st.untagged;
      if !isUntag && tag.enabled then st.(tagList := st.tagList + [tag.name])
      else if !isUntag && !tag.enabled then st.(untagged := st.untagged + [tag.name])
      else st
  }

  /** The state after visiting `events` from the last to the first. */
  function ScanBackwards(events: seq<Event>): ReverseScan
    decreases |events|
  {
    if |events| == 0 then ReverseScan([], [])
    else ScanStep(ScanBackwards(events[1..]), events[0])
  }

  /** `all_tags`: the names reported by the backward walk, most recent first. */
  function AllTags(events: seq<Event>): seq<string> {
    ScanBackwards(events).tagList
  }

  /** `events[i]` enables `name` and no later toggle disables it. */
  ghost predicate EnabledNotShadowed(events: seq<Event>, name: string, i: int) {
    EnabledAt(events, name, i) && forall j :: i < j < |events| ==> !DisabledAt(events, name, j)
  }

  /** The last toggle of `name` in list order enables it. */
  ghost predicate LastTagEnabled(events: seq<Event>, name: string) {
    exists i :: EnabledAt(events, name, i) && forall j :: i < j < |events| ==> !IsTagNamed(events[j], name)
  }

  lemma ShiftDisabled(events: seq<Event>, name: string)
    requires |events| > 0
    ensures HasDisabled(events, name) <==> DisabledAt(events, name, 0) || HasDisabled(events[1..], name)
    ensures forall i :: 0 < i < |events| ==>
              (EnabledNotShadowed(events, name, i) <==> EnabledNotShadowed(events[1..], name, i - 1))
  {
    var t := events[1..];
    assert forall i :: 0 < i < |events| ==> (DisabledAt(events, name, i) <==> DisabledAt(t, name, i - 1));
    assert forall i :: 0 <= i < |t| ==> (DisabledAt(t, name, i) <==> DisabledAt(events, name, i + 1));
  }

  /** The closed names are exactly those some toggle in the timeline disables. */
  lemma {:induction false} UntaggedAreDisabled(events: seq<Event>, name: string)
    ensures name in ScanBackwards(events).untagged <==> HasDisabled(events, name)
    decreases |events|
  {
    if |events| > 0 {
      UntaggedAreDisabled(events[1..], name);
      ShiftDisabled(events, name);
    }
  }

  /** How the reported list grows by one step of the walk. */
  lemma {:induction false} TagListStep(events: seq<Event>, name: string)
    requires |events| > 0
    ensures var rest := AllTags(events[1..]);
      AllTags(events) == rest + (if EnabledAt(events, name, 0) && !HasDisabled(events[1..], name) then [name] else [])
      || (AllTags(events) == rest + [events[0].tag.name] && events[0].tag.name != name)
      || (AllTags(events) == rest && !EnabledAt(events, name, 0))
  {
    UntaggedAreDisabled(events[1..], name);
    var e := events[0];
    if e.TagEvent? {
      UntaggedAreDisabled(events[1..], e.tag.name);
    }
  }

  /** A name is reported exactly when some toggle enables it and no later toggle disables it. */
  lemma {:induction false} AllTagsReportsUnshadowed(events: seq<Event>, name: string)
    ensures name in AllTags(events) <==> exists i :: EnabledNotShadowed(events, name, i)
    decreases |events|
  {
    if |events| == 0 {
      return;
    }
    var t := events[1..];
    AllTagsReportsUnshadowed(t, name);
    TagListStep(events, name);
    ShiftDisabled(events, name);
    if name in AllTags(events) && name in AllTags(t) {
      var i :| EnabledNotShadowed(t, name, i);
      assert EnabledNotShadowed(events, name, i + 1);
    }
    if name in AllTags(events) && name !in AllTags(t) {
      assert EnabledNotShadowed(events, name, 0) by {
        forall j | 0 < j < |events| ensures !DisabledAt(events, name, j) {
          assert !DisabledAt(t, name, j - 1);
        }
      }
    }
    if i :| EnabledNotShadowed(events, name, i) {
      if i > 0 {
        assert EnabledNotShadowed(t, name, i - 1);
      } else {
        assert !HasDisabled(t, name) by {
          forall j | 0 <= j < |t| ensures !DisabledAt(t, name, j) {
            assert !DisabledAt(events, name, j + 1);
          }
        }
      }
    }
  }

  /** The last toggle of `name` at or after position `i`, which is a toggle of `name`. */
  lemma LastTagIndex(events: seq<Event>, name: string, i: int) returns (last: int)
    requires 0 <= i < |events| && IsTagNamed(events[i], name)
    ensures i <= last < |events| && IsTagNamed(events[last], name)
    ensures forall j :: last < j < |events| ==> !IsTagNamed(events[j], name)
    decreases |events| - i
  {
    if j :| i < j < |events| && IsTagNamed(events[j], name) {
      last := LastTagIndex(events, name, j);
    } else {
      last := i;
    }
  }

  /** `all_tags` reports a name exactly when the last toggle of that name in list order
      enables it; comments and earlier toggles play no part. */
  lemma AllTagsMembership(events: seq<Event>, name: string)
    ensures name in AllTags(events) <==> LastTagEnabled(events, name)
  {
    AllTagsReportsUnshadowed(events, name);
    if i :| EnabledNotShadowed(events, name, i) {
      var last := LastTagIndex(events, name, i);
      if last != i {
        assert !DisabledAt(events, name, last);
      }
      assert EnabledAt(events, name, last);
    }
    if i :| EnabledAt(events, name, i) && forall j :: i < j < |events| ==> !IsTagNamed(events[j], name) {
      assert EnabledNotShadowed(events, name, i);
    }
  }

  /** Every reported name comes from a toggle that enables it. */
  lemma AllTagsComeFromEnabledTags(events: seq<Event>)
    ensures forall name :: name in AllTags(events) ==> exists i :: EnabledAt(events, name, i)
  {
    forall name | name in AllTags(events)
      ensures exists i :: EnabledAt(events, name, i)
    {
      AllTagsMembership(events, name);
    }
  }

  /** Reference count, computed from the end of the timeline: the enabling toggles of `name`
      after its last disabling toggle. */
  function EnabledSinceLastDisable(events: seq<Event>, name: string): nat
    decreases |events|
  {
    if |events| == 0 then 0
    else
      var e := events[|events| - 1];
      if IsTagNamed(e, name) && !e.tag.enabled then 0
      else EnabledSinceLastDisable(events[..|events| - 1], name) + (if IsTagNamed(e, name) then 1 else 0)
  }

  lemma {:induction false} EnabledSinceLastDisableCons(e: Event, events: seq<Event>, name: string)
    ensures EnabledSinceLastDisable([e] + events, name)
            == EnabledSinceLastDisable(events, name)
               + (if IsTagNamed(e, name) && e.tag.enabled && !HasDisabled(events, name) then 1 else 0)
    decreases |events|
  {
    var s := [e] + events;
    if |events| == 0 {
      assert s[..0] == [];
      assert !HasDisabled(events, name);
    } else {
      var init := events[..|events| - 1];
      var l := events[|events| - 1];
      assert s[..|s| - 1] == [e] + init;
      assert s[|s| - 1] == l;
      EnabledSinceLastDisableCons(e, init, name);
      assert HasDisabled(events, name) <==> HasDisabled(init, name) || (IsTagNamed(l, name) && !l.tag.enabled) by {
        assert forall j :: 0 <= j < |init| ==> (DisabledAt(init, name, j) <==> DisabledAt(events, name, j));
        if HasDisabled(events, name) {
          var j :| DisabledAt(events, name, j);
          if j < |init| {
            assert DisabledAt(init, name, j);
          }
        }
        if IsTagNamed(l, name) && !l.tag.enabled {
          assert DisabledAt(events, name, |events| - 1);
        }
      }
    }
  }

  /** `all_tags` reports a name once for every enabling toggle after the name's last
      disabling toggle: a name enabled twice in a row is reported twice. */
  lemma {:induction false} AllTagsMultiplicity(events: seq<Event>, name: string)
    ensures multiset(AllTags(events))[name] == EnabledSinceLastDisable(events, name)
    decreases |events|
  {
    if |events| == 0 {
      return;
    }
    AllTagsMultiplicity(events[1..], name);
    TagListStep(events, name);
    assert events == [events[0]] + events[1..];
    EnabledSinceLastDisableCons(events[0], events[1..], name);
  }

  /** The duplication in its smallest form. */
  lemma RepeatedEnableIsReportedTwice(a: Tag, b: Tag)
    requires a.name == b.name && a.enabled && b.enabled
    ensures AllTags([TagEvent(a), TagEvent(b)]) == [a.name, a.name]
  {
    assert [TagEvent(a), TagEvent(b)][1..] == [TagEvent(b)];
    assert [TagEvent(b)][1..] == [];
    assert ScanBackwards([TagEvent(b)]) == ReverseScan([], [b.name]);
  }

  /** A comment anywhere in the timeline changes nothing the backward walk computes. */
  lemma {:induction false} CommentsAreIgnored(before: seq<Event>, c: Comment, after: seq<Event>)
    ensures ScanBackwards(before + [CommentEvent(c)] + after) == ScanBackwards(before + after)
    ensures AllTags(before + [CommentEvent(c)] + after) == AllTags(before + after)
    decreases |before|
  {
    var s := before + [CommentEvent(c)] + after;
    if |before| == 0 {
      assert s[1..] == after;
      assert before + after == after;
    } else {
      CommentsAreIgnored(before[1..], c, after);
      assert s[1..] == before[1..] + [CommentEvent(c)] + after;
      assert (before + after)[1..] == before[1..] + after;
    }
  }

  /** A disabling toggle at position `i` shadows everything before it for that name: the
      report for the events after `i` is a prefix of the whole report, and nothing the
      earlier events add is that name. */
  lemma DisabledShadowsHistory(events: seq<Event>, name: string, i: int)
    requires DisabledAt(events, name, i)
    ensures AllTags(events[i + 1..]) <= AllTags(events)
    ensures forall k :: |AllTags(events[i + 1..])| <= k < |AllTags(events)| ==> AllTags(events)[k] != name
  {
    ShadowFrom(events, name, i, 0);
    assert events[0..] == events;
  }

  lemma {:induction false} ShadowFrom(events: seq<Event>, name: string, i: int, j: int)
    requires DisabledAt(events, name, i) && 0 <= j <= i + 1
    ensures AllTags(events[i + 1..]) <= AllTags(events[j..])
    ensures forall k :: |AllTags(events[i + 1..])| <= k < |AllTags(events[j..])| ==> AllTags(events[j..])[k] != name
    decreases i + 1 - j
  {
    if j <= i {
      ShadowFrom(events, name, i, j + 1);
      var s := events[j..];
      assert s[1..] == events[j + 1..];
      if j < i {
        assert DisabledAt(s[1..], name, i - j - 1);
      }
      UntaggedAreDisabled(s[1..], name);
    }
  }

  // ---------------------------------------------------------------------------------------
  // Appending to the timeline
  // ---------------------------------------------------------------------------------------

  /** After `add_tag`, the toggled name is reported exactly when the new toggle enables it,
      and every other name is reported exactly as before. */
  lemma AddTagDecidesName(i: Issue, t: Tag, name: string)
    ensures name == t.name ==> (name in AllTags(AddTag(i, t).events) <==> t.enabled)
    ensures name != t.name ==> (name in AllTags(AddTag(i, t).events) <==> name in AllTags(i.events))
  {
    var before := i.events;
    var events := AddTag(i, t).events;
    var n := |before|;
    assert events[n] == TagEvent(t);
    assert forall k :: 0 <= k < n ==> events[k] == before[k];
    AllTagsMembership(events, name);
    AllTagsMembership(before, name);
    if name == t.name {
      if t.enabled {
        assert EnabledAt(events, name, n);
      } else if LastTagEnabled(events, name) {
        var k :| EnabledAt(events, name, k) && forall j :: k < j < |events| ==> !IsTagNamed(events[j], name);
        assert k != n;
        assert IsTagNamed(events[n], name);
      }
    } else {
      if LastTagEnabled(events, name) {
        var k :| EnabledAt(events, name, k) && forall j :: k < j < |events| ==> !IsTagNamed(events[j], name);
        assert EnabledAt(before, name, k);
      }
      if LastTagEnabled(before, name) {
        var k :| EnabledAt(before, name, k) && forall j :: k < j < |before| ==> !IsTagNamed(before[j], name);
        assert EnabledAt(events, name, k);
      }
    }
  }

  /** A comment appended to a timeline changes neither query. */
  lemma AddCommentKeepsTags(i: Issue, c: Comment, name: string)
    ensures AllTags(AddComment(i, c).events) == AllTags(i.events)
    ensures MostRecentTagForName(AddComment(i, c).events, name) == MostRecentTagForName(i.events, name)
  {
    CommentsAreIgnored(i.events, c, []);
    assert i.events + [CommentEvent(c)] + [] == AddComment(i, c).events;
    assert i.events + [] == i.events;
    assert AddComment(i, c).events[..|i.events|] == i.events;
  }

  // ---------------------------------------------------------------------------------------
  // The two queries together
  // ---------------------------------------------------------------------------------------

  /** The timeline order `all_tags` relies on. */
  ghost predicate SortedByTime(events: seq<Event>) {
    forall i, j :: 0 <= i < j < |events| ==> Key(EventTime(events[i])) <= Key(EventTime(events[j]))
  }

  ghost predicate DistinctTagTimes(events: seq<Event>, name: string) {
    forall i, j :: 0 <= i < j < |events| && IsTagNamed(events[i], name) && IsTagNamed(events[j], name) ==>
      Key(events[i].tag.time) != Key(events[j].tag.time)
  }

  /** On a time-sorted timeline whose toggles of `name` have distinct times, the first of
      the latest tags for `name` is also the last one in list order. */
  lemma LatestIsLastWhenSorted(events: seq<Event>, name: string, i: int)
    requires SortedByTime(events) && DistinctTagTimes(events, name) && FirstLatestAt(events, name, i)
    ensures forall j :: i < j < |events| ==> !IsTagNamed(events[j], name)
  {
    forall j | i < j < |events| ensures !IsTagNamed(events[j], name) {
      assert Key(EventTime(events[i])) <= Key(EventTime(events[j]));
    }
  }

  /** On a time-sorted timeline whose toggles of `name` have distinct times, `all_tags`
      reports `name` exactly when the most recent tag for it is enabled. */
  lemma QueriesAgreeWhenSorted(events: seq<Event>, name: string)
    requires SortedByTime(events) && DistinctTagTimes(events, name)
    ensures name in AllTags(events) <==>
            MostRecentTagForName(events, name).Some? && MostRecentTagForName(events, name).value.enabled
  {
    MostRecentTagCharacterised(events, name);
    AllTagsMembership(events, name);
    var r := MostRecentTagForName(events, name);
    if r.Some? {
      var i :| 0 <= i < |events| && FirstLatestAt(events, name, i) && events[i] == TagEvent(r.value);
      LatestIsLastWhenSorted(events, name, i);
      if LastTagEnabled(events, name) {
        var k :| EnabledAt(events, name, k) && forall j :: k < j < |events| ==> !IsTagNamed(events[j], name);
        assert k == i;
      } else {
        assert !EnabledAt(events, name, i);
      }
    }
  }

  /** Without distinct times the two queries can disagree: on a tie the forward scan keeps
      the first toggle while the backward walk honours the last. */
  lemma TiedTogglesDisagree(a: Tag, b: Tag)
    requires a.name == b.name && Key(a.time) == Key(b.time) && a.enabled && !b.enabled
    ensures SortedByTime([TagEvent(a), TagEvent(b)])
    ensures MostRecentTagForName([TagEvent(a), TagEvent(b)], a.name) == Some(a)
    ensures a.name !in AllTags([TagEvent(a), TagEvent(b)])
  {
    TieKeepsFirst(a, b);
    assert [TagEvent(a), TagEvent(b)][1..] == [TagEvent(b)];
    assert [TagEvent(b)][1..] == [];
    assert ScanBackwards([TagEvent(b)]) == ReverseScan([b.name], []);
  }
}
