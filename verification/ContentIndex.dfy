/**
  Topic, speaker and timeline indexes of the content knowledge base
  (`src/content_kb/index_builder.py`).  Every builder updates an existing index in place;
  the main results say that what an index holds does not depend on how its entries were batched.
*/
module ContentIndex {
  import opened Options
  import Lexicographic
  import Selections
  import Seqs
  import StableSort

  /** A content entry; an absent key reads as "", a `speaker` that is not a list as `None`. */
  datatype Entry = Entry(topic: string, title: string, slug: string, createdAt: string, speakers: Option<seq<string>>)

  // ----- topics

  datatype TopicStat = TopicStat(count: nat, latestTitle: string, latestSlug: string)

  function AddTopic(topics: map<string, TopicStat>, e: Entry): map<string, TopicStat> {
    if e.topic == "" then topics
    else topics[e.topic := TopicStat((if e.topic in topics then topics[e.topic].count else 0) + 1, e.title, e.slug)]
  }

  function Topics(topics: map<string, TopicStat>, entries: seq<Entry>): map<string, TopicStat> {
    if entries == [] then topics
    else AddTopic(Topics(topics, entries[..|entries| - 1]), entries[|entries| - 1])
  }

  class TopicIndex {
    var topics: map<string, TopicStat>

    constructor ()
      ensures topics == map[]
    {
      topics := map[];
    }
  }

  /** `build_topic_index` */
  method BuildTopicIndex(existing: TopicIndex?, entries: seq<Entry>) returns (base: TopicIndex)
    modifies existing
    ensures if existing == null then fresh(base) else base == existing
    ensures base.topics == Topics(if existing == null then map[] else old(existing.topics), entries)
  {
    if existing == null {
      base := new TopicIndex();
    } else {
      base := existing;
    }
    ghost var start := base.topics;
    for n := 0 to |entries|
      invariant base.topics == Topics(start, entries[..n])
    {
      Seqs.TakeSucc(entries, n);
      var e := entries[n];
      if e.topic == "" {
        continue;
      }
      if e.topic !in base.topics {
        base.topics := base.topics[e.topic := TopicStat(0, "", "")];
      }
      var stat := base.topics[e.topic];
      stat := stat.(count := stat.count + 1);
      stat := stat.(latestTitle := e.title);
      stat := stat.(latestSlug := e.slug);
      base.topics := base.topics[e.topic := stat];
    }
    Seqs.TakeAll(entries);
  }

  /** The entries on a topic, in order of arrival. */
  ghost function OnTopic(entries: seq<Entry>, t: string): seq<Entry> {
    if entries == [] then []
    else
      var e := entries[|entries| - 1];
      OnTopic(entries[..|entries| - 1], t) + if e.topic == t then [e] else []
  }

  /** What a topic index holds: the number of entries on each topic, and the last one's title and slug. */
  lemma {:induction false} TopicsMeaning(topics: map<string, TopicStat>, entries: seq<Entry>, t: string)
    ensures var r, on := Topics(topics, entries), OnTopic(entries, t);
      && (t in r <==> t in topics || (t != "" && on != []))
      && (t in r && (t == "" || on == []) ==> r[t] == topics[t])
      && (t in r && t != "" && on != [] ==> r[t] == TopicStat((if t in topics then topics[t].count else 0) + |on|,
                                                 on[|on| - 1].title, on[|on| - 1].slug))
  {
    if entries != [] {
      var n := |entries| - 1;
      TopicsMeaning(topics, entries[..n], t);
      var on := OnTopic(entries[..n], t);
      Seqs.EmptyUnit(on);
      Seqs.InitOfSnoc(on, entries[n]);
      hide Topics, OnTopic;
      assert Topics(topics, entries) == AddTopic(Topics(topics, entries[..n]), entries[n]);
      assert OnTopic(entries, t) == if entries[n].topic == t then on + [entries[n]] else on;
    }
  }

  lemma {:induction false} TopicsInBatches(topics: map<string, TopicStat>, a: seq<Entry>, b: seq<Entry>)
    ensures Topics(topics, a + b) == Topics(Topics(topics, a), b)
  {
    if b == [] {
      Seqs.EmptyUnit(a);
    } else {
      var n := |b| - 1;
      TopicsInBatches(topics, a, b[..n]);
      Seqs.SplitLast(b);
      Seqs.Assoc(a, b[..n], [b[n]]);
      Seqs.InitOfSnoc(a + b[..n], b[n]);
    }
  }

  // ----- speakers

  /** One appearance of a speaker. */
  datatype Mention = Mention(speaker: string, topic: string, title: string)

  datatype SpeakerStat = SpeakerStat(appearances: nat, topics: seq<string>, latestTitle: string)

  function AppendNew(topics: seq<string>, t: string): seq<string> {
    if t == "" || t in topics then topics else topics + [t]
  }

  const NO_APPEARANCE := SpeakerStat(0, [], "")

  function AddMention(speakers: map<string, SpeakerStat>, m: Mention): map<string, SpeakerStat> {
    if m.speaker == "" then speakers
    else
      var stat := if m.speaker in speakers then speakers[m.speaker] else NO_APPEARANCE;
      speakers[m.speaker := SpeakerStat(stat.appearances + 1, AppendNew(stat.topics, m.topic), m.title)]
  }

  function Speakers(speakers: map<string, SpeakerStat>, mentions: seq<Mention>): map<string, SpeakerStat> {
    if mentions == [] then speakers
    else AddMention(Speakers(speakers, mentions[..|mentions| - 1]), mentions[|mentions| - 1])
  }

  ghost function MentionsOf(e: Entry, names: seq<string>): seq<Mention> {
    if names == [] then []
    else MentionsOf(e, names[..|names| - 1]) + [Mention(names[|names| - 1], e.topic, e.title)]
  }

  /** The appearances in a list of entries, in order. */
  ghost function Mentions(entries: seq<Entry>): seq<Mention> {
    if entries == [] then []
    else
      var e := entries[|entries| - 1];
      Mentions(entries[..|entries| - 1]) + if e.speakers.Some? then MentionsOf(e, e.speakers.value) else []
  }

  class SpeakerIndex {
    var speakers: map<string, SpeakerStat>

    constructor ()
      ensures speakers == map[]
    {
      speakers := map[];
    }
  }

  /** `build_speaker_index` */
  method BuildSpeakerIndex(existing: SpeakerIndex?, entries: seq<Entry>) returns (base: SpeakerIndex)
    modifies existing
    ensures if existing == null then fresh(base) else base == existing
    ensures base.speakers == Speakers(if existing == null then map[] else old(existing.speakers), Mentions(entries))
  {
    if existing == null {
      base := new SpeakerIndex();
    } else {
      base := existing;
    }
    ghost var start := base.speakers;
    for n := 0 to |entries|
      invariant base.speakers == Speakers(start, Mentions(entries[..n]))
    {
      Seqs.TakeSucc(entries, n);
      var e := entries[n];
      if e.speakers.None? {
        Seqs.EmptyUnit(Mentions(entries[..n]));
        continue;
      }
      AddAppearances(base, e, e.speakers.value, start, Mentions(entries[..n]));
    }
    Seqs.TakeAll(entries);
  }

  /** The inner loop: the speakers of one entry. */
  method AddAppearances(base: SpeakerIndex, e: Entry, names: seq<string>,
                        ghost start: map<string, SpeakerStat>, ghost before: seq<Mention>)
    requires base.speakers == Speakers(start, before)
    modifies base
    ensures base.speakers == Speakers(start, before + MentionsOf(e, names))
  {
    hide Speakers, MentionsOf;
    NoMentions(e);
    Seqs.EmptyUnit(before);
    for k := 0 to |names|
      invariant base.speakers == Speakers(start, before + MentionsOf(e, names[..k]))
    {
      MentionsOfSnoc(e, names, k);
      var speaker := names[k];
      ghost var m := Mention(speaker, e.topic, e.title);
      Seqs.Assoc(before, MentionsOf(e, names[..k]), [m]);
      SpeakersSnoc(start, before + MentionsOf(e, names[..k]), m);
      if speaker == "" {
        continue;
      }
      if speaker !in base.speakers {
        base.speakers := base.speakers[speaker := NO_APPEARANCE];
      }
      var stat := base.speakers[speaker];
      stat := stat.(appearances := stat.appearances + 1);
      if e.topic != "" && e.topic !in stat.topics {
        stat := stat.(topics := stat.topics + [e.topic]);
      }
      stat := stat.(latestTitle := e.title);
      base.speakers := base.speakers[speaker := stat];
    }
    Seqs.TakeAll(names);
  }

  lemma NoMentions(e: Entry)
    ensures MentionsOf(e, []) == []
  {
  }

  lemma MentionsOfSnoc(e: Entry, names: seq<string>, k: nat)
    requires k < |names|
    ensures MentionsOf(e, names[..k + 1]) == MentionsOf(e, names[..k]) + [Mention(names[k], e.topic, e.title)]
  {
    Seqs.TakeSucc(names, k);
  }

  lemma SpeakersSnoc(speakers: map<string, SpeakerStat>, mentions: seq<Mention>, m: Mention)
    ensures Speakers(speakers, mentions + [m]) == AddMention(Speakers(speakers, mentions), m)
  {
    Seqs.InitOfSnoc(mentions, m);
  }

  /** The appearances of one speaker, in order. */
  ghost function Of(mentions: seq<Mention>, s: string): seq<Mention> {
    if mentions == [] then []
    else Of(mentions[..|mentions| - 1], s)
         + if mentions[|mentions| - 1].speaker == s then [mentions[|mentions| - 1]] else []
  }

  ghost predicate Seen(mentions: seq<Mention>, t: string) {
    exists k :: 0 <= k < |mentions| && mentions[k].topic == t
  }

  lemma SeenSnoc(mentions: seq<Mention>, t: string)
    requires mentions != []
    ensures Seen(mentions, t) <==> Seen(mentions[..|mentions| - 1], t) || mentions[|mentions| - 1].topic == t
  {
    if k :| 0 <= k < |mentions| - 1 && mentions[k].topic == t {
      assert mentions[..|mentions| - 1][k].topic == t;
    }
  }

  /** The non-empty topics of some appearances, each once, at its first occurrence. */
  ghost function FirstTopics(mentions: seq<Mention>): seq<string> {
    if mentions == [] then []
    else
      var before, t := mentions[..|mentions| - 1], mentions[|mentions| - 1].topic;
      FirstTopics(before) + if t != "" && !Seen(before, t) then [t] else []
  }

  lemma {:induction false} FirstTopicsMembers(mentions: seq<Mention>, t: string)
    ensures t in FirstTopics(mentions) <==> t != "" && Seen(mentions, t)
    ensures multiset(FirstTopics(mentions))[t] <= 1
  {
    if mentions != [] {
      hide Seen;
      FirstTopicsMembers(mentions[..|mentions| - 1], t);
      SeenSnoc(mentions, t);
    }
  }

  /** `r` holds for speaker `s` what the appearances `of` say. */
  ghost predicate Describes(r: map<string, SpeakerStat>, s: string, of: seq<Mention>) {
    && (s in r <==> s != "" && of != [])
    && (s in r ==> r[s] == SpeakerStat(|of|, FirstTopics(of), of[|of| - 1].title))
  }

  lemma DescribesNext(r: map<string, SpeakerStat>, s: string, of: seq<Mention>, m: Mention)
    requires Describes(r, s, of)
    ensures Describes(AddMention(r, m), s, if m.speaker == s then of + [m] else of)
  {
    hide FirstTopics;
    if m.speaker == s {
      FirstTopicsSnoc(of, m);
      NoTopics();
    }
  }

  /** What a speaker index built from nothing holds. */
  lemma {:induction false} SpeakersMeaning(mentions: seq<Mention>, s: string)
    ensures Describes(Speakers(map[], mentions), s, Of(mentions, s))
  {
    hide Describes, AddMention;
    if mentions == [] {
      NothingDescribed(s);
    } else {
      var n := |mentions| - 1;
      SpeakersMeaning(mentions[..n], s);
      DescribesNext(Speakers(map[], mentions[..n]), s, Of(mentions[..n], s), mentions[n]);
      Seqs.EmptyUnit(Of(mentions[..n], s));
    }
  }

  lemma NothingDescribed(s: string)
    ensures Describes(map[], s, [])
  {
  }

  lemma NoTopics()
    ensures FirstTopics([]) == []
  {
  }

  lemma FirstTopicsSnoc(mentions: seq<Mention>, m: Mention)
    ensures FirstTopics(mentions + [m]) == AppendNew(FirstTopics(mentions), m.topic)
  {
    hide Seen;
    Seqs.InitOfSnoc(mentions, m);
    FirstTopicsMembers(mentions, m.topic);
    Seqs.EmptyUnit(FirstTopics(mentions));
  }

  lemma {:induction false} SpeakersInBatches(speakers: map<string, SpeakerStat>, a: seq<Mention>, b: seq<Mention>)
    ensures Speakers(speakers, a + b) == Speakers(Speakers(speakers, a), b)
  {
    if b == [] {
      Seqs.EmptyUnit(a);
    } else {
      var n := |b| - 1;
      SpeakersInBatches(speakers, a, b[..n]);
      Seqs.SplitLast(b);
      Seqs.Assoc(a, b[..n], [b[n]]);
      SpeakersSnoc(speakers, a + b[..n], b[n]);
    }
  }

  lemma {:induction false} MentionsConcat(a: seq<Entry>, b: seq<Entry>)
    ensures Mentions(a + b) == Mentions(a) + Mentions(b)
  {
    if b == [] {
      Seqs.EmptyUnit(a);
      Seqs.EmptyUnit(Mentions(a));
    } else {
      var n := |b| - 1;
      MentionsConcat(a, b[..n]);
      Seqs.SplitLast(b);
      Seqs.Assoc(a, b[..n], [b[n]]);
      Seqs.InitOfSnoc(a + b[..n], b[n]);
      Seqs.Assoc(Mentions(a), Mentions(b[..n]),
                 if b[n].speakers.Some? then MentionsOf(b[n], b[n].speakers.value) else []);
    }
  }

  /** Speakers do not depend on batching either. */
  lemma SpeakerIndexInBatches(speakers: map<string, SpeakerStat>, a: seq<Entry>, b: seq<Entry>)
    ensures Speakers(speakers, Mentions(a + b)) == Speakers(Speakers(speakers, Mentions(a)), Mentions(b))
  {
    MentionsConcat(a, b);
    SpeakersInBatches(speakers, Mentions(a), Mentions(b));
  }

  // ----- timeline

  datatype TimelineEntry = TimelineEntry(date: string, topic: string, title: string, slug: string)

  /** Sorting key of `sort(key=date, reverse=True)`: later dates first. */
  predicate LaterFirst(a: TimelineEntry, b: TimelineEntry) {
    Lexicographic.Le(b.date, a.date)
  }

  lemma LaterFirstIsOrder()
    ensures StableSort.TotalPreorder(LaterFirst)
  {
    forall a, b ensures LaterFirst(a, b) || LaterFirst(b, a) {
      Lexicographic.Total(a.date, b.date);
    }
    forall a, b, c | LaterFirst(a, b) && LaterFirst(b, c) ensures LaterFirst(a, c) {
      Lexicographic.Transitive(c.date, b.date, a.date);
    }
  }

  /** The entries with a date, as the timeline stores them. */
  function Dated(entries: seq<Entry>): seq<TimelineEntry> {
    if entries == [] then []
    else
      var e := entries[|entries| - 1];
      Dated(entries[..|entries| - 1])
      + if e.createdAt == "" then [] else [TimelineEntry(e.createdAt, e.topic, e.title, e.slug)]
  }

  predicate HasDate(e: Entry) {
    e.createdAt != ""
  }

  function Stored(e: Entry): (t: TimelineEntry)
    ensures t.date == e.createdAt && t.topic == e.topic && t.title == e.title && t.slug == e.slug
  {
    TimelineEntry(e.createdAt, e.topic, e.title, e.slug)
  }

  /** The timeline stores the entries that have a date, in their order, each with its date, topic, title and slug. */
  lemma {:induction false} DatedExactly(entries: seq<Entry>)
    ensures Selections.Selection(entries, HasDate, Stored, Dated(entries))
  {
    hide Selections.Selection;
    if entries == [] {
      Selections.SelectNothing(HasDate, Stored);
    } else {
      var n := |entries| - 1;
      DatedExactly(entries[..n]);
      Selections.SelectMore(entries[..n], HasDate, Stored, Dated(entries[..n]), entries[n]);
      Seqs.SplitLast(entries);
      Seqs.EmptyUnit(Dated(entries[..n]));
    }
  }

  function Timeline(start: seq<TimelineEntry>, entries: seq<Entry>): seq<TimelineEntry> {
    StableSort.Sort(LaterFirst, start + Dated(entries))
  }

  class TimelineIndex {
    var entries: seq<TimelineEntry>

    constructor ()
      ensures entries == []
    {
      entries := [];
    }
  }

  /** `build_timeline_index` */
  method BuildTimelineIndex(existing: TimelineIndex?, entries: seq<Entry>) returns (base: TimelineIndex)
    modifies existing
    ensures if existing == null then fresh(base) else base == existing
    ensures base.entries == Timeline(if existing == null then [] else old(existing.entries), entries)
  {
    if existing == null {
      base := new TimelineIndex();
    } else {
      base := existing;
    }
    ghost var start := base.entries;
    Seqs.EmptyUnit(start);
    for n := 0 to |entries|
      invariant base.entries == start + Dated(entries[..n])
    {
      Seqs.TakeSucc(entries, n);
      var e := entries[n];
      if e.createdAt == "" {
        Seqs.EmptyUnit(Dated(entries[..n]));
        continue;
      }
      var t := TimelineEntry(e.createdAt, e.topic, e.title, e.slug);
      Seqs.Assoc(start, Dated(entries[..n]), [t]);
      base.entries := base.entries + [t];
    }
    Seqs.TakeAll(entries);
    base.entries := StableSort.Sort(LaterFirst, base.entries);
  }

  lemma {:induction false} DatedConcat(a: seq<Entry>, b: seq<Entry>)
    ensures Dated(a + b) == Dated(a) + Dated(b)
  {
    if b == [] {
      Seqs.EmptyUnit(a);
      Seqs.EmptyUnit(Dated(a));
    } else {
      var n := |b| - 1;
      DatedConcat(a, b[..n]);
      Seqs.SplitLast(b);
      Seqs.Assoc(a, b[..n], [b[n]]);
      Seqs.InitOfSnoc(a + b[..n], b[n]);
      var e := b[n];
      Seqs.Assoc(Dated(a), Dated(b[..n]),
                 if e.createdAt == "" then [] else [TimelineEntry(e.createdAt, e.topic, e.title, e.slug)]);
    }
  }

  /** The timeline does not depend on batching, whatever it started from. */
  lemma TimelineInBatches(start: seq<TimelineEntry>, a: seq<Entry>, b: seq<Entry>)
    ensures Timeline(start, a + b) == Timeline(Timeline(start, a), b)
  {
    LaterFirstIsOrder();
    DatedConcat(a, b);
    Seqs.Assoc(start, Dated(a), Dated(b));
    StableSort.SortInBatches(LaterFirst, start + Dated(a), Dated(b));
  }

  /** The entries of one day, in order. */
  ghost function OnDate(s: seq<TimelineEntry>, date: string): seq<TimelineEntry> {
    if s == [] then [] else (if s[0].date == date then [s[0]] else []) + OnDate(s[1..], date)
  }

  lemma {:induction false} ClassIsDate(k: TimelineEntry, s: seq<TimelineEntry>)
    ensures StableSort.Class(LaterFirst, k, s) == OnDate(s, k.date)
  {
    if s != [] {
      ClassIsDate(k, s[1..]);
      if LaterFirst(k, s[0]) && LaterFirst(s[0], k) {
        Lexicographic.Antisymmetric(k.date, s[0].date);
      }
      Lexicographic.Total(k.date, k.date);
    }
  }

  ghost predicate LaterDatesFirst(s: seq<TimelineEntry>) {
    forall i, j :: 0 <= i < j < |s| ==> Lexicographic.Le(s[j].date, s[i].date)
  }

  ghost predicate SameDays(s: seq<TimelineEntry>, t: seq<TimelineEntry>) {
    forall date :: OnDate(s, date) == OnDate(t, date)
  }

  lemma SortedTimeline(arrived: seq<TimelineEntry>)
    ensures LaterDatesFirst(StableSort.Sort(LaterFirst, arrived))
    ensures SameDays(StableSort.Sort(LaterFirst, arrived), arrived)
  {
    LaterFirstIsOrder();
    hide StableSort.Sort, StableSort.TotalPreorder, StableSort.Class, OnDate;
    StableSort.SortIsSorted(LaterFirst, arrived);
    var t := StableSort.Sort(LaterFirst, arrived);
    forall i, j | 0 <= i < j < |t| ensures Lexicographic.Le(t[j].date, t[i].date) {
      assert LaterFirst(t[i], t[j]);
    }
    forall date ensures OnDate(t, date) == OnDate(arrived, date) {
      var k := TimelineEntry(date, "", "", "");
      StableSort.SortIsStable(LaterFirst, k, arrived);
      ClassIsDate(k, t);
      ClassIsDate(k, arrived);
    }
  }

  lemma OnlyTimeline(arrived: seq<TimelineEntry>, s: seq<TimelineEntry>)
    requires LaterDatesFirst(s) && SameDays(s, arrived)
    ensures s == StableSort.Sort(LaterFirst, arrived)
  {
    LaterFirstIsOrder();
    hide StableSort.Sort, StableSort.TotalPreorder, StableSort.Class, OnDate;
    forall k ensures StableSort.Class(LaterFirst, k, s) == StableSort.Class(LaterFirst, k, arrived) {
      ClassIsDate(k, s);
      ClassIsDate(k, arrived);
    }
    forall i, j | 0 <= i < j < |s| ensures LaterFirst(s[i], s[j]) {
    }
    StableSort.SortIsTheOnlyStableSort(LaterFirst, arrived, s);
  }

  /**
    The timeline is the one arrangement of its entries that goes from later to earlier dates
    and keeps the entries of one day in order of arrival.
  */
  lemma TimelineCharacterised(start: seq<TimelineEntry>, entries: seq<Entry>, s: seq<TimelineEntry>)
    ensures s == Timeline(start, entries) <==> LaterDatesFirst(s) && SameDays(s, start + Dated(entries))
  {
    hide LaterDatesFirst, SameDays, StableSort.Sort;
    SortedTimeline(start + Dated(entries));
    if LaterDatesFirst(s) && SameDays(s, start + Dated(entries)) {
      OnlyTimeline(start + Dated(entries), s);
    }
  }
}
