/** Event records and the per-event steps of `parseEvents` and
    `processEvents` (index.js:117-157, index.js:181-197): the record built
    from the extracted fields, cleaning and title-casing, and the filter that
    drops events dated before the fetch date. */
module Events {
  import opened Wrappers
  import opened Seqs
  import opened JsBuiltins
  import opened Text
  import opened DateStamps

  /** The texts and attributes the markup extractor yields for one event
      block. `.attr(...)` is undefined when the attribute is missing, `.text()`
      is always a string. */
  datatype RawFields = RawFields(
    link: Option<string>,
    imageSrc: Option<string>,
    date: string,
    title: string,
    category: string)

  /** An event object. `imageLink` and `image` are None when the object has
      no such property. */
  datatype Event = Event(
    link: Option<string>,
    imageLink: Option<string>,
    image: Option<string>,
    date: string,
    title: string,
    category: string,
    fetchDate: string)

  /** The object literal built for each extracted block (index.js:181-197):
      an empty category text falls back to "Other" (`text() || "Other"`), the
      fetch date is the stamp's key, and there is no image yet. */
  function ExtractedEvent(raw: RawFields, fetch: DateStamp): (e: Event)
    ensures |e.category| > 0
    ensures |raw.category| > 0 ==> e.category == raw.category
    ensures |raw.category| == 0 ==> e.category == DefaultCategory
    ensures e.fetchDate == fetch.formatted && e.image.None?
    ensures e.link == raw.link && e.imageLink == raw.imageSrc
    ensures e.date == raw.date && e.title == raw.title
  {
    Event(raw.link, raw.imageSrc, None, raw.date, raw.title,
          if |raw.category| == 0 then DefaultCategory else raw.category,
          fetch.formatted)
  }

  // ---------------------------------------------------------------------------
  // Cleaning (index.js:119-132)
  // ---------------------------------------------------------------------------

  /** What cleaning guarantees of an event. */
  predicate IsNormalized(e: Event)
  {
    && IsClean(e.date)
    && IsClean(e.category)
    && |e.category| > 0
    && TitleCase(e.title) == e.title
  }

  /** Strips tabs and line feeds from date and category, defaults an empty
      category to "Other" and title-cases the title; the link, image link,
      image and fetch date are untouched. */
  function NormalizeEvent(e: Event): (r: Event)
    ensures IsNormalized(r)
    ensures r.date == StripTabsNewlines(e.date)
    ensures r.category == CleanCategory(e.category) && r.title == TitleCase(e.title)
    ensures r.link == e.link && r.imageLink == e.imageLink && r.image == e.image
    ensures r.fetchDate == e.fetchDate
    ensures |r.title| == |e.title|
  {
    TitleCaseIdempotent(e.title);
    e.(date := StripTabsNewlines(e.date),
       category := CleanCategory(e.category),
       title := TitleCase(e.title))
  }

  /** A normalised event is its own normal form. */
  lemma NormalizedIsFixpoint(e: Event)
    requires IsNormalized(e)
    ensures NormalizeEvent(e) == e
  {
    StripCleanIsIdentity(e.date);
    StripCleanIsIdentity(e.category);
  }

  /** Normalising twice is normalising once. */
  lemma NormalizeIdempotent(e: Event)
    ensures NormalizeEvent(NormalizeEvent(e)) == NormalizeEvent(e)
  {
    NormalizedIsFixpoint(NormalizeEvent(e));
  }

  function NormalizeAll(events: seq<Event>): (r: seq<Event>)
    ensures |r| == |events|
    ensures forall i :: 0 <= i < |r| ==> r[i] == NormalizeEvent(events[i])
  {
    seq(|events|, i requires 0 <= i < |events| => NormalizeEvent(events[i]))
  }

  // ---------------------------------------------------------------------------
  // Past-event filter (index.js:135-157)
  // ---------------------------------------------------------------------------

  /** `date_arr[k]` for a possibly negative or too large index: undefined,
      which `parseInt` turns into NaN. */
  function ParseFieldAt(fields: seq<string>, k: int): Option<int>
  {
    if 0 <= k < |fields| then ParseInt(fields[k]) else None
  }

  /** Year, month and day read from the last three dash-separated fields. */
  function DateSuffix(date: string): (Option<int>, Option<int>, Option<int>)
  {
    var fields := Split(date, '-');
    var n := |fields|;
    (ParseFieldAt(fields, n - 3), ParseFieldAt(fields, n - 2), ParseFieldAt(fields, n - 1))
  }

  /** `a < b` and `a <= b` against a number that may be NaN: every
      comparison with NaN is false. */
  predicate Less(a: int, b: Option<int>)
  {
    b.Some? && a < b.value
  }

  predicate AtMost(a: int, b: Option<int>)
  {
    b.Some? && a <= b.value
  }

  /** The filter's three tests, in the order and with the operators of index.js:
      a later year; a later month in the same or a later year; a year, month
      and day all at least those of the fetch date. */
  predicate IsUpcoming(date: string, fetch: DateStamp)
    ensures IsUpcoming(date, fetch) ==> |Split(date, '-')| >= 3
    ensures IsUpcoming(date, fetch) ==>
              DateSuffix(date).0.Some? && fetch.year <= DateSuffix(date).0.value
  {
    var (y, m, d) := DateSuffix(date);
    || Less(fetch.year, y)
    || (Less(fetch.month, m) && AtMost(fetch.year, y))
    || (AtMost(fetch.year, y) && AtMost(fetch.month, m) && AtMost(fetch.day, d))
  }

  /** Lexicographic order on (year, month, day). */
  predicate LexAtLeast(y: int, m: int, d: int, fy: int, fm: int, fd: int)
  {
    y > fy || (y == fy && (m > fm || (m == fm && d >= fd)))
  }

  /** With all three fields readable, the three tests amount to "the event's
      (year, month, day) is not before the fetch date's". */
  lemma UpcomingIsLexicographic(date: string, fetch: DateStamp)
    requires DateSuffix(date).0.Some? && DateSuffix(date).1.Some? && DateSuffix(date).2.Some?
    ensures IsUpcoming(date, fetch) <==>
            LexAtLeast(DateSuffix(date).0.value, DateSuffix(date).1.value, DateSuffix(date).2.value,
                       fetch.year, fetch.month, fetch.day)
  {
  }

  /** A date with fewer than three fields, or whose year field is not a
      number, is never upcoming. */
  lemma UnreadableYearIsDropped(date: string, fetch: DateStamp)
    requires |Split(date, '-')| < 3 || DateSuffix(date).0.None?
    ensures !IsUpcoming(date, fetch)
  {
  }

  /** `r` holds every upcoming event exactly as often as `events` does, and
      nothing else. */
  ghost predicate KeepsUpcomingCopies(r: seq<Event>, events: seq<Event>, fetch: DateStamp)
  {
    forall e :: multiset(r)[e] == if IsUpcoming(e.date, fetch) then multiset(events)[e] else 0
  }

  /** `events.filter(...)` with the test above: an ordered subsequence of the
      input holding exactly the upcoming events, each as often as the input
      holds it. */
  function FilterUpcoming(events: seq<Event>, fetch: DateStamp): (r: seq<Event>)
    ensures IsSubsequence(r, events)
    ensures forall i :: 0 <= i < |r| ==> IsUpcoming(r[i].date, fetch)
    ensures forall e :: e in events && IsUpcoming(e.date, fetch) ==> e in r
    ensures KeepsUpcomingCopies(r, events, fetch)
    decreases |events|
  {
    if |events| == 0 then []
    else
      var rest := FilterUpcoming(events[1..], fetch);
      FilterOrderStep(events, rest, IsUpcoming(events[0].date, fetch));
      FilterCopiesStep(events, rest, fetch);
      var r := if IsUpcoming(events[0].date, fetch) then [events[0]] + rest else rest;
      CopiesGiveMembers(r, events, fetch);
      r
  }

  /** One step of the filter keeps the result an ordered subsequence of the
      input. */
  lemma FilterOrderStep(events: seq<Event>, rest: seq<Event>, keep: bool)
    requires |events| > 0 && IsSubsequence(rest, events[1..])
    ensures IsSubsequence(if keep then [events[0]] + rest else rest, events)
  {
    if keep {
      assert ([events[0]] + rest)[1..] == rest;
    }
  }

  /** Keeping the upcoming copies means holding only upcoming events and
      missing none of them. */
  lemma CopiesGiveMembers(r: seq<Event>, events: seq<Event>, fetch: DateStamp)
    requires KeepsUpcomingCopies(r, events, fetch)
    ensures forall i :: 0 <= i < |r| ==> IsUpcoming(r[i].date, fetch)
    ensures forall e :: e in events && IsUpcoming(e.date, fetch) ==> e in r
  {
    forall i | 0 <= i < |r|
      ensures IsUpcoming(r[i].date, fetch)
    {
      assert multiset(r)[r[i]] > 0;
    }
    forall e | e in events && IsUpcoming(e.date, fetch)
      ensures e in r
    {
      assert multiset(events)[e] > 0;
    }
  }

  /** One step of the filter keeps the count of every event right. */
  lemma FilterCopiesStep(events: seq<Event>, rest: seq<Event>, fetch: DateStamp)
    requires |events| > 0 && KeepsUpcomingCopies(rest, events[1..], fetch)
    ensures KeepsUpcomingCopies(
              if IsUpcoming(events[0].date, fetch) then [events[0]] + rest else rest, events, fetch)
  {
    assert events == [events[0]] + events[1..];
    assert multiset(events) == multiset([events[0]]) + multiset(events[1..]);
    if IsUpcoming(events[0].date, fetch) {
      assert multiset([events[0]] + rest) == multiset([events[0]]) + multiset(rest);
    }
  }

  /** A `yyyy-mm-dd` date as the filter expects it at the end of an event's
      date text. */
  function IsoDate(year: nat, month: nat, day: nat): string
  {
    Join([ZeroPad(year, 4), ZeroPad(month, 2), ZeroPad(day, 2)], '-')
  }

  lemma {:induction false} IsoDateSuffix(year: nat, month: nat, day: nat)
    ensures DateSuffix(IsoDate(year, month, day)) == (Some(year), Some(month), Some(day))
  {
    var fields := [ZeroPad(year, 4), ZeroPad(month, 2), ZeroPad(day, 2)];
    assert forall i, k :: 0 <= i < 3 && 0 <= k < |fields[i]| ==> fields[i][k] != '-';
    JoinThenSplit(fields, '-');
    ParseIntZeroPad(year, 4);
    ParseIntZeroPad(month, 2);
    ParseIntZeroPad(day, 2);
  }

  /** A `yyyy-mm-dd` date is upcoming exactly when it is not before the fetch
      date. */
  lemma IsoDateUpcoming(year: nat, month: nat, day: nat, fetch: DateStamp)
    ensures IsUpcoming(IsoDate(year, month, day), fetch) <==>
            LexAtLeast(year, month, day, fetch.year, fetch.month, fetch.day)
  {
    IsoDateSuffix(year, month, day);
    UpcomingIsLexicographic(IsoDate(year, month, day), fetch);
  }

  /** Against the fetch date 2024-06-15: a later year, a later month and the
      day itself are kept, the day before is dropped. */
  lemma FilterExamples()
    ensures IsUpcoming(IsoDate(2025, 1, 1), GetDateStamp(2024, 6, 15))
    ensures IsUpcoming(IsoDate(2024, 7, 1), GetDateStamp(2024, 6, 15))
    ensures IsUpcoming(IsoDate(2024, 6, 15), GetDateStamp(2024, 6, 15))
    ensures !IsUpcoming(IsoDate(2024, 6, 14), GetDateStamp(2024, 6, 15))
  {
    var fetch := GetDateStamp(2024, 6, 15);
    IsoDateUpcoming(2025, 1, 1, fetch);
    IsoDateUpcoming(2024, 7, 1, fetch);
    IsoDateUpcoming(2024, 6, 15, fetch);
    IsoDateUpcoming(2024, 6, 14, fetch);
  }

  /** The partition key lists day, month, year, the reverse of the order the
      filter reads, so an event whose date text were the fetch date's own key
      would be read as year = day and dropped. */
  lemma DateKeyIsNotFilterOrder(year: nat, month: nat, day: nat)
    requires day < year
    ensures !IsUpcoming(GetDateStamp(year, month, day).formatted, GetDateStamp(year, month, day))
  {
  }
}
