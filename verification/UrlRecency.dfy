/**
 The URL history is the front of an unbounded move-to-front list: first the lemmas about
 single visits and whole runs of calls, then the history that is changed by the calls.
 */
module UrlRecency {
  import opened Outcomes
  import opened Text
  import opened UrlHistory

  // ---------------------------------------------------------------------------
  // Sorting
  // ---------------------------------------------------------------------------

  ghost predicate StrictlyNewestFirst(history: seq<Entry>) {
    forall i, j :: 0 <= i < j < |history| ==> history[i].lastVisitedAt > history[j].lastVisitedAt
  }

  lemma {:induction false} SortedStays(history: seq<Entry>)
    requires StrictlyNewestFirst(history)
    ensures ByRecency(history) == history
  {
    if history != [] {
      SortedStays(history[1..]);
      assert history == [history[0]] + history[1..];
    }
  }

  lemma InsertSecond(entry: Entry, first: Entry, others: seq<Entry>)
    requires entry.lastVisitedAt < first.lastVisitedAt
    requires others != [] ==> others[0].lastVisitedAt <= entry.lastVisitedAt
    ensures Insert(entry, [first] + others) == [first] + ([entry] + others)
  {
    assert ([first] + others)[1..] == others;
  }

  /** Making one entry the newest moves it to the front and keeps the others in order. */
  lemma {:induction false} SortMovesToFront(history: seq<Entry>, i: nat, entry: Entry)
    requires StrictlyNewestFirst(history) && i < |history|
    requires forall j :: 0 <= j < |history| ==> history[j].lastVisitedAt < entry.lastVisitedAt
    ensures ByRecency(history[i := entry]) == [entry] + (history[..i] + history[i + 1..])
  {
    if i == 0 {
      assert history[i := entry][1..] == history[1..];
      SortedStays(history[1..]);
      assert history[..0] + history[1..] == history[1..];
    } else {
      var rest := history[1..];
      var others := rest[..i - 1] + rest[i..];
      ChangedTail(history, i, entry);
      SortMovesToFront(rest, i - 1, entry);
      assert ByRecency(history[i := entry]) == Insert(history[0], [entry] + others);
      assert others != [] ==> others[0] in rest;
      InsertSecond(history[0], entry, others);
      SplitAtHead(history, i);
    }
  }

  lemma ChangedTail(history: seq<Entry>, i: nat, entry: Entry)
    requires 0 < i < |history|
    ensures history[i := entry][0] == history[0] && history[i := entry][1..] == history[1..][i - 1 := entry]
  {
  }

  lemma SplitAtHead(history: seq<Entry>, i: nat)
    requires 0 < i < |history|
    ensures [history[0]] + (history[1..][..i - 1] + history[1..][i..]) == history[..i] + history[i + 1..]
  {
  }

  lemma {:induction false} ProperEntriesOfItems(history: seq<Entry>)
    ensures ProperEntries(AsItems(history)) == history
  {
    if history != [] {
      assert AsItems(history)[1..] == AsItems(history[1..]);
      ProperEntriesOfItems(history[1..]);
      assert history == [history[0]] + history[1..];
    }
  }

  ghost predicate NewestFirst(history: seq<Entry>) {
    forall i, j :: 0 <= i < j < |history| ==> history[i].lastVisitedAt >= history[j].lastVisitedAt
  }

  ghost predicate NotAfter(history: seq<Entry>, moment: int) {
    forall i :: 0 <= i < |history| ==> history[i].lastVisitedAt <= moment
  }

  lemma {:induction false} InsertNotAfter(entry: Entry, sorted: seq<Entry>, moment: int)
    requires NotAfter(sorted, moment) && entry.lastVisitedAt <= moment
    ensures NotAfter(Insert(entry, sorted), moment)
  {
    if sorted != [] {
      InsertNotAfter(entry, sorted[1..], moment);
    }
  }

  lemma {:induction false} InsertKeepsOrder(entry: Entry, sorted: seq<Entry>)
    requires NewestFirst(sorted)
    ensures NewestFirst(Insert(entry, sorted))
  {
    if sorted != [] && sorted[0].lastVisitedAt > entry.lastVisitedAt {
      InsertKeepsOrder(entry, sorted[1..]);
      InsertNotAfter(entry, sorted[1..], sorted[0].lastVisitedAt);
    }
  }

  lemma {:induction false} InsertIsExact(entry: Entry, sorted: seq<Entry>)
    ensures multiset(Insert(entry, sorted)) == multiset{entry} + multiset(sorted)
  {
    if sorted != [] {
      assert sorted == [sorted[0]] + sorted[1..];
      InsertIsExact(entry, sorted[1..]);
    }
  }

  lemma {:induction false} SortIsExact(history: seq<Entry>)
    ensures NewestFirst(ByRecency(history)) && multiset(ByRecency(history)) == multiset(history)
  {
    if history != [] {
      SortIsExact(history[1..]);
      InsertKeepsOrder(history[0], ByRecency(history[1..]));
      InsertIsExact(history[0], ByRecency(history[1..]));
      assert history == [history[0]] + history[1..];
    }
  }

  /** Whatever local storage holds, its proper entries are read newest first, and 300 of them at most. */
  lemma ReadIsNewest(items: seq<Item>)
    ensures var history, entries := ReadHistory(List(items)), ProperEntries(items);
            && NewestFirst(history) && |history| == (if |entries| <= 300 then |entries| else 300)
            && exists cut :: multiset(entries) == multiset(history) + multiset(cut) && NewestFirst(history + cut)
  {
    var sorted, history := ByRecency(ProperEntries(items)), ReadHistory(List(items));
    SortIsExact(ProperEntries(items));
    assert |sorted| == |multiset(sorted)| == |multiset(ProperEntries(items))| == |ProperEntries(items)|;
    var cut := sorted[|history|..];
    assert sorted == history + cut;
  }

  // ---------------------------------------------------------------------------
  // Move to front
  // ---------------------------------------------------------------------------

  /** `urls` without the first occurrence of `url`. */
  function Without(urls: seq<string>, url: string): seq<string> {
    if urls == [] then [] else if urls[0] == url then urls[1..] else [urls[0]] + Without(urls[1..], url)
  }

  function MoveToFront(urls: seq<string>, url: string): seq<string> {
    [url] + Without(urls, url)
  }

  lemma TakeCons(head: string, tail: seq<string>, n: nat)
    ensures Take([head] + tail, n + 1) == [head] + Take(tail, n)
  {
  }

  lemma WithoutCons(head: string, tail: seq<string>, url: string)
    ensures Without([head] + tail, url) == if head == url then tail else [head] + Without(tail, url)
  {
    assert ([head] + tail)[1..] == tail;
  }

  lemma {:induction false} WithoutTake(urls: seq<string>, url: string, n: nat)
    ensures Take(Without(urls, url), n) == Take(Without(Take(urls, n + 1), url), n)
    decreases urls
  {
    if urls != [] {
      var head, tail := urls[0], urls[1..];
      assert urls == [head] + tail;
      TakeCons(head, tail, n);
      WithoutCons(head, tail, url);
      WithoutCons(head, Take(tail, n), url);
      if head != url && n > 0 {
        WithoutTake(tail, url, n - 1);
        TakeCons(head, Without(tail, url), n - 1);
        TakeCons(head, Without(Take(tail, n), url), n - 1);
      }
    }
  }

  /** Entries beyond the first `n` never influence the first `n` again. */
  lemma TakeMoveToFront(urls: seq<string>, url: string, n: nat)
    requires n > 0
    ensures Take(MoveToFront(urls, url), n) == Take(MoveToFront(Take(urls, n), url), n)
  {
    WithoutTake(urls, url, n - 1);
    assert Take(MoveToFront(urls, url), n) == [url] + Take(Without(urls, url), n - 1);
    assert Take(MoveToFront(Take(urls, n), url), n) == [url] + Take(Without(Take(urls, n), url), n - 1);
  }

  lemma {:induction false} WithoutAt(urls: seq<string>, url: string, i: nat)
    requires i < |urls| && urls[i] == url && url !in urls[..i]
    ensures Without(urls, url) == urls[..i] + urls[i + 1..]
  {
    if i > 0 {
      assert urls[1..][..i - 1] == urls[..i][1..];
      WithoutAt(urls[1..], url, i - 1);
    }
  }

  lemma {:induction false} WithoutAbsent(urls: seq<string>, url: string)
    requires url !in urls
    ensures Without(urls, url) == urls
  {
    if urls != [] {
      WithoutAbsent(urls[1..], url);
    }
  }

  // ---------------------------------------------------------------------------
  // The log of visits
  // ---------------------------------------------------------------------------

  datatype Hit = Hit(url: string, at: int)

  ghost predicate Increasing(log: seq<Hit>) {
    forall i, j :: 0 <= i < j < |log| ==> log[i].at < log[j].at
  }

  /** All visited URLs, most recently visited first, with no bound. */
  function Recent(log: seq<Hit>): seq<string> {
    if log == [] then [] else MoveToFront(Recent(log[..|log| - 1]), log[|log| - 1].url)
  }

  /** The URLs a history of 300 entries can still know. */
  function Remembered(log: seq<Hit>): seq<string> {
    Take(Recent(log), 300)
  }

  /** The position in the log at which `url` last entered the remembered list. */
  function Entered(log: seq<Hit>, url: string): (at: nat)
    ensures at <= |log|
  {
    if log == [] then 0
    else
      var before := log[..|log| - 1];
      if log[|log| - 1].url == url && url !in Remembered(before) then |log| - 1 else Entered(before, url)
  }

  function CountOf(log: seq<Hit>, url: string): nat {
    if log == [] then 0
    else CountOf(log[..|log| - 1], url) + if log[|log| - 1].url == url then 1 else 0
  }

  /** The last moment `url` was visited. */
  function LastAt(log: seq<Hit>, url: string): int {
    if log == [] then 0 else if log[|log| - 1].url == url then log[|log| - 1].at else LastAt(log[..|log| - 1], url)
  }

  function Visits(log: seq<Hit>, url: string): nat {
    CountOf(log[Entered(log, url)..], url)
  }

  lemma VisitsStep(log: seq<Hit>, hit: Hit, url: string)
    ensures Visits(log + [hit], url)
         == if hit.url != url then Visits(log, url)
            else if url in Remembered(log) then Visits(log, url) + 1 else 1
  {
    var longer := log + [hit];
    assert longer[..|longer| - 1] == log && longer[|longer| - 1] == hit;
    var entered := Entered(longer, url);
    var tail := longer[entered..];
    assert entered <= |log| && tail == log[entered..] + [hit];
    assert tail[..|tail| - 1] == log[entered..] && tail[|tail| - 1] == hit;
    assert CountOf(tail, url) == CountOf(log[entered..], url) + if hit.url == url then 1 else 0;
  }

  function Urls(history: seq<Entry>): (urls: seq<string>)
    ensures |urls| == |history|
    ensures forall i :: 0 <= i < |history| ==> urls[i] == history[i].url
  {
    seq(|history|, i requires 0 <= i < |history| => history[i].url)
  }

  ghost predicate Agrees(entry: Entry, log: seq<Hit>) {
    && entry.lastVisitedAt == LastAt(log, entry.url)
    && entry.visitCount == Visits(log, entry.url)
    && log != [] && entry.lastVisitedAt <= log[|log| - 1].at
  }

  /** What a history says about a log of visits. */
  ghost predicate Represents(history: seq<Entry>, log: seq<Hit>) {
    && StrictlyNewestFirst(history)
    && (forall i, j :: 0 <= i < j < |history| ==> history[i].url != history[j].url)
    && Urls(history) == Remembered(log)
    && forall i :: 0 <= i < |history| ==> Agrees(history[i], log)
  }

  lemma RecentStep(log: seq<Hit>, hit: Hit)
    ensures Recent(log + [hit]) == MoveToFront(Recent(log), hit.url)
    ensures Remembered(log + [hit]) == Take(MoveToFront(Remembered(log), hit.url), MAX_ENTRIES)
    ensures forall url :: LastAt(log + [hit], url) == if hit.url == url then hit.at else LastAt(log, url)
  {
    assert (log + [hit])[..|log|] == log;
    TakeMoveToFront(Recent(log), hit.url, MAX_ENTRIES);
  }

  /** The list a visit produces, spelled out. */
  lemma VisitMovesToFront(history: seq<Entry>, url: string, title: string, now: int)
    requires StrictlyNewestFirst(history) && |history| <= MAX_ENTRIES
    requires forall i :: 0 <= i < |history| ==> history[i].lastVisitedAt < now
    ensures var i := Find(history, url);
            var after := AfterVisit(history, url, title, now);
            if i < |history| then
              after == [Revisited(history[i], title, now)] + (history[..i] + history[i + 1..])
            else
              after == Take([Entry(url, LabelOr(title, url), 1, now)] + history, MAX_ENTRIES)
  {
    var i := Find(history, url);
    if i < |history| {
      SortMovesToFront(history, i, Revisited(history[i], title, now));
    } else {
      var entry := Entry(url, LabelOr(title, url), 1, now);
      assert StrictlyNewestFirst([entry] + history);
      SortedStays([entry] + history);
    }
  }

  lemma VisitMovesUrl(history: seq<Entry>, url: string, title: string, now: int)
    requires StrictlyNewestFirst(history) && |history| <= MAX_ENTRIES
    requires forall i :: 0 <= i < |history| ==> history[i].lastVisitedAt < now
    ensures Urls(AfterVisit(history, url, title, now)) == Take(MoveToFront(Urls(history), url), MAX_ENTRIES)
  {
    var i, urls := Find(history, url), Urls(history);
    VisitMovesToFront(history, url, title, now);
    if i < |history| {
      WithoutAt(urls, url, i);
      UrlsOfMoved(history, i, Revisited(history[i], title, now));
    } else {
      WithoutAbsent(urls, url);
      UrlsOfLonger(history, Entry(url, LabelOr(title, url), 1, now));
    }
  }

  lemma UrlsOfMoved(history: seq<Entry>, i: nat, entry: Entry)
    requires i < |history| && entry.url == history[i].url
    ensures Urls([entry] + (history[..i] + history[i + 1..]))
         == [entry.url] + (Urls(history)[..i] + Urls(history)[i + 1..])
  {
  }

  lemma UrlsOfLonger(history: seq<Entry>, entry: Entry)
    ensures Urls(Take([entry] + history, MAX_ENTRIES)) == Take([entry.url] + Urls(history), MAX_ENTRIES)
  {
    assert Urls([entry] + history) == [entry.url] + Urls(history);
  }

  /** The visited entry: counted on from before, or from one. */
  lemma HeadAgrees(history: seq<Entry>, log: seq<Hit>, url: string, title: string, now: int)
    requires Represents(history, log) && (log != [] ==> log[|log| - 1].at < now)
    ensures AfterVisit(history, url, title, now) != []
    ensures Agrees(AfterVisit(history, url, title, now)[0], log + [Hit(url, now)])
  {
    var at := Find(history, url);
    VisitMovesToFront(history, url, title, now);
    RecentStep(log, Hit(url, now));
    VisitsStep(log, Hit(url, now), url);
    assert (at < |history|) == (url in Urls(history)) by {
      assert at < |history| ==> Urls(history)[at] == url;
    }
    if at < |history| {
      assert Agrees(history[at], log);
    }
  }

  /** Where an entry behind the visited one was before. */
  function Origin(at: nat, i: nat): nat {
    if 0 < i <= at then i - 1 else i
  }

  /** The other entries are unchanged. */
  lemma TailComesFrom(history: seq<Entry>, url: string, title: string, now: int, i: nat)
    requires StrictlyNewestFirst(history) && |history| <= MAX_ENTRIES
    requires forall j :: 0 <= j < |history| ==> history[j].lastVisitedAt < now
    requires forall j, k :: 0 <= j < k < |history| ==> history[j].url != history[k].url
    requires 0 < i < |AfterVisit(history, url, title, now)|
    ensures var j := Origin(Find(history, url), i);
            j < |history| && AfterVisit(history, url, title, now)[i] == history[j] && history[j].url != url
  {
    var at, after := Find(history, url), AfterVisit(history, url, title, now);
    VisitMovesToFront(history, url, title, now);
    if at == |history| {
      assert after[i] == history[i - 1];
    } else {
      assert after[i] == (history[..at] + history[at + 1..])[i - 1];
      assert after[i] == history[Origin(at, i)];
    }
  }

  lemma AgreesStays(entry: Entry, log: seq<Hit>, hit: Hit)
    requires Agrees(entry, log) && entry.url != hit.url && log[|log| - 1].at < hit.at
    ensures Agrees(entry, log + [hit])
  {
    RecentStep(log, hit);
    VisitsStep(log, hit, entry.url);
  }

  /** And they still agree. */
  lemma TailAgrees(history: seq<Entry>, log: seq<Hit>, url: string, title: string, now: int, i: nat)
    requires Represents(history, log) && (log != [] ==> log[|log| - 1].at < now)
    requires 0 < i < |AfterVisit(history, url, title, now)|
    ensures var j := Origin(Find(history, url), i);
            j < |history| && AfterVisit(history, url, title, now)[i] == history[j] && history[j].url != url
    ensures Agrees(AfterVisit(history, url, title, now)[i], log + [Hit(url, now)])
  {
    assert |history| == |Urls(history)| && forall j :: 0 <= j < |history| ==> Agrees(history[j], log);
    TailComesFrom(history, url, title, now, i);
    AgreesStays(history[Origin(Find(history, url), i)], log, Hit(url, now));
  }

  lemma VisitRepresents(history: seq<Entry>, log: seq<Hit>, url: string, title: string, now: int)
    requires Represents(history, log) && (log != [] ==> log[|log| - 1].at < now)
    ensures Represents(AfterVisit(history, url, title, now), log + [Hit(url, now)])
  {
    var after := AfterVisit(history, url, title, now);
    VisitMovesUrl(history, url, title, now);
    RecentStep(log, Hit(url, now));
    HeadAgrees(history, log, url, title, now);
    forall i | 0 < i < |after| ensures Agrees(after[i], log + [Hit(url, now)]) {
      TailAgrees(history, log, url, title, now, i);
    }
    forall i, j | 0 <= i < j < |after|
      ensures after[i].lastVisitedAt > after[j].lastVisitedAt && after[i].url != after[j].url
    {
      TailAgrees(history, log, url, title, now, j);
      if i > 0 {
        TailAgrees(history, log, url, title, now, i);
      }
    }
  }

  // ---------------------------------------------------------------------------
  // Runs
  // ---------------------------------------------------------------------------

  datatype Event =
    | Visit(url: string, title: string, now: int, http: bool, writable: bool)
    | Retitle(url: string, title: string, writable: bool)

  function Apply(stored: Stored, e: Event): Stored {
    match e
    case Visit(url, title, now, http, writable) => StoredAfterVisit(stored, url, title, now, http, writable)
    case Retitle(url, title, writable) => StoredAfterTitle(stored, url, title, writable)
  }

  function Run(events: seq<Event>): Stored {
    if events == [] then NoList else Apply(Run(events[..|events| - 1]), events[|events| - 1])
  }

  /** Visits count when they are to http(s) addresses and get written. */
  function Counted(e: Event): seq<Hit> {
    if e.Visit? && Recordable(TrimScript(e.url), e.http) && e.writable then [Hit(TrimScript(e.url), e.now)] else []
  }

  function Log(events: seq<Event>): seq<Hit> {
    if events == [] then [] else Log(events[..|events| - 1]) + Counted(events[|events| - 1])
  }

  /** Which visits count: those stored, of an http(s) address other than blank and `about:blank`. */
  lemma CountedIff(e: Event)
    requires e.Visit?
    ensures Counted(e) != []
            <==> e.writable && e.http && !AllBlank(e.url, ScriptBlank) && !IsTrimOf("about:blank", e.url, ScriptBlank)
    ensures Counted(e) != [] ==>
              |Counted(e)| == 1 && Counted(e)[0].at == e.now && IsTrimOf(Counted(e)[0].url, e.url, ScriptBlank)
  {
    TrimIsExact(e.url, ScriptBlank);
    TrimIsEmptyIff(e.url, ScriptBlank);
    if IsTrimOf("about:blank", e.url, ScriptBlank) {
      TrimIsUnique("about:blank", TrimScript(e.url), e.url, ScriptBlank);
    }
  }

  lemma ReadBack(history: seq<Entry>)
    requires StrictlyNewestFirst(history) && |history| <= MAX_ENTRIES
    ensures ReadHistory(List(AsItems(history))) == history
  {
    ProperEntriesOfItems(history);
    SortedStays(history);
  }

  lemma RetitleRepresents(history: seq<Entry>, log: seq<Hit>, i: nat, title: string)
    requires Represents(history, log) && i < |history|
    ensures Represents(history[i := history[i].(title := title)], log)
  {
    var relabelled := history[i := history[i].(title := title)];
    assert Urls(relabelled) == Urls(history);
    forall j | 0 <= j < |relabelled| ensures Agrees(relabelled[j], log) {
      assert Agrees(history[j], log);
    }
  }

  lemma VisitEvent(stored: Stored, log: seq<Hit>, url: string, title: string, now: int)
    requires Represents(ReadHistory(stored), log) && (log != [] ==> log[|log| - 1].at < now)
    ensures var after := AfterVisit(ReadHistory(stored), url, title, now);
            Represents(ReadHistory(List(AsItems(after))), log + [Hit(url, now)])
  {
    var after := AfterVisit(ReadHistory(stored), url, title, now);
    VisitRepresents(ReadHistory(stored), log, url, title, now);
    ReadBack(after);
  }

  lemma RetitleEvent(stored: Stored, log: seq<Hit>, url: string, title: string, writable: bool)
    requires Represents(ReadHistory(stored), log)
    ensures Represents(ReadHistory(StoredAfterTitle(stored, url, title, writable)), log)
  {
    var history := ReadHistory(stored);
    var i := Find(history, TrimScript(url));
    if i < |history| {
      var relabelled := history[i := history[i].(title := TrimScript(title))];
      RetitleRepresents(history, log, i, TrimScript(title));
      assert |relabelled| == |Urls(relabelled)| <= MAX_ENTRIES;
      ReadBack(relabelled);
    }
  }

  /** One event keeps the stored history in step with the log. */
  lemma EventRepresents(stored: Stored, log: seq<Hit>, e: Event)
    requires Represents(ReadHistory(stored), log)
    requires log != [] && Counted(e) != [] ==> log[|log| - 1].at < Counted(e)[0].at
    ensures Represents(ReadHistory(Apply(stored, e)), log + Counted(e))
  {
    if Counted(e) != [] {
      VisitEvent(stored, log, TrimScript(e.url), e.title, e.now);
    } else {
      assert log + Counted(e) == log;
      if e.Retitle? {
        RetitleEvent(stored, log, e.url, e.title, e.writable);
      }
    }
  }

  /** One event at the end of a run. */
  lemma RunStep(events: seq<Event>, before: seq<Event>, e: Event)
    requires events == before + [e] && Increasing(Log(events))
    ensures Run(events) == Apply(Run(before), e) && Log(events) == Log(before) + Counted(e)
    ensures Increasing(Log(before))
    ensures Log(before) != [] && Counted(e) != [] ==> Log(before)[|Log(before)| - 1].at < Counted(e)[0].at
  {
    assert events[..|events| - 1] == before;
    IncreasingParts(Log(before), Counted(e));
  }

  lemma IncreasingParts(a: seq<Hit>, b: seq<Hit>)
    requires Increasing(a + b)
    ensures Increasing(a) && (a != [] && b != [] ==> a[|a| - 1].at < b[0].at)
  {
    var all := a + b;
    assert all[..|a|] == a && all[|a|..] == b;
    if a != [] && b != [] {
      assert all[|a| - 1].at < all[|a|].at;
    }
  }

  /**
   After any run of visits and title corrections under a strictly increasing clock, the
   history lists the first 300 URLs of the unbounded move-to-front list, each with the
   time of its last visit and the number of visits since it last entered the list.
   */
  lemma {:induction false} HistoryIsMoveToFront(events: seq<Event>)
    requires Increasing(Log(events))
    ensures Represents(ReadHistory(Run(events)), Log(events))
  {
    if events != [] {
      var e, before := events[|events| - 1], events[..|events| - 1];
      assert events == before + [e];
      RunStep(events, before, e);
      HistoryIsMoveToFront(before);
      EventRepresents(Run(before), Log(before), e);
    }
  }

  // ---------------------------------------------------------------------------
  // Titles
  // ---------------------------------------------------------------------------

  /** The title an event gives to `url`, if it gives one. */
  function TitleGiven(e: Event, url: string): Option<string> {
    match e
    case Visit(_, title, _, _, _) =>
      if Counted(e) != [] && Counted(e)[0].url == url then Some(LabelOr(title, url)) else None
    case Retitle(target, title, writable) =>
      if TrimScript(target) == url && url != "" && TrimScript(title) != "" && writable then Some(TrimScript(title))
      else None
  }

  /** A visit that counts labels its address with its trimmed title, or with the address itself. */
  lemma VisitLabels(e: Event, url: string)
    requires e.Visit?
    ensures TitleGiven(e, url).Some? <==> Counted(e) != [] && Counted(e)[0].url == url
    ensures TitleGiven(e, url).Some? ==>
              var given := TitleGiven(e, url).value;
              if AllBlank(e.title, ScriptBlank) then given == url
              else given != "" && IsTrimOf(given, e.title, ScriptBlank)
  {
    TrimIsExact(e.title, ScriptBlank);
    TrimIsEmptyIff(e.title, ScriptBlank);
  }

  /** A correction that is stored labels its address with its trimmed title, unless either is blank. */
  lemma CorrectionLabels(e: Event, url: string)
    requires e.Retitle?
    ensures TitleGiven(e, url).Some?
            <==> e.writable && url != "" && IsTrimOf(url, e.url, ScriptBlank) && !AllBlank(e.title, ScriptBlank)
    ensures TitleGiven(e, url).Some? ==> IsTrimOf(TitleGiven(e, url).value, e.title, ScriptBlank)
  {
    TrimIsExact(e.url, ScriptBlank);
    TrimIsExact(e.title, ScriptBlank);
    TrimIsEmptyIff(e.title, ScriptBlank);
    if IsTrimOf(url, e.url, ScriptBlank) {
      TrimIsUnique(url, TrimScript(e.url), e.url, ScriptBlank);
    }
  }

  /** The last title given to `url`. */
  function LatestTitle(events: seq<Event>, url: string): string {
    if events == [] then ""
    else
      var given := TitleGiven(events[|events| - 1], url);
      if given.Some? then given.value else LatestTitle(events[..|events| - 1], url)
  }

  ghost predicate Titled(history: seq<Entry>, events: seq<Event>) {
    forall i :: 0 <= i < |history| ==> history[i].title == LatestTitle(events, history[i].url)
  }

  lemma LatestTitleStep(before: seq<Event>, e: Event, url: string)
    ensures LatestTitle(before + [e], url)
         == if TitleGiven(e, url).Some? then TitleGiven(e, url).value else LatestTitle(before, url)
  {
    assert (before + [e])[..|before + [e]| - 1] == before;
  }

  lemma VisitTitles(history: seq<Entry>, log: seq<Hit>, e: Event, before: seq<Event>)
    requires e.Visit? && Counted(e) != [] && Represents(history, log) && Titled(history, before)
    requires log != [] ==> log[|log| - 1].at < e.now
    ensures Titled(AfterVisit(history, TrimScript(e.url), e.title, e.now), before + [e])
  {
    var url := TrimScript(e.url);
    var after := AfterVisit(history, url, e.title, e.now);
    VisitMovesToFront(history, url, e.title, e.now);
    forall i | 0 <= i < |after| ensures after[i].title == LatestTitle(before + [e], after[i].url) {
      LatestTitleStep(before, e, after[i].url);
      if i > 0 {
        TailAgrees(history, log, url, e.title, e.now, i);
      }
    }
  }

  /** The history after a correction that found its URL at `i`. */
  function Corrected(history: seq<Entry>, i: nat, title: string): seq<Entry> {
    if i < |history| then history[i := history[i].(title := title)] else history
  }

  lemma CorrectedTitle(history: seq<Entry>, e: Event, before: seq<Event>, i: nat)
    requires e.Retitle? && i < |history| && history[i].title == LatestTitle(before, history[i].url)
    requires forall i, j :: 0 <= i < j < |history| ==> history[i].url != history[j].url
    requires TitleGiven(e, TrimScript(e.url)).Some?
    ensures var entry := Corrected(history, Find(history, TrimScript(e.url)), TrimScript(e.title))[i];
            entry.title == LatestTitle(before + [e], entry.url)
  {
    LatestTitleStep(before, e, history[i].url);
    var at := Find(history, TrimScript(e.url));
    if history[i].url == TrimScript(e.url) {
      assert i == at;
    }
  }

  lemma CorrectionTitles(history: seq<Entry>, e: Event, before: seq<Event>)
    requires e.Retitle? && Titled(history, before)
    requires forall i, j :: 0 <= i < j < |history| ==> history[i].url != history[j].url
    requires TitleGiven(e, TrimScript(e.url)).Some?
    ensures Titled(Corrected(history, Find(history, TrimScript(e.url)), TrimScript(e.title)), before + [e])
  {
    var after := Corrected(history, Find(history, TrimScript(e.url)), TrimScript(e.title));
    forall i | 0 <= i < |after| ensures after[i].title == LatestTitle(before + [e], after[i].url) {
      CorrectedTitle(history, e, before, i);
    }
  }

  lemma SilentEventTitles(history: seq<Entry>, e: Event, before: seq<Event>)
    requires Titled(history, before) && forall url :: TitleGiven(e, url).None?
    ensures Titled(history, before + [e])
  {
    forall i | 0 <= i < |history| ensures LatestTitle(before + [e], history[i].url) == history[i].title {
      LatestTitleStep(before, e, history[i].url);
    }
  }

  lemma CorrectedTitles(stored: Stored, log: seq<Hit>, e: Event, before: seq<Event>)
    requires e.Retitle? && TitleGiven(e, TrimScript(e.url)).Some?
    requires Represents(ReadHistory(stored), log) && Titled(ReadHistory(stored), before)
    ensures Titled(ReadHistory(Apply(stored, e)), before + [e])
  {
    var history, i, name := ReadHistory(stored), Find(ReadHistory(stored), TrimScript(e.url)), TrimScript(e.title);
    CorrectionTitles(history, e, before);
    if i < |history| && history[i].title != name {
      var relabelled := history[i := history[i].(title := name)];
      RetitleRepresents(history, log, i, name);
      assert |relabelled| == |Urls(relabelled)| <= MAX_ENTRIES;
      ReadBack(relabelled);
    } else if i < |history| {
      assert history[i := history[i].(title := name)] == history;
    }
  }

  lemma VisitedTitles(stored: Stored, log: seq<Hit>, e: Event, before: seq<Event>)
    requires Counted(e) != [] && Represents(ReadHistory(stored), log) && Titled(ReadHistory(stored), before)
    requires log != [] ==> log[|log| - 1].at < Counted(e)[0].at
    ensures Titled(ReadHistory(Apply(stored, e)), before + [e])
  {
    var history, url := ReadHistory(stored), TrimScript(e.url);
    VisitTitles(history, log, e, before);
    VisitRepresents(history, log, url, e.title, e.now);
    ReadBack(AfterVisit(history, url, e.title, e.now));
  }

  /** One more event, in terms of the lists before and after it. */
  lemma EventTitles(events: seq<Event>, before: seq<Event>, e: Event, history: seq<Entry>)
    requires events == before + [e] && Increasing(Log(before))
    requires Log(before) != [] && Counted(e) != [] ==> Log(before)[|Log(before)| - 1].at < Counted(e)[0].at
    requires Titled(ReadHistory(Run(before)), before) && history == ReadHistory(Apply(Run(before), e))
    ensures Titled(history, events)
  {
    HistoryIsMoveToFront(before);
    if Counted(e) != [] {
      VisitedTitles(Run(before), Log(before), e, before);
    } else if e.Retitle? && TitleGiven(e, TrimScript(e.url)).Some? {
      CorrectedTitles(Run(before), Log(before), e, before);
    } else {
      SilentEventTitles(ReadHistory(Run(before)), e, before);
    }
  }

  /** Every entry carries the last title its URL was given, by a visit or by a correction. */
  lemma {:induction false} TitlesAreLatest(events: seq<Event>, history: seq<Entry>)
    requires Increasing(Log(events)) && history == ReadHistory(Run(events))
    ensures Titled(history, events)
    decreases events
  {
    if events != [] {
      var e, before := events[|events| - 1], events[..|events| - 1];
      assert events == before + [e];
      RunStep(events, before, e);
      assert history == ReadHistory(Apply(Run(before), e));
      TitlesAreLatest(before, ReadHistory(Run(before)));
      EventTitles(events, before, e, history);
    }
  }

  // ---------------------------------------------------------------------------
  // The history itself
  // ---------------------------------------------------------------------------

  /** `events` records every call since the store was empty. */
  class History {
    var stored: Stored
    ghost var events: seq<Event>

    ghost predicate Valid()
      reads this
    {
      stored == Run(events)
    }

    /** Under an increasing clock: the bounded move-to-front list of the calls, with their latest titles. */
    ghost predicate ShowsRecent()
      reads this
    {
      Increasing(Log(events)) ==>
        Represents(ReadHistory(stored), Log(events)) && Titled(ReadHistory(stored), events)
    }

    constructor ()
      ensures Valid() && events == []
    {
      stored := NoList;
      events := [];
    }

    ghost method Record(e: Event)
      requires stored == Apply(Run(events), e)
      modifies this`events
      ensures Valid() && events == old(events) + [e] && ShowsRecent()
    {
      events := events + [e];
      assert events[..|events| - 1] == old(events);
      if Increasing(Log(events)) {
        HistoryIsMoveToFront(events);
        TitlesAreLatest(events, ReadHistory(stored));
      }
    }

    method RecordVisit(url: string, title: string, now: int, http: bool, writable: bool)
      requires Valid()
      modifies this
      ensures Valid() && events == old(events) + [Visit(url, title, now, http, writable)]
      ensures ShowsRecent()
    {
      var target := TrimScript(url);
      if target != "" && target != "about:blank" && http {
        var history := ReadHistory(stored);
        var existing := Find(history, target);
        var next := if existing < |history| then history[existing := Revisited(history[existing], title, now)]
                    else [Entry(target, LabelOr(title, target), 1, now)] + history;
        if writable {
          stored := List(AsItems(Take(ByRecency(next), MAX_ENTRIES)));
        }
      }
      Record(Visit(url, title, now, http, writable));
    }

    method RecordVisitTitle(url: string, title: string, writable: bool)
      requires Valid()
      modifies this
      ensures Valid() && events == old(events) + [Retitle(url, title, writable)]
      ensures ShowsRecent()
    {
      var target, name := TrimScript(url), TrimScript(title);
      if target != "" && name != "" {
        var history := ReadHistory(stored);
        var existing := Find(history, target);
        if existing < |history| && history[existing].title != name && writable {
          stored := List(AsItems(history[existing := history[existing].(title := name)]));
        }
      }
      Record(Retitle(url, title, writable));
    }
  }
}
