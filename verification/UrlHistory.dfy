/**
 The browser's URL history: a list in local storage, newest visit first, cut to 300.

 These are the lists and what each operation makes of them.  The clock is a parameter of
 each visit; local storage keeps what was written, or garbage.
 */
module UrlHistory {
  import opened Text

  const MAX_ENTRIES: nat := 300

  datatype Entry = Entry(url: string, title: string, visitCount: int, lastVisitedAt: int)

  /** One element of the stored array, which may have any shape. */
  datatype Item = Proper(entry: Entry) | Junk

  datatype Stored = NoList | List(items: seq<Item>)

  function Take<T>(s: seq<T>, n: nat): seq<T> {
    if |s| <= n then s else s[..n]
  }

  function ProperEntries(items: seq<Item>): seq<Entry> {
    if items == [] then []
    else (if items[0].Proper? then [items[0].entry] else []) + ProperEntries(items[1..])
  }

  function AsItems(history: seq<Entry>): seq<Item> {
    seq(|history|, i requires 0 <= i < |history| => Proper(history[i]))
  }

  /** Stable insertion: among equally recent entries the one given comes first. */
  function Insert(entry: Entry, sorted: seq<Entry>): seq<Entry> {
    if sorted == [] || sorted[0].lastVisitedAt <= entry.lastVisitedAt then [entry] + sorted
    else [sorted[0]] + Insert(entry, sorted[1..])
  }

  /** The stable sort by falling `lastVisitedAt`. */
  function ByRecency(history: seq<Entry>): seq<Entry> {
    if history == [] then [] else Insert(history[0], ByRecency(history[1..]))
  }

  function ReadHistory(stored: Stored): seq<Entry> {
    match stored
    case NoList => []
    case List(items) => Take(ByRecency(ProperEntries(items)), MAX_ENTRIES)
  }

  /** The index of the first entry for `url`, or the length when there is none. */
  function Find(history: seq<Entry>, url: string): (i: nat)
    ensures i <= |history|
    ensures i < |history| ==> history[i].url == url
    ensures forall j :: 0 <= j < i ==> history[j].url != url
  {
    if history == [] || history[0].url == url then 0 else 1 + Find(history[1..], url)
  }

  function LabelOr(title: string, url: string): string {
    if TrimScript(title) == "" then url else TrimScript(title)
  }

  function Revisited(entry: Entry, title: string, now: int): Entry {
    Entry(entry.url, LabelOr(title, entry.url), entry.visitCount + 1, now)
  }

  function AfterVisit(history: seq<Entry>, url: string, title: string, now: int): seq<Entry> {
    var i := Find(history, url);
    var next := if i < |history| then history[i := Revisited(history[i], title, now)]
                else [Entry(url, LabelOr(title, url), 1, now)] + history;
    Take(ByRecency(next), MAX_ENTRIES)
  }

  /** `http` tells whether the address parses as an http or https URL. */
  predicate Recordable(target: string, http: bool) {
    target != "" && target != "about:blank" && http
  }

  /** `writable` is false when local storage refuses the write. */
  function StoredAfterVisit(stored: Stored, url: string, title: string, now: int, http: bool, writable: bool): Stored {
    if Recordable(TrimScript(url), http) && writable then
      List(AsItems(AfterVisit(ReadHistory(stored), TrimScript(url), title, now)))
    else stored
  }

  function StoredAfterTitle(stored: Stored, url: string, title: string, writable: bool): Stored {
    var history, name := ReadHistory(stored), TrimScript(title);
    var i := Find(history, TrimScript(url));
    if TrimScript(url) != "" && name != "" && i < |history| && history[i].title != name && writable then
      List(AsItems(history[i := history[i].(title := name)]))
    else stored
  }
}
