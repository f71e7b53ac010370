/** The cache of link previews in pkg/embed/embed.go: a map from URL to preview
    and the order in which they were stored. A fetch enters the lock twice, once
    to look and once to store, and other fetches may run in between. */
module EmbedCache {
  import opened Text

  datatype Entry = Entry(link: string, fetchedAt: int)

  /** `panicked`: the eviction has indexed an empty list. */
  datatype State = State(cache: map<string, Entry>, order: seq<string>, panicked: bool)

  function Hit(s: State, url: string, now: int, ttl: int): Option<string> {
    if url in s.cache && now - s.cache[url].fetchedAt < ttl then Some(s.cache[url].link) else None
  }

  function Evicted(s: State, maxEntries: int): State
    decreases |s.order|
  {
    if |s.cache| <= maxEntries then s
    else if s.order == [] then s.(panicked := true)
    else Evicted(State(s.cache - {s.order[0]}, s.order[1..], s.panicked), maxEntries)
  }

  function Put(s: State, url: string, e: Entry): State { State(s.cache[url := e], s.order + [url], s.panicked) }

  function Stored(s: State, url: string, e: Entry, maxEntries: int): State { Evicted(Put(s, url, e), maxEntries) }

  class Client {
    const maxEntries: int
    const ttl: int
    var cache: map<string, Entry>
    var order: seq<string>

    constructor (maxEntries: int, ttl: int)
      ensures Abs() == State(map[], [], false) && this.maxEntries == maxEntries && this.ttl == ttl
    {
      this.maxEntries, this.ttl, cache, order := maxEntries, ttl, map[], [];
    }

    ghost function Abs(): State
      reads this
    {
      State(cache, order, false)
    }

    /** The first locked region. */
    method Lookup(url: string, now: int) returns (link: Option<string>)
      ensures link == Hit(Abs(), url, now, ttl)
    {
      link := None;
      if url in cache {
        var entry := cache[url];
        if now - entry.fetchedAt < ttl { link := Some(entry.link); }
      }
    }

    /** The second locked region. */
    method Store(url: string, link: string, now: int) returns (panicked: bool)
      modifies this
      ensures Abs().(panicked := panicked) == Stored(old(Abs()), url, Entry(link, now), maxEntries)
    {
      cache := cache[url := Entry(link, now)];
      order := order + [url];
      while |cache| > maxEntries
        invariant Evicted(Abs(), maxEntries) == Stored(old(Abs()), url, Entry(link, now), maxEntries)
        decreases |order|
      {
        if order == [] { return true; }
        cache := cache - {order[0]};
        order := order[1..];
      }
      panicked := false;
    }
  }

  // ---------------------------------------------------------------------
  // One store
  // ---------------------------------------------------------------------

  /** Every cached URL is on the list, which may name it more than once. */
  ghost predicate AllListed(s: State) { forall u :: u in s.cache ==> u in s.order }

  ghost predicate Good(s: State, maxEntries: int) {
    AllListed(s) && !s.panicked && |s.cache| <= maxEntries
  }

  lemma FrontGone(s: State)
    requires AllListed(s) && s.order != []
    ensures AllListed(State(s.cache - {s.order[0]}, s.order[1..], s.panicked))
    ensures |s.cache - {s.order[0]}| == if s.order[0] in s.cache then |s.cache| - 1 else |s.cache|
  {
    var u := s.order[0];
    assert s.cache.Keys - {u} == (s.cache - {u}).Keys;
    assert |s.cache.Keys| == |s.cache| && |(s.cache - {u}).Keys| == |s.cache - {u}|;
    if u !in s.cache { assert s.cache - {u} == s.cache; }
  }

  lemma Empty(s: State)
    requires AllListed(s) && s.order == []
    ensures |s.cache| == 0
  {
    assert s.cache == map[];
  }

  /** The first URL of the list that is cached. */
  function FirstListed(order: seq<string>, keys: set<string>): string
    requires exists u :: u in keys && u in order
  {
    if order[0] in keys then order[0] else FirstListed(order[1..], keys)
  }

  /** Evicting one entry removes exactly the first listed one. */
  lemma {:induction false} EvictsFirst(s: State, maxEntries: nat)
    requires AllListed(s) && !s.panicked && |s.cache| == maxEntries + 1
    ensures exists u :: u in s.cache.Keys && u in s.order
    ensures Evicted(s, maxEntries).cache == s.cache - {FirstListed(s.order, s.cache.Keys)}
    ensures Good(Evicted(s, maxEntries), maxEntries)
    decreases |s.order|
  {
    if s.order == [] { Empty(s); assert false; }
    var some :| some in s.cache.Keys;
    assert some in s.order;
    FrontGone(s);
    var t := State(s.cache - {s.order[0]}, s.order[1..], s.panicked);
    if s.order[0] in s.cache {
      assert Evicted(t, maxEntries) == t;
    } else {
      assert t.cache == s.cache;
      EvictsFirst(t, maxEntries);
    }
  }

  lemma PutSize(s: State, url: string, e: Entry)
    ensures |Put(s, url, e).cache| == if url in s.cache then |s.cache| else |s.cache| + 1
    ensures AllListed(s) ==> AllListed(Put(s, url, e))
  {
    var t := Put(s, url, e);
    assert t.cache.Keys == s.cache.Keys + {url} && |t.cache| == |t.cache.Keys| && |s.cache| == |s.cache.Keys|;
  }

  /** Whatever the list looks like, a store keeps the bound and the listing, and
      evicts at most one entry: none while there is room or the URL is cached, else
      exactly the first that the list names, the new one included. */
  lemma StoreEvictsTheFirst(s: State, url: string, e: Entry, maxEntries: nat)
    requires Good(s, maxEntries)
    ensures Good(Stored(s, url, e, maxEntries), maxEntries)
    ensures var after, all := Stored(s, url, e, maxEntries).cache, s.cache[url := e];
      if url in s.cache || |s.cache| < maxEntries then after == all
      else
        && (exists u :: u in all.Keys && u in s.order + [url])
        && after == all - {FirstListed(s.order + [url], all.Keys)}
  {
    hide AllListed, FirstListed;
    PutSize(s, url, e);
    if url !in s.cache && |s.cache| == maxEntries {
      EvictsFirst(Put(s, url, e), maxEntries);
    }
  }

  /** A store makes the eviction index an empty list exactly when MaxEntries is
      negative. */
  lemma PanicsIff(s: State, url: string, e: Entry, maxEntries: int)
    requires AllListed(s) && !s.panicked && (maxEntries >= 0 ==> |s.cache| <= maxEntries)
    ensures Stored(s, url, e, maxEntries).panicked <==> maxEntries < 0
  {
    if maxEntries >= 0 {
      StoreEvictsTheFirst(s, url, e, maxEntries);
    } else {
      NegativePanics(Put(s, url, e), maxEntries);
    }
  }

  lemma {:induction false} NegativePanics(s: State, maxEntries: int)
    requires maxEntries < 0
    ensures Evicted(s, maxEntries).panicked
    decreases |s.order|
  {
    if s.order != [] { NegativePanics(State(s.cache - {s.order[0]}, s.order[1..], s.panicked), maxEntries); }
  }

  // ---------------------------------------------------------------------
  // Interleaved fetches
  // ---------------------------------------------------------------------

  /** The client, the fetches between their two regions, and every store so far. */
  datatype System = System(client: State, inFlight: map<nat, string>, log: seq<(string, Entry)>)

  datatype Event =
    | Look(fetch: nat, url: string, now: int)
    | Fail(fetch: nat)
    | Store(fetch: nat, link: string, now: int)

  predicate MayHappen(s: System, e: Event) {
    match e
    case Look(fetch, _, _) => fetch !in s.inFlight
    case Fail(fetch) => fetch in s.inFlight
    case Store(fetch, _, _) => fetch in s.inFlight
  }

  function Next(s: System, e: Event, maxEntries: int, ttl: int): System
    requires MayHappen(s, e)
  {
    match e
    case Look(fetch, url, now) => if Hit(s.client, url, now, ttl).Some? then s
      else s.(inFlight := s.inFlight[fetch := url])
    case Fail(fetch) => s.(inFlight := s.inFlight - {fetch})
    case Store(fetch, link, now) =>
      var url, entry := s.inFlight[fetch], Entry(link, now);
      System(Stored(s.client, url, entry, maxEntries), s.inFlight - {fetch}, s.log + [(url, entry)])
  }

  predicate MayRun(s: System, es: seq<Event>, maxEntries: int, ttl: int)
    decreases |es|
  {
    es == [] || (MayHappen(s, es[0]) && MayRun(Next(s, es[0], maxEntries, ttl), es[1..], maxEntries, ttl))
  }

  function After(s: System, es: seq<Event>, maxEntries: int, ttl: int): System
    requires MayRun(s, es, maxEntries, ttl)
    decreases |es|
  {
    if es == [] then s else After(Next(s, es[0], maxEntries, ttl), es[1..], maxEntries, ttl)
  }

  const START := System(State(map[], [], false), map[], [])

  /** The last entry stored for a URL. */
  function Latest(log: seq<(string, Entry)>, url: string): Option<Entry> {
    if log == [] then None
    else if log[|log| - 1].0 == url then Some(log[|log| - 1].1)
    else Latest(log[..|log| - 1], url)
  }

  function Urls(log: seq<(string, Entry)>): (r: seq<string>)
    ensures |r| == |log|
  {
    seq(|log|, i requires 0 <= i < |log| => log[i].0)
  }

  ghost predicate Distinct(s: seq<string>) { forall i, j :: 0 <= i < j < |s| ==> s[i] != s[j] }

  function Elements(s: seq<string>): set<string> { set u | u in s }

  /** `order` is what is left of the stored URLs; a cached entry is the latest for
      its URL; and as long as no URL is stored twice the list names exactly the
      cached ones. */
  ghost predicate Inv(s: System, maxEntries: int) {
    && Good(s.client, maxEntries)
    && |s.client.order| <= |s.log|
    && s.client.order == Urls(s.log)[|s.log| - |s.client.order|..]
    && (forall u :: u in s.client.cache ==> Latest(s.log, u) == Some(s.client.cache[u]))
    && (Distinct(Urls(s.log)) ==> s.client.cache.Keys == Elements(s.client.order))
    && (Distinct(Urls(s.log)) ==> |s.client.cache| == if |s.log| <= maxEntries then |s.log| else maxEntries)
  }

  ghost predicate IsSuffix(order: seq<string>, all: seq<string>) {
    |order| <= |all| && order == all[|all| - |order|..]
  }

  /** Eviction only takes from the front of the list and out of the cache. */
  lemma {:induction false} EvictionTakesAway(s: State, maxEntries: int)
    ensures IsSuffix(Evicted(s, maxEntries).order, s.order)
    ensures forall u :: u in Evicted(s, maxEntries).cache ==>
      u in s.cache && Evicted(s, maxEntries).cache[u] == s.cache[u]
    decreases |s.order|
  {
    if |s.cache| > maxEntries && s.order != [] {
      EvictionTakesAway(State(s.cache - {s.order[0]}, s.order[1..], s.panicked), maxEntries);
    }
  }

  /** A list that names each cached URL once, and no other, stays so. */
  lemma {:induction false} EvictionKeepsExact(s: State, maxEntries: nat)
    requires Distinct(s.order) && s.cache.Keys == Elements(s.order)
    ensures var t := Evicted(s, maxEntries); t.cache.Keys == Elements(t.order)
    ensures |Evicted(s, maxEntries).cache| == if |s.cache| <= maxEntries then |s.cache| else maxEntries
    decreases |s.order|
  {
    hide Distinct, Elements;
    if |s.cache| > maxEntries {
      FrontLeavesExact(s);
      EvictionKeepsExact(State(s.cache - {s.order[0]}, s.order[1..], s.panicked), maxEntries);
    }
  }

  lemma FrontLeavesExact(s: State)
    requires Distinct(s.order) && s.cache.Keys == Elements(s.order) && |s.cache| > 0
    ensures s.order != []
    ensures var t := State(s.cache - {s.order[0]}, s.order[1..], s.panicked);
      Distinct(t.order) && t.cache.Keys == Elements(t.order) && |t.cache| == |s.cache| - 1
  {
    if s.order == [] { Empty(s); assert false; }
    hide Distinct, Elements;
    DistinctTail(s.order);
    var front, t := s.order[0], State(s.cache - {s.order[0]}, s.order[1..], s.panicked);
    assert front in Elements(s.order);
    AllElementsListed(s);
    FrontGone(s);
    assert t.cache.Keys == s.cache.Keys - {front};
  }

  lemma AllElementsListed(s: State)
    requires s.cache.Keys == Elements(s.order)
    ensures AllListed(s)
  {
    forall u | u in s.cache ensures u in s.order { assert u in Elements(s.order); }
  }

  lemma DistinctTail(order: seq<string>)
    requires Distinct(order) && order != []
    ensures Distinct(order[1..]) && Elements(order[1..]) == Elements(order) - {order[0]} && order[0] in Elements(order)
  {
    var front, tail := order[0], order[1..];
    assert forall i :: 0 <= i < |tail| ==> tail[i] == order[i + 1];
    assert front !in tail;
    assert forall u :: u in order <==> u == front || u in tail;
  }

  lemma UrlsGrow(log: seq<(string, Entry)>, x: (string, Entry))
    ensures Urls(log + [x]) == Urls(log) + [x.0]
  {
  }

  lemma DistinctParts(s: seq<string>, u: string)
    requires Distinct(s + [u])
    ensures Distinct(s) && u !in s
    ensures forall order :: IsSuffix(order, s) ==> Distinct(order + [u])
  {
    forall i, j | 0 <= i < j < |s| ensures s[i] != s[j] {
      assert (s + [u])[i] != (s + [u])[j];
    }
    forall i | 0 <= i < |s| ensures s[i] != u {
      assert (s + [u])[i] != (s + [u])[|s|];
    }
  }

  lemma LatestAfter(log: seq<(string, Entry)>, x: (string, Entry), u: string)
    ensures Latest(log + [x], u) == if x.0 == u then Some(x.1) else Latest(log, u)
  {
    assert (log + [x])[..|log|] == log;
  }

  lemma SuffixGrows(order: seq<string>, all: seq<string>, u: string, left: seq<string>)
    requires IsSuffix(order, all) && IsSuffix(left, order + [u])
    ensures IsSuffix(left, all + [u])
  {
  }

  lemma StoreKeepsInv(s: System, url: string, entry: Entry, maxEntries: nat)
    requires Inv(s, maxEntries)
    ensures Inv(System(Stored(s.client, url, entry, maxEntries), s.inFlight, s.log + [(url, entry)]), maxEntries)
  {
    hide AllListed, FirstListed, Evicted, Latest, Distinct, Urls, Elements, Good;
    var put, log := Put(s.client, url, entry), s.log + [(url, entry)];
    var client := Stored(s.client, url, entry, maxEntries);
    StoreEvictsTheFirst(s.client, url, entry, maxEntries);
    EvictionTakesAway(put, maxEntries);
    UrlsGrow(s.log, (url, entry));
    SuffixGrows(s.client.order, Urls(s.log), url, client.order);
    forall u | u in client.cache ensures Latest(log, u) == Some(client.cache[u]) {
      LatestAfter(s.log, (url, entry), u);
    }
    if Distinct(Urls(log)) {
      StoreKeepsExact(s, url, entry, maxEntries);
    }
  }

  lemma StoreKeepsExact(s: System, url: string, entry: Entry, maxEntries: nat)
    requires Inv(s, maxEntries) && Distinct(Urls(s.log) + [url])
    ensures var t := Stored(s.client, url, entry, maxEntries);
      t.cache.Keys == Elements(t.order) && |t.cache| == if |s.log| + 1 <= maxEntries then |s.log| + 1 else maxEntries
  {
    hide Evicted, Latest, Distinct, Urls, AllListed;
    DistinctParts(Urls(s.log), url);
    assert IsSuffix(s.client.order, Urls(s.log));
    var put := Put(s.client, url, entry);
    PutSize(s.client, url, entry);
    assert put.cache.Keys == Elements(put.order);
    EvictionKeepsExact(put, maxEntries);
  }

  lemma StepKeepsInv(s: System, e: Event, maxEntries: nat, ttl: int)
    requires Inv(s, maxEntries) && MayHappen(s, e)
    ensures Inv(Next(s, e, maxEntries, ttl), maxEntries)
  {
    hide Stored, Latest, Good, Distinct, Urls, Hit;
    if e.Store? {
      StoreKeepsInv(s, s.inFlight[e.fetch], Entry(e.link, e.now), maxEntries);
    }
  }

  lemma {:induction false} RunKeepsInv(s: System, es: seq<Event>, maxEntries: nat, ttl: int)
    requires Inv(s, maxEntries) && MayRun(s, es, maxEntries, ttl)
    ensures Inv(After(s, es, maxEntries, ttl), maxEntries)
    decreases |es|
  {
    hide Inv, Next, MayHappen;
    if es != [] {
      StepKeepsInv(s, es[0], maxEntries, ttl);
      RunKeepsInv(Next(s, es[0], maxEntries, ttl), es[1..], maxEntries, ttl);
    }
  }

  lemma StartIsGood(maxEntries: nat)
    ensures Inv(START, maxEntries)
  {
    assert Elements([]) == {};
  }

  /** In every interleaving of fetches: every cached URL is on the list, eviction
      never indexes an empty list and leaves at most MaxEntries entries, and a hit
      is the latest preview stored for its URL, not yet expired. */
  lemma CacheIsSound(es: seq<Event>, maxEntries: nat, ttl: int, url: string, now: int)
    requires MayRun(START, es, maxEntries, ttl)
    ensures var s := After(START, es, maxEntries, ttl);
      && AllListed(s.client) && !s.client.panicked && |s.client.cache| <= maxEntries
      && (Hit(s.client, url, now, ttl).Some? ==>
            exists e :: Latest(s.log, url) == Some(e) && Hit(s.client, url, now, ttl) == Some(e.link)
              && now - e.fetchedAt < ttl)
  {
    hide AllListed, Latest, Distinct, Urls, After, MayRun;
    StartIsGood(maxEntries);
    RunKeepsInv(START, es, maxEntries, ttl);
  }

  /** A fetch is answered from the cache exactly when the URL is cached and its latest
      preview has not expired, and then with that preview. */
  lemma FreshIsServed(es: seq<Event>, maxEntries: nat, ttl: int, fetch: nat, url: string, now: int)
    requires MayRun(START, es, maxEntries, ttl) && fetch !in After(START, es, maxEntries, ttl).inFlight
    ensures var s := After(START, es, maxEntries, ttl);
      && (url in s.client.cache ==> Latest(s.log, url).Some?)
      && (var live := url in s.client.cache && now - Latest(s.log, url).value.fetchedAt < ttl;
          && Hit(s.client, url, now, ttl) == (if live then Some(Latest(s.log, url).value.link) else None)
          && Next(s, Look(fetch, url, now), maxEntries, ttl).inFlight ==
               if live then s.inFlight else s.inFlight[fetch := url])
  {
    hide AllListed, Latest, Distinct, Urls, After, MayRun;
    StartIsGood(maxEntries);
    RunKeepsInv(START, es, maxEntries, ttl);
  }

  /** A preview just stored is found at once, unless the store has evicted it. */
  lemma StoredIsServed(s: State, url: string, e: Entry, maxEntries: nat, now: int, ttl: int)
    requires Good(s, maxEntries) && url in Stored(s, url, e, maxEntries).cache
    ensures Hit(Stored(s, url, e, maxEntries), url, now, ttl) == if now - e.fetchedAt < ttl then Some(e.link) else None
  {
    hide Good, Evicted;
    EvictionTakesAway(Put(s, url, e), maxEntries);
  }

  /** If no URL is stored twice, the cached ones are exactly the last MaxEntries
      stored, or all while there are fewer. */
  lemma SurvivorsAreTheLatest(es: seq<Event>, maxEntries: nat, ttl: int)
    requires MayRun(START, es, maxEntries, ttl)
    requires Distinct(Urls(After(START, es, maxEntries, ttl).log))
    ensures var s := After(START, es, maxEntries, ttl);
      var n := if |s.log| <= maxEntries then |s.log| else maxEntries;
      s.client.cache.Keys == Elements(Urls(s.log)[|s.log| - n..])
  {
    hide After, MayRun, Latest;
    StartIsGood(maxEntries);
    RunKeepsInv(START, es, maxEntries, ttl);
    var s := After(START, es, maxEntries, ttl);
    ElementsCount(s.client.order);
    assert |s.client.cache.Keys| == |s.client.cache|;
  }

  lemma {:induction false} ElementsCount(s: seq<string>)
    requires Distinct(s)
    ensures |Elements(s)| == |s|
  {
    if s != [] {
      ElementsCount(s[1..]);
      assert Elements(s) == {s[0]} + Elements(s[1..]);
    }
  }

  /** The URL that goes, if the list names it once, is the least recently stored of
      all cached ones: every other stands behind it, wherever it stands. */
  lemma {:induction false} ListedOnceIsOldest(order: seq<string>, keys: set<string>, i: nat, j: nat)
    requires exists u :: u in keys && u in order
    requires i < |order| && j < |order| && order[i] == FirstListed(order, keys)
    requires forall k :: 0 <= k < |order| && order[k] == order[i] ==> k == i
    requires order[j] in keys && order[j] != order[i]
    ensures i < j
  {
    if order[0] !in keys {
      assert i > 0 && j > 0 by { FirstIsKey(order, keys); }
      assert order[1..][j - 1] == order[j];
      ListedOnceIsOldest(order[1..], keys, i - 1, j - 1);
    }
  }

  lemma {:induction false} FirstIsKey(order: seq<string>, keys: set<string>)
    requires exists u :: u in keys && u in order
    ensures FirstListed(order, keys) in keys
  {
    if order[0] !in keys { FirstIsKey(order[1..], keys); }
  }

  /** Without such a condition it need not be: after a second store of the same URL,
      a preview can be evicted by its own store while an older one stays. */
  lemma StoredTwiceMayGoFirst(a: string, b: string, e: Entry)
    requires a != b
    ensures var s := State(map[b := e], [a, b], false);
      Stored(Stored(Stored(State(map[], [], false), a, e, 1), a, e, 1), b, e, 1) == s
        && Stored(s, a, e, 1).cache == map[b := e]
  {
    hide Evicted;
    TwoOfOne(a, b, e);
    TwoEntries(a, b, e, [a, a, b]);
    var s := State(map[b := e], [a, b], false);
    assert Put(s, a, e) == State(map[a := e, b := e], [a, b, a], false);
    TwoEntries(a, b, e, [a, b, a]);
  }

  lemma TwoOfOne(a: string, b: string, e: Entry)
    requires a != b
    ensures Put(Stored(Stored(State(map[], [], false), a, e, 1), a, e, 1), b, e) ==
      State(map[a := e, b := e], [a, a, b], false)
  {
    hide Evicted;
    var one, two := State(map[a := e], [a], false), State(map[a := e], [a, a], false);
    assert Put(State(map[], [], false), a, e) == one;
    OneEntry(a, e, [a]);
    assert Put(one, a, e) == two;
    OneEntry(a, e, [a, a]);
  }

  lemma OneEntry(a: string, e: Entry, order: seq<string>)
    ensures Evicted(State(map[a := e], order, false), 1) == State(map[a := e], order, false)
  {
    assert map[a := e].Keys == {a} && |map[a := e]| == |map[a := e].Keys|;
  }

  lemma TwoEntries(a: string, b: string, e: Entry, order: seq<string>)
    requires a != b && order != [] && order[0] == a
    ensures Evicted(State(map[a := e, b := e], order, false), 1) == State(map[b := e], order[1..], false)
  {
    var cache := map[a := e, b := e];
    assert cache.Keys == {a, b} && |cache| == |cache.Keys|;
    assert cache - {a} == map[b := e];
    OneEntry(b, e, order[1..]);
  }

  /** One URL fetched again and again: the cache holds one entry, the list grows
      without bound. */
  function StoredTimes(url: string, e: Entry, n: nat, maxEntries: int): State {
    if n == 0 then START.client else Stored(StoredTimes(url, e, n - 1, maxEntries), url, e, maxEntries)
  }

  lemma {:induction false} TheListGrows(url: string, e: Entry, n: nat, maxEntries: nat)
    requires n >= 1 && maxEntries >= 1
    ensures StoredTimes(url, e, n, maxEntries).cache == map[url := e] && |StoredTimes(url, e, n, maxEntries).order| == n
  {
    if n > 1 { TheListGrows(url, e, n - 1, maxEntries); }
    assert map[url := e][url := e] == map[url := e] && |map[url := e]| == 1;
    if n == 1 { assert StoredTimes(url, e, 0, maxEntries) == START.client; }
  }
}
