/** `NewsBot.check_feeds`: one pass over the configured feeds that picks the entries
    worth posting and records each picked link in the dedup store as soon as it is
    picked. Fetching and parsing are outside the model: each feed arrives already
    fetched, as either a failure or a list of parsed entries. */
module FeedScan {
  import opened Wrappers
  import opened Text
  import opened DedupStore

  /** A parsed feed entry; either field may be absent. */
  datatype Entry = Entry(link: Option<string>, title: Option<string>)

  /** What fetching one feed produced: nothing usable (network error, timeout,
      non-200 status), or the parser's entries. */
  datatype Fetch = FetchFailed | Fetched(entries: seq<Entry>)

  /** One item of the configuration's `feeds` list; either key may be absent. */
  datatype FeedConfig = FeedConfig(url: Option<string>, emoji: Option<string>)

  datatype Feed = Feed(config: FeedConfig, fetch: Fetch)

  /** An article selected for posting. */
  datatype Article = Article(title: string, link: string, emoji: string)

  /** The store after a scan, and the articles the scan selected, in order. */
  datatype Scan = Scan(store: Store, articles: seq<Article>)

  /** Only the first this-many entries of a feed are looked at. */
  const EntryWindow: nat := 15

  /** Title used when an entry has none ("Sem título"). */
  const DefaultTitle: string := "Sem t\U{ED}tulo"

  /** Emoji used when a feed's configuration names none (U+1F4F0, NEWSPAPER). */
  const DefaultEmoji: string := "\U{1F4F0}"

  /** Accepted links start with this. */
  const LinkScheme: string := "http"

  /** An entry normalised the way the filter sees it: missing link as the empty string,
      missing title as `DefaultTitle`, both stripped of surrounding white space. */
  function Candidate(e: Entry, emoji: string): (c: Article)
    ensures Stripped(c.title) && Stripped(c.link) && c.emoji == emoji
    ensures e.title.Some? ==> c.title == Strip(e.title.value)
    ensures e.link.Some? ==> c.link == Strip(e.link.value)
  {
    Article(Strip(e.title.GetOr(DefaultTitle)), Strip(e.link.GetOr("")), emoji)
  }

  function Candidates(entries: seq<Entry>, emoji: string): (cs: seq<Article>)
    ensures |cs| == |entries|
  {
    if entries == [] then [] else [Candidate(entries[0], emoji)] + Candidates(entries[1..], emoji)
  }

  /** The emoji a feed's articles carry. */
  function EmojiOf(feed: Feed): (emoji: string) {
    feed.config.emoji.GetOr(DefaultEmoji)
  }

  /** A feed whose entries are looked at: it has a `url` (otherwise reading it raises
      and the feed is skipped), it was fetched, and it has at least one entry. */
  predicate Live(feed: Feed) {
    feed.config.url.Some? && feed.fetch.Fetched? && feed.fetch.entries != []
  }

  /** The leading entries of a fetched feed that are looked at. */
  function Window(entries: seq<Entry>): (w: seq<Entry>)
    ensures |w| <= EntryWindow
    ensures |w| == if |entries| <= EntryWindow then |entries| else EntryWindow
    ensures w == entries[..|w|]
  {
    if |entries| <= EntryWindow then entries else entries[..EntryWindow]
  }

  /** The normalised entries of a feed that the filter considers, in entry order:
      none for a feed that is not live, else the first `EntryWindow`. */
  function FeedCandidates(feed: Feed): (cs: seq<Article>)
    ensures |cs| <= EntryWindow
  {
    if Live(feed) then Candidates(Window(feed.fetch.entries), EmojiOf(feed)) else []
  }

  /** A feed contributes candidates exactly when it is live: its configuration has a
      `url`, the fetch succeeded and the parser found entries. */
  lemma LiveIffCandidates(feed: Feed)
    ensures FeedCandidates(feed) != [] <==> Live(feed)
  {
  }

  /** The candidates of each feed, in configuration order. */
  function CandidateLists(feeds: seq<Feed>): (lists: seq<seq<Article>>)
    ensures |lists| == |feeds|
  {
    seq(|feeds|, i requires 0 <= i < |feeds| => FeedCandidates(feeds[i]))
  }

  function Flatten(lists: seq<seq<Article>>): (flat: seq<Article>) {
    if lists == [] then [] else lists[0] + Flatten(lists[1..])
  }

  /** The candidates of all feeds, feed after feed. */
  function AllCandidates(feeds: seq<Feed>): (cands: seq<Article>) {
    Flatten(CandidateLists(feeds))
  }

  /** A link the filter lets through, store aside: non-empty and starting with `http`. */
  predicate Acceptable(link: string) {
    link != [] && StartsWith(link, LinkScheme)
  }

  /** The shape every selected article has. */
  predicate WellFormed(a: Article) {
    Acceptable(a.link) && Stripped(a.link) && Stripped(a.title)
  }

  function LinksOf(arts: seq<Article>): (links: set<string>) {
    set a | a in arts :: a.link
  }

  /** The links of `arts` whose insert into the store goes through. */
  function Recorded(arts: seq<Article>, faults: Faults): (links: set<string>) {
    set a | a in arts && a.link !in faults.insert :: a.link
  }

  /** No selected link was in the store, or failed its lookup, before the scan. */
  predicate Unseen(arts: seq<Article>, store: Store, faults: Faults) {
    forall a :: a in arts ==> a.link !in store && a.link !in faults.lookup
  }

  /** A link is selected twice only if recording it failed the first time. */
  predicate NoRepeats(arts: seq<Article>, faults: Faults) {
    forall i, j :: 0 <= i < j < |arts| && arts[i].link == arts[j].link ==> arts[i].link in faults.insert
  }

  /** `store'` is `store` plus exactly the recorded links of `arts`, each with its
      title cut to `TitleLimit`, and nothing already stored is changed. */
  predicate RecordsExactly(store: Store, store': Store, arts: seq<Article>, faults: Faults) {
    && store'.Keys == store.Keys + Recorded(arts, faults)
    && (forall k :: k in store ==> store'[k] == store[k])
    && (forall a :: a in arts && a.link !in faults.insert ==> store'[a.link] == Truncate(a.title, TitleLimit))
  }

  /** What every scan starting from `store` guarantees about its result. */
  predicate Sound(store: Store, faults: Faults, s: Scan) {
    && (forall a :: a in s.articles ==> WellFormed(a))
    && Unseen(s.articles, store, faults)
    && NoRepeats(s.articles, faults)
    && RecordsExactly(store, s.store, s.articles, faults)
  }

  /** Two selections that are each well-formed and unseen in turn are so together. */
  lemma ConcatUnseen(store: Store, faults: Faults, first: Scan, rest: Scan)
    requires Sound(store, faults, first)
    requires Sound(first.store, faults, rest)
    ensures forall a :: a in first.articles + rest.articles ==> WellFormed(a)
    ensures Unseen(first.articles + rest.articles, store, faults)
  {
    var arts := first.articles + rest.articles;
    forall a | a in arts
      ensures WellFormed(a) && a.link !in store && a.link !in faults.lookup
    {
      if a !in first.articles {
        assert a in rest.articles;
      }
    }
  }

  /** A link of `first` cannot come back in `rest` unless recording it failed. */
  lemma ConcatNoRepeats(store: Store, faults: Faults, first: Scan, rest: Scan)
    requires Sound(store, faults, first)
    requires Sound(first.store, faults, rest)
    ensures NoRepeats(first.articles + rest.articles, faults)
  {
    var arts := first.articles + rest.articles;
    var n := |first.articles|;
    forall i, j | 0 <= i < j < |arts| && arts[i].link == arts[j].link
      ensures arts[i].link in faults.insert
    {
      if i < n && j < n {
        assert arts[i] == first.articles[i] && arts[j] == first.articles[j];
      } else if n <= i {
        assert arts[i] == rest.articles[i - n] && arts[j] == rest.articles[j - n];
      } else {
        assert arts[i] == first.articles[i] && arts[j] == rest.articles[j - n];
      }
    }
  }

  /** The records of two scans in turn add up. */
  lemma ConcatRecords(store: Store, faults: Faults, first: Scan, rest: Scan)
    requires RecordsExactly(store, first.store, first.articles, faults)
    requires RecordsExactly(first.store, rest.store, rest.articles, faults)
    ensures RecordsExactly(store, rest.store, first.articles + rest.articles, faults)
  {
    var arts := first.articles + rest.articles;
    assert Recorded(arts, faults) == Recorded(first.articles, faults) + Recorded(rest.articles, faults);
    forall a | a in arts && a.link !in faults.insert
      ensures a.link in rest.store && rest.store[a.link] == Truncate(a.title, TitleLimit)
    {
      if a in first.articles {
        assert a.link in Recorded(first.articles, faults);
      } else {
        assert a in rest.articles;
      }
    }
  }

  /** Scanning `first` from `store` and then `rest` from where it left off is a sound
      scan of both, from `store`. */
  lemma SoundConcat(store: Store, faults: Faults, first: Scan, rest: Scan)
    requires Sound(store, faults, first)
    requires Sound(first.store, faults, rest)
    ensures Sound(store, faults, Scan(rest.store, first.articles + rest.articles))
  {
    ConcatUnseen(store, faults, first, rest);
    ConcatNoRepeats(store, faults, first, rest);
    ConcatRecords(store, faults, first, rest);
  }

  /** Selecting one unseen, well-formed article and marking it is a sound scan. */
  lemma SoundMark(store: Store, c: Article, faults: Faults)
    requires WellFormed(c) && c.link !in store && c.link !in faults.lookup
    ensures Sound(store, faults, Scan(MarkLinkSent(store, c.link, c.title, faults), [c]))
  {
    assert Recorded([c], faults) == if c.link in faults.insert then {} else {c.link};
  }

  /** The entry loop of `check_feeds` for one feed, on its normalised entries: a
      candidate is taken when its link is acceptable and not reported as sent, and its
      link is marked at once. */
  function ScanCandidates(store: Store, cands: seq<Article>, faults: Faults): (s: Scan)
    ensures |s.articles| <= |cands|
    decreases |cands|
  {
    if cands == [] then Scan(store, [])
    else
      var c := cands[0];
      if Acceptable(c.link) && !IsLinkSent(store, c.link, faults) then
        var rest := ScanCandidates(MarkLinkSent(store, c.link, c.title, faults), cands[1..], faults);
        Scan(rest.store, [c] + rest.articles)
      else
        ScanCandidates(store, cands[1..], faults)
  }

  /** One iteration of the feed loop of `check_feeds`. */
  function ScanFeed(store: Store, feed: Feed, faults: Faults): (s: Scan)
    ensures |s.articles| <= EntryWindow
    ensures !Live(feed) ==> s == Scan(store, [])
  {
    ScanCandidates(store, FeedCandidates(feed), faults)
  }

  /** The feed loop of `check_feeds` over the feeds' candidate lists: the store is
      threaded from feed to feed and the selections are concatenated. */
  function ScanLists(store: Store, lists: seq<seq<Article>>, faults: Faults): (s: Scan)
    ensures |s.articles| <= |Flatten(lists)|
    decreases |lists|
  {
    if lists == [] then Scan(store, [])
    else
      var first := ScanCandidates(store, lists[0], faults);
      var rest := ScanLists(first.store, lists[1..], faults);
      Scan(rest.store, first.articles + rest.articles)
  }

  /** `check_feeds`. */
  function CheckFeeds(store: Store, feeds: seq<Feed>, faults: Faults): (s: Scan)
    ensures |s.articles| <= EntryWindow * |feeds|
  {
    FlattenBound(CandidateLists(feeds));
    ScanLists(store, CandidateLists(feeds), faults)
  }

  lemma {:induction false} FlattenBound(lists: seq<seq<Article>>)
    requires forall i :: 0 <= i < |lists| ==> |lists[i]| <= EntryWindow
    ensures |Flatten(lists)| <= EntryWindow * |lists|
  {
    if lists != [] {
      FlattenBound(lists[1..]);
    }
  }

  /** The first step of the feed loop is scanning the first feed. */
  lemma CheckFeedsCons(store: Store, feeds: seq<Feed>, faults: Faults)
    requires feeds != []
    ensures var first := ScanFeed(store, feeds[0], faults);
            var rest := CheckFeeds(first.store, feeds[1..], faults);
            CheckFeeds(store, feeds, faults) == Scan(rest.store, first.articles + rest.articles)
  {
    assert CandidateLists(feeds)[1..] == CandidateLists(feeds[1..]);
  }

  // ---------------------------------------------------------------------------
  // Soundness

  lemma {:induction false} ScanCandidatesSound(store: Store, cands: seq<Article>, faults: Faults)
    requires forall c :: c in cands && Acceptable(c.link) ==> WellFormed(c)
    ensures Sound(store, faults, ScanCandidates(store, cands, faults))
    decreases |cands|
  {
    if cands != [] {
      var c := cands[0];
      if Acceptable(c.link) && !IsLinkSent(store, c.link, faults) {
        var marked := MarkLinkSent(store, c.link, c.title, faults);
        ScanCandidatesSound(marked, cands[1..], faults);
        SoundMark(store, c, faults);
        SoundConcat(store, faults, Scan(marked, [c]), ScanCandidates(marked, cands[1..], faults));
      } else {
        ScanCandidatesSound(store, cands[1..], faults);
      }
    }
  }

  lemma {:induction false} ScanListsSound(store: Store, lists: seq<seq<Article>>, faults: Faults)
    requires forall i, c :: 0 <= i < |lists| && c in lists[i] && Acceptable(c.link) ==> WellFormed(c)
    ensures Sound(store, faults, ScanLists(store, lists, faults))
    decreases |lists|
  {
    if lists != [] {
      var first := ScanCandidates(store, lists[0], faults);
      ScanCandidatesSound(store, lists[0], faults);
      ScanListsSound(first.store, lists[1..], faults);
      SoundConcat(store, faults, first, ScanLists(first.store, lists[1..], faults));
    }
  }

  lemma {:induction false} CandidatesShape(entries: seq<Entry>, emoji: string)
    ensures forall c :: c in Candidates(entries, emoji) && Acceptable(c.link) ==> WellFormed(c)
  {
    if entries != [] {
      CandidatesShape(entries[1..], emoji);
    }
  }

  /** Every article `check_feeds` returns is well formed and was neither stored nor
      failing its lookup before the call; a link comes back twice only if recording it
      failed; and the store afterwards is the old store plus exactly the recorded
      links, titles cut to `TitleLimit`, with no stored title changed. */
  lemma CheckFeedsSound(store: Store, feeds: seq<Feed>, faults: Faults)
    ensures Sound(store, faults, CheckFeeds(store, feeds, faults))
  {
    var lists := CandidateLists(feeds);
    forall i | 0 <= i < |lists|
      ensures forall c: Article :: c in lists[i] && Acceptable(c.link) ==> WellFormed(c)
    {
      if Live(feeds[i]) {
        CandidatesShape(Window(feeds[i].fetch.entries), EmojiOf(feeds[i]));
      }
    }
    ScanListsSound(store, lists, faults);
  }

  /** The fail-safe at work: a link whose lookup fails is never returned, even when it
      is not in the store. */
  lemma FailedLookupIsNeverPosted(store: Store, feeds: seq<Feed>, faults: Faults, link: string)
    requires link in faults.lookup
    ensures link !in LinksOf(CheckFeeds(store, feeds, faults).articles)
  {
    CheckFeedsSound(store, feeds, faults);
  }

  /** With working storage, `check_feeds` returns each link at most once, and the store
      afterwards holds exactly the old links plus the returned ones. */
  lemma CheckFeedsWithoutFaults(store: Store, feeds: seq<Feed>)
    ensures var s := CheckFeeds(store, feeds, NoFaults);
            && (forall i, j :: 0 <= i < j < |s.articles| ==> s.articles[i].link != s.articles[j].link)
            && s.store.Keys == store.Keys + LinksOf(s.articles)
            && (forall k :: k in store ==> s.store[k] == store[k])
    ensures TitlesCapped(store) ==> TitlesCapped(CheckFeeds(store, feeds, NoFaults).store)
  {
    var s := CheckFeeds(store, feeds, NoFaults);
    CheckFeedsSound(store, feeds, NoFaults);
    assert Recorded(s.articles, NoFaults) == LinksOf(s.articles);
    if TitlesCapped(store) {
      forall k | k in s.store ensures |s.store[k]| <= TitleLimit {
        if k !in store {
          var a :| a in s.articles && a.link == k;
        }
      }
    }
  }

  /** A missing title reads as `DefaultTitle`, a missing link as the empty string, which
      is never acceptable, and a missing emoji as `DefaultEmoji`. */
  lemma MissingFieldDefaults(e: Entry, feed: Feed)
    ensures e.title.None? ==> Candidate(e, EmojiOf(feed)).title == DefaultTitle
    ensures e.link.None? ==> !Acceptable(Candidate(e, EmojiOf(feed)).link)
    ensures feed.config.emoji.None? ==> EmojiOf(feed) == DefaultEmoji
  {
    StripOfStripped(DefaultTitle);
  }

  // ---------------------------------------------------------------------------
  // Reference selection

  /** A reference for the whole scan, independent of the store and of the feed
      structure: walk the flat list of candidates, keeping a candidate when its link is
      acceptable, not `known` and its lookup does not fail; a kept link becomes known
      unless its insert fails. */
  function Select(cands: seq<Article>, known: set<string>, faults: Faults): (picked: seq<Article>) {
    if cands == [] then []
    else
      var c := cands[0];
      if Acceptable(c.link) && c.link !in known && c.link !in faults.lookup then
        [c] + Select(cands[1..], if c.link in faults.insert then known else known + {c.link}, faults)
      else
        Select(cands[1..], known, faults)
  }

  /** Selecting from a concatenation is selecting from the first part, then from the
      second with the first part's recorded links added to what is known. */
  lemma {:induction false} SelectConcat(xs: seq<Article>, ys: seq<Article>, known: set<string>, faults: Faults)
    ensures Select(xs + ys, known, faults)
         == Select(xs, known, faults) + Select(ys, known + Recorded(Select(xs, known, faults), faults), faults)
  {
    if xs == [] {
      assert xs + ys == ys;
      assert known + Recorded([], faults) == known;
    } else {
      var c := xs[0];
      assert (xs + ys)[0] == c && (xs + ys)[1..] == xs[1..] + ys;
      if Acceptable(c.link) && c.link !in known && c.link !in faults.lookup {
        var known' := if c.link in faults.insert then known else known + {c.link};
        SelectConcat(xs[1..], ys, known', faults);
        var tail := Select(xs[1..], known', faults);
        assert Recorded([c] + tail, faults) == Recorded([c], faults) + Recorded(tail, faults);
        assert known' + Recorded(tail, faults) == known + Recorded([c] + tail, faults);
      } else {
        SelectConcat(xs[1..], ys, known, faults);
      }
    }
  }

  /** Within one feed, the scan selects exactly what the reference selects. */
  lemma {:induction false} ScanCandidatesIsSelect(store: Store, cands: seq<Article>, faults: Faults)
    ensures ScanCandidates(store, cands, faults).articles == Select(cands, store.Keys, faults)
    decreases |cands|
  {
    if cands != [] {
      var c := cands[0];
      if Acceptable(c.link) && !IsLinkSent(store, c.link, faults) {
        ScanCandidatesIsSelect(MarkLinkSent(store, c.link, c.title, faults), cands[1..], faults);
      } else {
        ScanCandidatesIsSelect(store, cands[1..], faults);
      }
    }
  }

  lemma {:induction false} ScanListsIsSelect(store: Store, lists: seq<seq<Article>>, faults: Faults)
    ensures ScanLists(store, lists, faults).articles == Select(Flatten(lists), store.Keys, faults)
    decreases |lists|
  {
    if lists != [] {
      var first := ScanCandidates(store, lists[0], faults);
      ScanCandidatesIsSelect(store, lists[0], faults);
      ScanCandidatesSoundKeys(store, lists[0], faults);
      ScanListsIsSelect(first.store, lists[1..], faults);
      SelectConcat(lists[0], Flatten(lists[1..]), store.Keys, faults);
    }
  }

  /** The keys a scan adds are exactly the recorded links it selected. */
  lemma {:induction false} ScanCandidatesSoundKeys(store: Store, cands: seq<Article>, faults: Faults)
    ensures var s := ScanCandidates(store, cands, faults);
            s.store.Keys == store.Keys + Recorded(s.articles, faults)
    decreases |cands|
  {
    if cands != [] {
      var c := cands[0];
      if Acceptable(c.link) && !IsLinkSent(store, c.link, faults) {
        var marked := MarkLinkSent(store, c.link, c.title, faults);
        ScanCandidatesSoundKeys(marked, cands[1..], faults);
        var rest := ScanCandidates(marked, cands[1..], faults);
        assert Recorded([c] + rest.articles, faults) == Recorded([c], faults) + Recorded(rest.articles, faults);
      } else {
        ScanCandidatesSoundKeys(store, cands[1..], faults);
      }
    }
  }

  /** `check_feeds` selects exactly what the reference selects from all candidates,
      feed after feed, starting from the links already stored. */
  lemma CheckFeedsIsSelect(store: Store, feeds: seq<Feed>, faults: Faults)
    ensures CheckFeeds(store, feeds, faults).articles == Select(AllCandidates(feeds), store.Keys, faults)
  {
    ScanListsIsSelect(store, CandidateLists(feeds), faults);
  }

  /** The links worth posting among `cands`, store aside. */
  function AcceptableLinks(cands: seq<Article>): (links: set<string>) {
    set c | c in cands && Acceptable(c.link) :: c.link
  }

  /** The reference loses no link: it selects every acceptable link that is neither
      known nor failing its lookup, and nothing else. */
  lemma {:induction false} SelectComplete(cands: seq<Article>, known: set<string>, faults: Faults)
    ensures LinksOf(Select(cands, known, faults)) == AcceptableLinks(cands) - known - faults.lookup
  {
    if cands != [] {
      var c := cands[0];
      assert cands == [c] + cands[1..];
      assert AcceptableLinks(cands) == AcceptableLinks([c]) + AcceptableLinks(cands[1..]);
      if Acceptable(c.link) && c.link !in known && c.link !in faults.lookup {
        var known' := if c.link in faults.insert then known else known + {c.link};
        SelectComplete(cands[1..], known', faults);
        var tail := Select(cands[1..], known', faults);
        assert LinksOf([c] + tail) == {c.link} + LinksOf(tail);
      } else {
        SelectComplete(cands[1..], known, faults);
      }
    }
  }

  /** `check_feeds` selects every acceptable link among the first `EntryWindow` entries
      of the live feeds unless it was already stored or its lookup failed. */
  lemma CheckFeedsComplete(store: Store, feeds: seq<Feed>, faults: Faults)
    ensures LinksOf(CheckFeeds(store, feeds, faults).articles)
         == AcceptableLinks(AllCandidates(feeds)) - store.Keys - faults.lookup
  {
    CheckFeedsIsSelect(store, feeds, faults);
    SelectComplete(AllCandidates(feeds), store.Keys, faults);
  }

  /** The first candidate carrying `link`, if any. */
  function FirstWithLink(cands: seq<Article>, link: string): (r: Option<Article>)
    ensures r.Some? ==> r.value in cands && r.value.link == link
    ensures r.None? <==> forall c :: c in cands ==> c.link != link
  {
    if cands == [] then None
    else if cands[0].link == link then Some(cands[0])
    else FirstWithLink(cands[1..], link)
  }

  /** What the reference picks is a candidate with an acceptable link that was neither
      known nor failing its lookup. */
  lemma {:induction false} SelectPicksFresh(cands: seq<Article>, known: set<string>, faults: Faults)
    ensures forall a :: a in Select(cands, known, faults) ==>
              a in cands && Acceptable(a.link) && a.link !in known && a.link !in faults.lookup
  {
    if cands != [] {
      var c := cands[0];
      if Acceptable(c.link) && c.link !in known && c.link !in faults.lookup {
        SelectPicksFresh(cands[1..], if c.link in faults.insert then known else known + {c.link}, faults);
      } else {
        SelectPicksFresh(cands[1..], known, faults);
      }
    }
  }

  /** Of several candidates sharing a link, the reference picks the first: a picked
      article whose insert goes through is the first candidate carrying its link. */
  lemma {:induction false} SelectTakesFirst(cands: seq<Article>, known: set<string>, faults: Faults)
    ensures forall a :: a in Select(cands, known, faults) && a.link !in faults.insert ==>
              FirstWithLink(cands, a.link) == Some(a)
  {
    if cands != [] {
      var c := cands[0];
      if Acceptable(c.link) && c.link !in known && c.link !in faults.lookup {
        var known' := if c.link in faults.insert then known else known + {c.link};
        SelectTakesFirst(cands[1..], known', faults);
        SelectPicksFresh(cands[1..], known', faults);
      } else {
        SelectTakesFirst(cands[1..], known, faults);
        SelectPicksFresh(cands[1..], known, faults);
      }
    }
  }

  /** When several entries share a link, `check_feeds` returns the first of them, with
      its title and emoji, in feed order and then entry order (unless its insert fails,
      when later copies come back as well). */
  lemma CheckFeedsTakesFirst(store: Store, feeds: seq<Feed>, faults: Faults)
    ensures forall a :: a in CheckFeeds(store, feeds, faults).articles && a.link !in faults.insert ==>
              FirstWithLink(AllCandidates(feeds), a.link) == Some(a)
  {
    CheckFeedsIsSelect(store, feeds, faults);
    SelectTakesFirst(AllCandidates(feeds), store.Keys, faults);
  }

  // ---------------------------------------------------------------------------
  // Order

  /** `xs` can be obtained from `ys` by deleting elements, so it keeps their order. */
  predicate IsSubsequence(xs: seq<Article>, ys: seq<Article>)
    decreases |ys|
  {
    xs == [] || (ys != [] && if xs[0] == ys[0] then IsSubsequence(xs[1..], ys[1..]) else IsSubsequence(xs, ys[1..]))
  }

  lemma {:induction false} SubsequenceSkip(xs: seq<Article>, ys: seq<Article>, y: Article)
    requires IsSubsequence(xs, ys)
    ensures IsSubsequence(xs, [y] + ys)
    decreases |ys|, 1
  {
    var zs := [y] + ys;
    assert zs[1..] == ys;
    if xs != [] && xs[0] == y {
      SubsequenceDrop(xs, ys);
    }
  }

  lemma {:induction false} SubsequenceDrop(xs: seq<Article>, ys: seq<Article>)
    requires xs != [] && IsSubsequence(xs, ys)
    ensures IsSubsequence(xs[1..], ys)
    decreases |ys|, 0
  {
    if xs[0] != ys[0] {
      SubsequenceDrop(xs, ys[1..]);
    }
    if xs[1..] != [] {
      SubsequenceSkip(xs[1..], ys[1..], ys[0]);
      assert [ys[0]] + ys[1..] == ys;
    }
  }

  /** The reference keeps the order of the candidates. */
  lemma {:induction false} SelectIsSubsequence(cands: seq<Article>, known: set<string>, faults: Faults)
    ensures IsSubsequence(Select(cands, known, faults), cands)
  {
    if cands != [] {
      var c := cands[0];
      if Acceptable(c.link) && c.link !in known && c.link !in faults.lookup {
        var known' := if c.link in faults.insert then known else known + {c.link};
        SelectIsSubsequence(cands[1..], known', faults);
        assert ([c] + Select(cands[1..], known', faults))[1..] == Select(cands[1..], known', faults);
      } else {
        SelectIsSubsequence(cands[1..], known, faults);
        SubsequenceSkip(Select(cands[1..], known, faults), cands[1..], c);
        assert [c] + cands[1..] == cands;
      }
    }
  }

  /** Articles come out in configuration order of their feeds and, within a feed, in
      entry order. */
  lemma CheckFeedsKeepsOrder(store: Store, feeds: seq<Feed>, faults: Faults)
    ensures IsSubsequence(CheckFeeds(store, feeds, faults).articles, AllCandidates(feeds))
  {
    CheckFeedsIsSelect(store, feeds, faults);
    SelectIsSubsequence(AllCandidates(feeds), store.Keys, faults);
  }

  lemma {:induction false} ScanListsConcat(store: Store, lists: seq<seq<Article>>, more: seq<seq<Article>>, faults: Faults)
    ensures var s1 := ScanLists(store, lists, faults);
            var s2 := ScanLists(s1.store, more, faults);
            ScanLists(store, lists + more, faults) == Scan(s2.store, s1.articles + s2.articles)
    decreases |lists|
  {
    if lists == [] {
      assert lists + more == more;
    } else {
      var all := lists + more;
      assert all[0] == lists[0] && all[1..] == lists[1..] + more;
      var first := ScanCandidates(store, lists[0], faults);
      ScanListsConcat(first.store, lists[1..], more, faults);
      var r1 := ScanLists(first.store, lists[1..], faults);
      var r2 := ScanLists(r1.store, more, faults);
      assert first.articles + (r1.articles + r2.articles) == (first.articles + r1.articles) + r2.articles;
    }
  }

  /** Scanning two feed lists one after the other is scanning their concatenation: a
      feed's contribution depends on the feeds before it only through the store. */
  lemma CheckFeedsConcat(store: Store, feeds: seq<Feed>, more: seq<Feed>, faults: Faults)
    ensures var s1 := CheckFeeds(store, feeds, faults);
            var s2 := CheckFeeds(s1.store, more, faults);
            CheckFeeds(store, feeds + more, faults) == Scan(s2.store, s1.articles + s2.articles)
  {
    assert CandidateLists(feeds + more) == CandidateLists(feeds) + CandidateLists(more);
    ScanListsConcat(store, CandidateLists(feeds), CandidateLists(more), faults);
  }

  /** A feed that failed, has no `url` or has no entries contributes nothing and leaves
      the store alone; the feeds after it are scanned as if it were not there. */
  lemma DeadFeedIsSkipped(store: Store, before: seq<Feed>, dead: Feed, after: seq<Feed>, faults: Faults)
    requires !Live(dead)
    ensures CheckFeeds(store, before + [dead] + after, faults) == CheckFeeds(store, before + after, faults)
  {
    var l1, l2 := CandidateLists(before), CandidateLists(after);
    assert before + [dead] + after == before + ([dead] + after);
    CandidateListsConcat(before, [dead] + after);
    CandidateListsConcat([dead], after);
    assert CandidateLists([dead]) == [[]];
    CandidateListsConcat(before, after);
    ScanListsSkipsEmpty(store, l1, l2, faults);
  }

  /** The candidate lists of two runs of feeds, one after the other. */
  lemma CandidateListsConcat(a: seq<Feed>, b: seq<Feed>)
    ensures CandidateLists(a + b) == CandidateLists(a) + CandidateLists(b)
  {
  }

  lemma ScanListsSkipsEmpty(store: Store, l1: seq<seq<Article>>, l2: seq<seq<Article>>, faults: Faults)
    ensures ScanLists(store, l1 + ([[]] + l2), faults) == ScanLists(store, l1 + l2, faults)
  {
    ScanListsConcat(store, l1, [[]] + l2, faults);
    ScanListsConcat(store, l1, l2, faults);
    var s1 := ScanLists(store, l1, faults);
    assert ([[]] + l2)[1..] == l2;
    assert ScanLists(s1.store, [[]] + l2, faults) == ScanLists(s1.store, l2, faults);
  }

  // ---------------------------------------------------------------------------
  // Across cycles

  /** A second scan of the same feeds, from the store a fault-free scan left behind,
      selects nothing, whatever storage faults it meets: a posted link is never
      selected again. */
  lemma RescanSelectsNothing(store: Store, feeds: seq<Feed>, later: Faults)
    ensures CheckFeeds(CheckFeeds(store, feeds, NoFaults).store, feeds, later).articles == []
  {
    var s1 := CheckFeeds(store, feeds, NoFaults);
    var cands := AllCandidates(feeds);
    assert AcceptableLinks(cands) <= s1.store.Keys by {
      CheckFeedsSound(store, feeds, NoFaults);
      CheckFeedsComplete(store, feeds, NoFaults);
      assert Recorded(s1.articles, NoFaults) == LinksOf(s1.articles);
    }
    CheckFeedsIsSelect(s1.store, feeds, later);
    SelectNothingNew(cands, s1.store.Keys, later);
  }

  /** When every acceptable link is already known, the reference selects nothing. */
  lemma {:induction false} SelectNothingNew(cands: seq<Article>, known: set<string>, faults: Faults)
    requires AcceptableLinks(cands) <= known
    ensures Select(cands, known, faults) == []
  {
    if cands != [] {
      assert AcceptableLinks(cands[1..]) <= AcceptableLinks(cands) by {
        forall l | l in AcceptableLinks(cands[1..]) ensures l in AcceptableLinks(cands) {
          var c :| c in cands[1..] && Acceptable(c.link) && c.link == l;
          assert c in cands;
        }
      }
      SelectNothingNew(cands[1..], known, faults);
    }
  }

  /** Across cycles, whatever the feeds: a link selected and recorded in one cycle is
      never selected in a later one. */
  lemma NoRedelivery(store: Store, feeds: seq<Feed>, faults: Faults, feeds': seq<Feed>, faults': Faults)
    ensures var s1 := CheckFeeds(store, feeds, faults);
            var s2 := CheckFeeds(s1.store, feeds', faults');
            forall a, b :: a in s1.articles && a.link !in faults.insert && b in s2.articles ==> a.link != b.link
  {
    var s1 := CheckFeeds(store, feeds, faults);
    var s2 := CheckFeeds(s1.store, feeds', faults');
    CheckFeedsSound(store, feeds, faults);
    CheckFeedsSound(s1.store, feeds', faults');
    forall a, b | a in s1.articles && a.link !in faults.insert && b in s2.articles
      ensures a.link != b.link
    {
      assert a.link in Recorded(s1.articles, faults);
    }
  }

}
