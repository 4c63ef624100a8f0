/** The `sent_links` table: every link ever selected for posting, keyed by the link
    (the table's primary key) and carrying a title snippet. The SQLite engine itself is
    replaced by a map; what remains is the semantics the bot relies on — a lookup that
    fails safe and an insert that never overwrites. */
module DedupStore {
  import opened Text

  /** Link (primary key) to the stored title. */
  type Store = map<string, string>

  /** Titles are cut to this many characters before they are stored. */
  const TitleLimit: nat := 200

  /** Storage failures during one cycle, per link: `lookup` holds the links whose
      `SELECT` raises, `insert` the links whose `INSERT` statement raises, so that no row
      is added. */
  datatype Faults = Faults(lookup: set<string>, insert: set<string>)

  const NoFaults := Faults({}, {})

  /** Every stored title respects the length cap. */
  predicate TitlesCapped(store: Store) {
    forall k :: k in store ==> |store[k]| <= TitleLimit
  }

  /** `is_link_sent`: answers "already sent" for a stored link, and also whenever the
      lookup itself fails, so that a storage error can only suppress a post, never
      duplicate one. */
  function IsLinkSent(store: Store, link: string, faults: Faults): (sent: bool)
    ensures link in faults.lookup ==> sent
    ensures link !in faults.lookup ==> (sent <==> link in store)
  {
    link in faults.lookup || link in store
  }

  /** `mark_link_sent`: `INSERT OR IGNORE` of the link with its title cut to
      `TitleLimit` characters. An `INSERT` that raises is swallowed and adds no row. */
  function MarkLinkSent(store: Store, link: string, title: string, faults: Faults): (store': Store)
    ensures store'.Keys == if link in faults.insert then store.Keys else store.Keys + {link}
    ensures forall k :: k in store ==> store'[k] == store[k]
    ensures link in store' && link !in store ==> store'[link] == Truncate(title, TitleLimit)
    ensures TitlesCapped(store) ==> TitlesCapped(store')
  {
    if link in faults.insert || link in store then store
    else store[link := Truncate(title, TitleLimit)]
  }

  /** Marking a link twice is the same as marking it once, whatever the second title. */
  lemma MarkIdempotent(store: Store, link: string, title: string, title': string, faults: Faults)
    ensures var once := MarkLinkSent(store, link, title, faults);
            MarkLinkSent(once, link, title', faults) == once
  {
  }

  /** Once a mark has gone through, every later lookup of that link says "already sent",
      whether or not the lookup fails. */
  lemma MarkedIsSent(store: Store, link: string, title: string, faults: Faults, later: Faults)
    requires link !in faults.insert
    ensures IsLinkSent(MarkLinkSent(store, link, title, faults), link, later)
  {
  }

  /** Marking a link leaves the answer for every other link unchanged. */
  lemma MarkIsLocal(store: Store, link: string, title: string, faults: Faults, other: string, later: Faults)
    requires other != link
    ensures IsLinkSent(MarkLinkSent(store, link, title, faults), other, later)
            == IsLinkSent(store, other, later)
  {
  }
}
