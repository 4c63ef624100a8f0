# News bot core in Dafny

A model of the core of a Discord news bot (`main.py`). Once an hour the bot checks that
the time is inside its operating window, from 08:00 to 21:00. Outside the window it
sleeps until the next 08:00. Inside it scans the configured RSS feeds and keeps the
entries whose links it has not posted before. It records each kept link in a SQLite
table (`sent_links`) as soon as the entry is picked. It then posts one message per kept
entry to a channel.

Modules:

- `Wrappers`: `Option`.
- `Text`: the string operations the filter uses.
  - Python's `str.strip()`, over exactly the characters `str.isspace()` accepts.
  - `startswith`.
  - Slicing to a length.
- `DedupStore`: the `sent_links` table as a map from link to stored title, with
  `is_link_sent` and `mark_link_sent`.
  - Storage failures are an input: `Faults` names the links whose lookup raises and
    those whose insert raises during one cycle.
- `FeedScan`: `check_feeds` as a fold over the already fetched feeds.
  - The store is threaded from entry to entry.
  - `Select` is an independent flat reference for what the fold selects.
- `Schedule`: the window test and the next-start/wait computation.
  - Time is a day number plus a time of day in integer microseconds.
  - The gate and the pause read the clock separately, as the code does (`Pause`).
    `SingleReadingPause` is the pause with one shared reading (see "## Findings").
- `Delivery`: the message text, its inverse parser, the send loop, and one run of
  `check_feeds_loop`.

## Model

| member | source | states |
|---|---|---|
| DedupStore.IsLinkSent | main.py:65-72 | A link whose lookup fails is reported as sent; otherwise it is reported sent exactly when it is stored. |
| DedupStore.MarkLinkSent | main.py:74-83 | Adds the link unless its insert fails. Never changes a stored title. A new link maps to its title cut to 200 characters. Keeps all titles within the cap. |
| DedupStore.MarkIdempotent | main.py:77-80 | `INSERT OR IGNORE`: marking a link a second time, with any title, changes nothing. |
| DedupStore.MarkedIsSent | main.py:65-81 | After a successful mark, every later lookup of the link says "already sent". |
| DedupStore.MarkIsLocal | main.py:65-81 | Marking one link leaves the lookup answer for every other link unchanged. |
| Text.IsSpaceExactly | main.py:116-117 | `IsSpace`, the white space `strip()` removes, is exactly the 29 listed code points that Python's `str.isspace()` accepts. |
| Text.Strip | main.py:116-117 | The stripped string starts and ends with a non-space character, or is empty. |
| Text.StripIsInfix | main.py:116-117 | The stripped string is a contiguous piece of the input. |
| Text.StripDropsOnlySpace | main.py:116-117 | What strip removes on either side is white space only. |
| Text.StripEmptyIffAllSpace | main.py:116-119 | Strip yields the empty string exactly when the input is all white space, which is when the link test `if link` rejects it. |
| Text.StripIdempotent | main.py:116-117 | Stripping twice is stripping once. |
| Text.StartsWithPointwise | main.py:119 | `StartsWith(s, p)` holds exactly when `p` is no longer than `s` and matches its first characters one by one. |
| Text.Truncate | main.py:79 | `title[:200]`: a prefix of the title, no longer than the limit. It is the whole title when that fits, and exactly the limit long otherwise. |
| FeedScan.Candidate | main.py:116-123 | The normalised entry has a stripped title and link and carries the feed's emoji. A present title or link is that field stripped. |
| FeedScan.Window | main.py:115 | `entries[:15]`: the first `min(len, 15)` entries, in order. |
| FeedScan.LiveIffCandidates | main.py:110-115 | `Live`: a feed yields candidates exactly when its configuration has a `url`, the fetch succeeded and there are entries. |
| FeedScan.ScanCandidates | main.py:115-125 | The entry loop of one feed selects at most as many articles as there are candidates. |
| FeedScan.ScanLists | main.py:108-128 | The feed loop selects at most as many articles as there are candidates over all feeds. |
| FeedScan.CheckFeeds | main.py:105-130 | At most 15 articles per configured feed. |
| FeedScan.ScanFeed | main.py:113-125 | A feed that failed, has no `url` or has no entries selects nothing and leaves the store unchanged. At most 15 articles per feed. |
| FeedScan.CheckFeedsCons | main.py:108-125 | The feed loop scans the first feed, then the rest from the store it left. |
| FeedScan.CheckFeedsSound | main.py:105-130 | Every returned article has a stripped, non-empty `http` link and a stripped title. None of them was stored or failed its lookup before the call. A link repeats only if its insert failed. The store gains exactly the recorded links, with titles capped, and no stored title changes. |
| FeedScan.FailedLookupIsNeverPosted | main.py:65-72 | With lookup faults fixed per link for the cycle, a link whose lookup fails is never returned, even when it is not stored. |
| FeedScan.CheckFeedsWithoutFaults | main.py:105-130 | With working storage, links are pairwise distinct and the store's keys become the old keys plus the returned links. Old titles are unchanged and the title cap is kept. |
| FeedScan.MissingFieldDefaults | main.py:116-123 | A missing title becomes "Sem título". A missing link becomes "", which is never accepted. A missing emoji becomes 📰. |
| FeedScan.SelectConcat | main.py:115-125 | Selecting from two candidate runs in turn is selecting from the first, then from the second with the first run's recorded links known. |
| FeedScan.ScanCandidatesIsSelect | main.py:115-125 | Within one feed, the entry loop selects exactly what the reference `Select` selects, starting from the stored links. |
| FeedScan.CheckFeedsIsSelect | main.py:105-130 | The whole scan selects exactly what `Select` selects from the candidates of all feeds, in feed order. |
| FeedScan.SelectComplete | main.py:119 | The reference's selected links are exactly the acceptable links that are neither known nor failing their lookup. |
| FeedScan.CheckFeedsComplete | main.py:114-125 | With faults fixed per link for the cycle, every acceptable link among the first 15 entries of each live feed is returned unless it was stored or its lookup failed, and no other link is. |
| FeedScan.SelectPicksFresh | main.py:119-124 | Everything the reference picks is a candidate with an acceptable link that was neither known nor failing its lookup. |
| FeedScan.SelectTakesFirst | main.py:115-125 | Of candidates sharing a link, the reference picks the first; a picked article whose insert succeeds is the first candidate with its link. |
| FeedScan.CheckFeedsTakesFirst | main.py:108-125 | With faults fixed per link for the cycle, when entries share a link `check_feeds` returns the first in feed order and then entry order, with its title and emoji, unless its insert fails. |
| FeedScan.SelectIsSubsequence | main.py:115-124 | The reference keeps candidate order. |
| FeedScan.CheckFeedsKeepsOrder | main.py:108-124 | Returned articles are a subsequence of all candidates: feed order, then entry order. |
| FeedScan.CheckFeedsConcat | main.py:108-128 | Scanning two feed lists one after the other equals scanning their concatenation. |
| FeedScan.DeadFeedIsSkipped | main.py:108-128 | A failed, url-less or empty feed can be removed from the list without changing the result. |
| FeedScan.RescanSelectsNothing | main.py:119-125 | After a fault-free scan, scanning the same feeds again selects nothing, whatever storage faults the second scan meets. |
| FeedScan.NoRedelivery | main.py:119-125 | A link returned and recorded in one cycle is never returned by the next cycle, whatever feeds it sees. |
| Schedule.WindowIsInclusive | main.py:145-151 | 08:00 and 21:00 are both inside the window. One microsecond before 08:00 and one after 21:00 are outside it. |
| Schedule.InWindowHours | main.py:145-151 | `InWindow` on the clock face: hours 8 through 20, plus the single instant 21:00:00.000000. |
| Schedule.NextOpening | main.py:153-164 | The computed start is at 08:00, not before now, and less than a day ahead. |
| Schedule.WaitMicros | main.py:166 | The wait is under one day, and it is zero exactly when now is 08:00. |
| Schedule.NextOpeningIsEarliest | main.py:153-164 | No 08:00 lies between now and the computed start. |
| Schedule.Pause | main.py:145-164 | The gate reading decides whether to pause. The start is computed from the pause's own, second reading: an opening not before that reading and less than a day after it. |
| Schedule.SingleReadingPause | main.py:153-164 | With the gate and the start sharing one reading, it pauses exactly outside the window. The start is inside the window, and no instant before it is. The pause lasts at most the night from just after 21:00 to 08:00. It equals the code's pause with both readings equal. |
| Schedule.PauseSkipsNoWindowTime | main.py:153-164 | With one shared reading, on a uniformly running clock, the pause skips no window time: every instant before the start is outside the window, and the start is inside it. |
| Schedule.ReadingsAgreeBeforeOpening | main.py:147-164 | A second reading taken no later than the opening the gate's reading waits for gives the same start as one reading. |
| Schedule.LateReadingSkipsWindow | main.py:147-164 | A second reading taken after that opening, on its day, puts the start at the next day's 08:00. When that reading is inside the window, the rest of that day's window is slept through. |
| Schedule.SecondReadingSkipsWindow | main.py:147-164 | Gate at 07:59:59.999999, pause at 08:00:00.000001: the pause lasts a day less a microsecond, where one reading would wait a microsecond. |
| Delivery.Format | main.py:195 | The message begins with the emoji and " **", and its length is the parts' lengths plus six. |
| Delivery.ParseFormat | main.py:195 | Parsing a message built from an article whose link has no line break gives back the article. |
| Delivery.FormatParse | main.py:195 | Anything that parses is exactly the message of the parsed article, and that article's link has no line break. |
| Delivery.SendAll | main.py:193-202 | One attempt per article, in order, each posting that article's message. A failed send does not stop the loop. |
| Delivery.RunCycle | main.py:178-205 | Pauses exactly when the gate's reading is outside the window. A pause keeps the store and waits from the pause's own reading to an 08:00 less than a day later; with one reading this is the corrected pause. A run returns the scan's store and articles. It makes one attempt per article when the channel is found and none otherwise. |

## Findings

| source | as written | input that shows it | evidently intended | confidence | as-written member | corrected member |
|---|---|---|---|---|---|---|
| main.py:181-183 | The gate reads the clock (main.py:147). The pause reads it again (main.py:155) and computes its start from the second reading. | The gate reads 07:59:59.999999 on day D and the pause reads 08:00:00.000001: the start moves to D+1 08:00 and the whole window of day D is slept through. | The pause ends at the opening the gate was waiting for, as with one shared reading. | not executed; needs 08:00 to pass between two reads microseconds apart | Schedule.SecondReadingSkipsWindow | Schedule.PauseSkipsNoWindowTime |

## Left out

- Fetching (`fetch_feed`, main.py:85-103): HTTP, the 30-second timeout, status codes and feedparser. Each feed arrives as either a failure or a list of parsed entries.
- SQLite mechanics (connection, schema, `sent_date` default, commit): the table is a map. Errors are per-link `Faults` fixed for one cycle, not per call, so the same link fails the same way everywhere in a cycle.
- Configuration loading (YAML file, environment variables, `load_config`): the feed list is an input.
- Discord: connection, events, `get_channel` (an input `channelFound`), and `channel.send` (an input outcome per send). Also the heartbeat loop, `close`, `main`, logging, and the two-second and hour-long sleeps.
- FeedScan.FailedLookupIsNeverPosted: a `SELECT` that raises for one call but not for a later one is not modelled. The program then posts a later copy of the link, for example from a second feed.
- FeedScan.CheckFeedsComplete: a lookup that fails only for some copies of a link is not modelled. A later copy whose lookup succeeds is returned by the program.
- FeedScan.CheckFeedsTakesFirst: a lookup that fails per call is not modelled. When the first copy's lookup raises and a later copy's succeeds, the program returns the later copy with its own title and emoji.
- Entry fields that are present but not strings: these would raise inside the per-feed `try` and drop the rest of that feed. Every present field is a string here.
- Configuration values that are present but not strings: an `emoji:` key with no value reads as `None`, and the program posts the text `None` in the emoji's place. The model's emoji is absent (defaulting to 📰) or a string. A `url:` with no value would fail inside the fetch, which the model has as a failed feed.
- Schedule.PauseSkipsNoWindowTime: time is naive local wall-clock time (`datetime.now()`), but the model's clock runs uniformly. Daylight-saving changes and clock adjustments are not modelled. On a spring-forward night the naive difference handed to the sleep overshoots, and the bot wakes at 09:00.
- DedupStore.MarkLinkSent: a `commit()` that raises after a successful `INSERT` is modelled by what it does to the transaction.
  - A commit that fails and leaves the transaction open (a busy database) is treated as a success. The row stays visible to the bot's own connection and is written by the next successful commit.
  - A commit that rolls the transaction back (a full disk, an I/O error, no memory) is an insert fault for that link. The row is gone, and a later lookup answers "not sent". `NoRedelivery` and `RescanSelectsNothing` promise nothing for that link.
- Strings are sequences of Unicode scalar values. A Python `str` holding a lone surrogate (U+D800 to U+DFFF) cannot be represented. For such a link the `SELECT` raises an encoding error, and `is_link_sent` reports it as sent.
- Schedule.WaitMicros: `total_seconds()` is a float in seconds. The model keeps exact integer microseconds.
- Delivery.ParseFormat: it needs the link to contain no line break. A link with one makes the message ambiguous to read back.
- main.py has no daily send quota, per-feed cap of three, round-robin balancing across sources, fetch retries or bounded concurrency, recency or keyword filters, or per-channel history, so none is modelled. It caps each feed at 15 entries before filtering and posts every selected article.
