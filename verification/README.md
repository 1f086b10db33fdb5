# game-news-bot, modelled in Dafny

The bot polls a fixed list of game-news feeds every 35 minutes, translates
each new entry's title and summary from English to Russian, and posts it to
one Telegram channel as a photo with an HTML caption (or as a text message
when the entry has no image). A `posted_links` table of `(link, timestamp)`
rows suppresses a link whose row is less than 35 minutes older than the start
of the current run; a row is stamped with the start of the run that posted it.
A second job posts an advertisement at most once every three days,
gated by a single `last_ad_time`.

This project models the bookkeeping around the external calls:

- `wrappers.dfy` — `Option` and `Result`.
- `translation.dfy` — `translate_text`: the translator is an uninterpreted
  function of (text, `"en"`, `"ru"`) that may fail; failure hands the text back.
- `compose.dfy` — one entry to one post: image choice from `media_content`,
  then `media_thumbnail`; the caption from the translated title and summary;
  photo versus text message. A title or summary attribute that is absent, or a
  consulted media item without `url`, raises; these are the `EntryError` values.
- `dedup_store.dfy` — the `posted_links` table as the class `PostedLinks`
  holding a `seq<PostedRecord>`, the windowed lookup `RecentlyPosted`
  (`timestamp > asOf - 2100` seconds) and the append-only insert.
- `news_job.dfy` — `fetch_and_send_news`. `Step`, `RunEntries`, `RunFeed` and
  `RunFeeds` specify one run as a fold over the entries of every feed; each feed
  is the parser's entries, or `None` when `feedparser.parse` raised; the method
  `FetchAndSendNews` runs the same nested loops over a `PostedLinks` table and
  is proved equal to the fold. The clock is read once (`CycleEnv.now`), and the
  transport is a function from the attempt number to "returned without raising".
- `news_properties.dfy` — what every run guarantees, proved from an invariant
  (`RunInvariant`) that every step keeps.
- `promo.dfy` — `send_advertisement` as the class `PromoLimiter`, with a ghost
  history of send times, and the pure tick function `NextLastAdTime`; the
  three-day spacing of successful sends is proved over any sequence of ticks
  in which the clock does not step backwards between the due check (line 59)
  and the reading after the send (line 90).

Behaviour of the code that the model keeps:

- Only the send and the INSERT sit inside the `try` of lines 120-131. An absent
  `link`, `title` or `summary` attribute, or a first media item without `url`,
  raises outside it and ends the whole run: no later entry of any feed is
  processed, and rows already appended stay. An entry skipped as recent never
  has its title or summary read, so it cannot end the run.
- `feedparser.parse` (line 100) is outside any `try` as well. A fetch error that
  the parser does not catch itself (a dropped connection, a timeout while
  reading the body) ends the whole run in the same way; later feeds are not
  processed.
- `last_ad_time` is set from a second clock reading taken after `send_photo`
  returns (line 90), not from the reading used for the due check (line 59).
  `Tick.after` is that second reading.
- The transport raises on failure, and the `except` turns that into "not
  delivered". The model's transport answers true or false.
- Rows are stamped with the run's start time (line 97) and the lookup is strict
  (`timestamp > current_time - 35 minutes`, line 105). A row from a run exactly
  35 minutes earlier therefore no longer suppresses its link.
- The advertisement job is scheduled every three days (line 136), and each
  tick reads its own clock (line 59) whenever the scheduler starts it; but
  `last_ad_time` is the clock read after the send (line 90). When the send
  takes longer than any extra delay in starting the next tick, the next
  scheduled tick finds the ad not yet due; with small scheduling delays, ads go
  out about every six days rather than every three.
- `if image:` treats an empty url string as no image, so such an entry is sent as
  a text message. `media_content` is consulted first whenever it is present and
  non-empty, even if its url is empty.

## Model

| member | source | states |
|---|---|---|
| Translation.TranslateText | game_news_bot.py:50-54 | when the translator answers for (text, "en", "ru") the result is that answer; when it fails the result is the input text unchanged |
| Translation.OutageKeepsText | game_news_bot.py:50-54 | with a translator that always fails, translation is the identity, and applying it twice still gives the original text |
| Compose.SelectImage | game_news_bot.py:112-116 | the first media_content url is preferred, then the first media_thumbnail url, and no image only when both lists are absent or empty; a consulted item without a url raises |
| Compose.Caption | game_news_bot.py:118 | the caption opens with the bold title and embeds the summary, the article link and the support link |
| Compose.Route | game_news_bot.py:121-124 | a present, non-empty image url is sent as a photo with the caption; otherwise the caption is sent as a text message |
| Compose.ComposePost | game_news_bot.py:109-122 | a post is produced exactly when the title, the summary and the chosen media url are present, and otherwise raises for the first one missing; its caption embeds the translated title, the translated summary, the link and the support link; it is a photo exactly when the chosen image is a non-empty url, and then the photo is that image |
| DedupStore.RecentlyPosted | game_news_bot.py:105-106 | the lookup finds a row for the link whose timestamp is strictly later than the lookup time minus 35 minutes |
| DedupStore.PostedLinks.WasRecentlyPosted | game_news_bot.py:105-106 | the SELECT on the open table is that lookup over its current rows |
| DedupStore.RecordIsRecent | game_news_bot.py:105-106 | a row stamped with the lookup time makes its link recent as of that time |
| DedupStore.RecentlyPostedAppend | game_news_bot.py:105-106 | a windowed lookup in a log made of two parts finds the link exactly when one of the parts does |
| DedupStore.PostedLinks.constructor | game_news_bot.py:28-30 | opening the table keeps the rows it already holds |
| DedupStore.PostedLinks.RecordPosted | game_news_bot.py:127-128 | the INSERT appends exactly one row and leaves the link recent as of the row's timestamp |
| NewsJob.Step | game_news_bot.py:102-131 | one entry: a run that has ended is left unchanged; otherwise the rows and the send attempts only grow at the end, by at most one attempt and at most one row per attempt |
| NewsJob.RunEntries | game_news_bot.py:101-131 | the entries of one feed are processed first to last, each by Step |
| NewsJob.RunFeed | game_news_bot.py:100-101 | a fetch that raised ends the run without touching the table or the attempts; otherwise the feed's entries are processed |
| NewsJob.RunFeeds | game_news_bot.py:99-101 | the feeds are processed first to last, each by RunFeed |
| NewsJob.FetchAndSendNews | game_news_bot.py:96-131 | the table's new rows, the send attempts and whether the run ended early (a fetch or an entry that raised) are exactly those of the fold RunFeeds over every feed, starting from the table's old rows |
| NewsJob.FetchFailureEndsRun | game_news_bot.py:99-100 | a feed fetch that raises ends the whole run: the final state is the state before that feed, marked as ended, and no later feed is processed |
| NewsJob.AbortEndsRun | game_news_bot.py:101-116 | an exception while processing one entry ends the whole run: the final state is the state right after that entry |
| NewsProperties.RecordsFor | game_news_bot.py:120-128 | the rows for a list of send attempts all carry the run's time; there is one for each delivered attempt, and each one belongs to a delivered attempt with its link |
| NewsProperties.RunKeepsInvariant | game_news_bot.py:96-131 | after any run, the table is the old rows plus one row per delivered attempt, and each attempt was made for a link that was not recent in the table as it stood at that moment |
| NewsProperties.RunAppendsOnlyDelivered | game_news_bot.py:120-128 | the old rows remain a prefix; every appended row carries the run's single clock reading and the link of a delivered send; every delivered send appended its row |
| NewsProperties.RunSkipsRecent | game_news_bot.py:104-107 | a link with a row newer than 35 minutes at the run's start is never sent during the run |
| NewsProperties.NoResendWithinWindow | game_news_bot.py:104-107 | a link posted at time T and seen again in a run that starts less than 35 minutes after T is not sent |
| NewsProperties.WindowBoundaryResends | game_news_bot.py:105-107 | rows stamped at time T or earlier no longer make their link recent at T + 35 minutes, so a run exactly one interval later offers the link again |
| NewsProperties.RunDeliversOnce | game_news_bot.py:104-128 | within one run, once a link has been delivered no later send attempt is made for it |
| NewsProperties.DeliveredOnceDistinctRows | game_news_bot.py:127 | attempts that deliver each link at most once append rows with pairwise distinct links |
| NewsProperties.RunRowsDistinct | game_news_bot.py:104-128 | one run appends at most one row per link |
| NewsProperties.RunFailedStaysEligible | game_news_bot.py:120-131 | a link whose sends all failed leaves the table's answer about it unchanged at every instant, so the next run offers it again |
| NewsProperties.ExpiredLinkIsSent | game_news_bot.py:104-128 | an entry that composes (title, summary and chosen media url present), met before the run has ended, whose link has no row inside the window is sent once, and a row stamped with the run's time is appended exactly when that send goes through |
| NewsProperties.MalformedEntryEndsRun | game_news_bot.py:101-116 | an entry without a link, or a non-skipped entry without title, summary or media url, ends the run without touching the table or sending anything, and later entries change nothing |
| Promo.IsDue | game_news_bot.py:59-62 | the ad is due unless less than three days have passed since last_ad_time |
| Promo.Sends | game_news_bot.py:79-90 | a tick sends the ad when it is due and the photo send returns |
| Promo.NextLastAdTime | game_news_bot.py:57-93 | last_ad_time moves only on a tick that was due and whose send went through, and then to the clock read after the send |
| Promo.TickKeepsSpacing | game_news_bot.py:59-90 | a tick with a clock that does not run backwards during the send keeps the successful send times pairwise at least three days apart, the last of them equal to last_ad_time |
| Promo.PromoSpacing | game_news_bot.py:57-93 | over any sequence of ticks whose clock does not run backwards during a send, any two successful ad sends are at least 259200 seconds apart |
| Promo.FirstTickDue | game_news_bot.py:34 | while last_ad_time still holds its startup value, the ad is due at every instant from startup on, because that value is four days back |
| Promo.NotDueChangesNothing | game_news_bot.py:59-62 | a tick less than three days after last_ad_time sends nothing and leaves last_ad_time unchanged |
| Promo.NextScheduledTickSkipped | game_news_bot.py:59-90 | after a successful send that took any time, the tick exactly three days after the due check finds the ad not due |
| Promo.DelayedTickDue | game_news_bot.py:59-90 | after a successful send, the tick fired three days after the due check and started `delay` seconds late finds the ad due exactly when the delay is at least the send's duration |
| Promo.FailedSendStaysDue | game_news_bot.py:79-93 | a failed send leaves last_ad_time unchanged, so the ad is still due at every later tick |
| Promo.PromoLimiter.constructor | game_news_bot.py:34 | last_ad_time starts four days before the start time, with no sends yet |
| Promo.PromoLimiter.SendAdvertisement | game_news_bot.py:57-93 | the send is attempted exactly when the ad is due; last_ad_time and the send history change only on a delivered send, and then to the clock read after the send; the spacing invariant is kept whenever the clock does not run backwards during the send |

## Left out

- The model assumes the synchronous Telegram `Bot` API, whose `send_photo` and `send_message` raise on failure. With an asynchronous API, where these calls are coroutines that the code never awaits, nothing would be sent and lines 90 and 127 would run on every attempt; that is the model's transport answering true every time, with no message actually delivered.
- The Telegram calls `send_photo` and `send_message` are not modelled. Each send is an outcome given as input, and the advertisement's caption, image url and inline keyboard are not represented.
- The translation service is an uninterpreted function, not googletrans. Being a function, it gives the same answer, success or failure, for equal texts; the real service can fail once and then succeed on the same text. No proved property depends on this.
- `feedparser.parse` and the hard-coded feed list are left out. Each feed is an input: its entries, or `None` when the fetch raised. A fetch error that the parser catches itself shows up as a feed with no entries.
- SQLite is replaced by an in-memory sequence. The SELECT, INSERT and commit never fail in the model. So a send that went through but whose INSERT raised, leaving the post unrecorded, is not represented.
- Timestamps are integer seconds. The model does not represent how SQLite stores and compares datetimes as text, nor the sub-second `total_seconds()` value of the ad check.
- The scheduler is left out: the 35-minute and three-day intervals, the busy-wait main loop and shutdown. So is concurrency between the two jobs' threads. These concern timing, not the bookkeeping.
- Logging and the `.env` loading of the token and channel are left out as plumbing.
- The model represents only the entry attributes the code reads: `link`, `title`, `summary`, `media_content` and `media_thumbnail`.
- Promo.PromoSpacing: proves the three-day spacing only for tick sequences in which the clock read after each send (line 90) is not earlier than the one read for its due check (line 59). If the wall clock is stepped back during a send, the code can record a `last_ad_time` less than three days after the previous one; `Promo.PromoLimiter.SendAdvertisement` accepts such a tick but then no longer promises the spacing.
