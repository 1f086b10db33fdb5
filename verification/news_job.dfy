/**
 * One run of the news job: every entry of every feed, in order, is checked
 * against the posted_links table, composed, sent, and recorded only when the
 * send went through. The run is specified by a fold (Step, RunEntries,
 * RunFeeds) and carried out by FetchAndSendNews over a PostedLinks table.
 */
module NewsJob {
  import opened Wrappers
  import opened Translation
  import opened Compose
  import opened DedupStore

  /** The transport's answer to the k-th send attempt of the run: true when it returned without raising. */
  type Transport = nat -> bool

  /** What a run is given: the clock read once at its start, the translator and the transport. */
  datatype CycleEnv = CycleEnv(now: int, translate: Translator, transport: Transport)

  /** One send attempt: the entry's link, the message handed over, and whether it went through. */
  datatype Dispatch = Dispatch(link: string, message: Message, delivered: bool)

  /**
   * The state of a run: the table's rows, the send attempts so far, and whether
   * an exception escaped the send's try block and ended the run.
   */
  datatype CycleState = CycleState(records: seq<PostedRecord>, dispatches: seq<Dispatch>, aborted: bool)

  function Start(records: seq<PostedRecord>): CycleState
  {
    CycleState(records, [], false)
  }

  /** Processing one entry. */
  function Step(st: CycleState, e: FeedEntry, env: CycleEnv): (r: CycleState)
    ensures st.aborted ==> r == st
    ensures st.records <= r.records && st.dispatches <= r.dispatches
    ensures |r.dispatches| <= |st.dispatches| + 1
    ensures |r.records| - |st.records| <= |r.dispatches| - |st.dispatches|
  {
    if st.aborted then st
    else match e.link
      case None => st.(aborted := true)
      case Some(link) =>
        if RecentlyPosted(st.records, link, env.now) then st
        else match ComposePost(env.translate, e, link)
          case Err(_) => st.(aborted := true)
          case Ok(msg) =>
            var ok := env.transport(|st.dispatches|);
            CycleState(if ok then st.records + [PostedRecord(link, env.now)] else st.records,
                       st.dispatches + [Dispatch(link, msg, ok)],
                       false)
  }

  /** Processing the entries of one feed, first to last. */
  function RunEntries(st: CycleState, entries: seq<FeedEntry>, env: CycleEnv): (r: CycleState)
    decreases |entries|
  {
    if entries == [] then st
    else Step(RunEntries(st, entries[..|entries| - 1], env), entries[|entries| - 1], env)
  }

  /**
   * What parsing one feed url gave: its entries, or None when the fetch raised
   * (an error the parser does not catch, such as a dropped connection).
   */
  type Fetched = Option<seq<FeedEntry>>

  /** Processing one feed: a fetch that raised ends the run, otherwise its entries are processed. */
  function RunFeed(st: CycleState, feed: Fetched, env: CycleEnv): (r: CycleState)
    ensures feed.None? ==> r.aborted && r.records == st.records && r.dispatches == st.dispatches
  {
    match feed
    case None => st.(aborted := true)
    case Some(entries) => RunEntries(st, entries, env)
  }

  /** Processing every feed, first to last. */
  function RunFeeds(st: CycleState, feeds: seq<Fetched>, env: CycleEnv): (r: CycleState)
    decreases |feeds|
  {
    if feeds == [] then st
    else RunFeed(RunFeeds(st, feeds[..|feeds| - 1], env), feeds[|feeds| - 1], env)
  }

  /** Once the run has ended, further entries change nothing. */
  lemma {:induction false} RunEntriesAborted(st: CycleState, entries: seq<FeedEntry>, env: CycleEnv)
    requires st.aborted
    ensures RunEntries(st, entries, env) == st
    decreases |entries|
  {
    if entries != [] {
      RunEntriesAborted(st, entries[..|entries| - 1], env);
    }
  }

  /** Once the run has ended, further feeds change nothing. */
  lemma {:induction false} RunFeedsAborted(st: CycleState, feeds: seq<Fetched>, env: CycleEnv)
    requires st.aborted
    ensures RunFeeds(st, feeds, env) == st
    decreases |feeds|
  {
    if feeds != [] {
      RunFeedsAborted(st, feeds[..|feeds| - 1], env);
      if feeds[|feeds| - 1].Some? {
        RunEntriesAborted(st, feeds[|feeds| - 1].value, env);
      }
    }
  }

  /** Entries can be processed in two consecutive batches. */
  lemma {:induction false} RunEntriesSplit(st: CycleState, front: seq<FeedEntry>, back: seq<FeedEntry>, env: CycleEnv)
    ensures RunEntries(st, front + back, env) == RunEntries(RunEntries(st, front, env), back, env)
    decreases |back|
  {
    if back == [] {
      assert front + back == front;
    } else {
      var all, init, last := front + back, back[..|back| - 1], back[|back| - 1];
      assert all == (front + init) + [last];
      RunEntriesSplit(st, front, init, env);
      RunEntriesSnoc(st, front + init, last, env);
      RunEntriesSnoc(RunEntries(st, front, env), init, last, env);
    }
  }

  /** Unfolding RunEntries once. */
  lemma RunEntriesSnoc(st: CycleState, entries: seq<FeedEntry>, e: FeedEntry, env: CycleEnv)
    ensures RunEntries(st, entries + [e], env) == Step(RunEntries(st, entries, env), e, env)
  {
    assert (entries + [e])[..|entries|] == entries;
  }

  /** A sequence is its first n items followed by the rest. */
  lemma SplitAt<T>(s: seq<T>, n: nat)
    requires n <= |s|
    ensures s[..n] + s[n..] == s
  {
  }

  /** Processing the first j + 1 entries is processing the first j, then entry j. */
  lemma RunEntriesNext(st: CycleState, entries: seq<FeedEntry>, j: nat, env: CycleEnv)
    requires j < |entries|
    ensures RunEntries(st, entries[..j + 1], env) == Step(RunEntries(st, entries[..j], env), entries[j], env)
  {
    assert entries[..j + 1] == entries[..j] + [entries[j]];
    RunEntriesSnoc(st, entries[..j], entries[j], env);
  }

  /** Feeds can be processed in two consecutive batches. */
  lemma {:induction false} RunFeedsSplit(st: CycleState, front: seq<Fetched>, back: seq<Fetched>, env: CycleEnv)
    ensures RunFeeds(st, front + back, env) == RunFeeds(RunFeeds(st, front, env), back, env)
    decreases |back|
  {
    if back == [] {
      assert front + back == front;
    } else {
      var init, last := back[..|back| - 1], back[|back| - 1];
      assert front + back == (front + init) + [last];
      RunFeedsSplit(st, front, init, env);
      RunFeedsSnoc(st, front + init, last, env);
      RunFeedsSnoc(RunFeeds(st, front, env), init, last, env);
    }
  }

  /** Unfolding RunFeeds once. */
  lemma RunFeedsSnoc(st: CycleState, feeds: seq<Fetched>, feed: Fetched, env: CycleEnv)
    ensures RunFeeds(st, feeds + [feed], env) == RunFeed(RunFeeds(st, feeds, env), feed, env)
  {
    assert (feeds + [feed])[..|feeds|] == feeds;
  }

  /** Once the run has ended, appending more feeds changes nothing. */
  lemma EndedRunIgnoresRest(st: CycleState, front: seq<Fetched>, back: seq<Fetched>, env: CycleEnv)
    ensures RunFeeds(st, front, env).aborted ==> RunFeeds(st, front + back, env) == RunFeeds(st, front, env)
  {
    if RunFeeds(st, front, env).aborted {
      RunFeedsSplit(st, front, back, env);
      RunFeedsAborted(RunFeeds(st, front, env), back, env);
    }
  }

  /** Processing the first i + 1 feeds is processing the first i, then feed i. */
  lemma RunFeedsNext(st: CycleState, feeds: seq<Fetched>, i: nat, env: CycleEnv)
    requires i < |feeds|
    ensures RunFeeds(st, feeds[..i + 1], env) == RunFeed(RunFeeds(st, feeds[..i], env), feeds[i], env)
  {
    assert feeds[..i + 1] == feeds[..i] + [feeds[i]];
    RunFeedsSnoc(st, feeds[..i], feeds[i], env);
  }

  /** A run that feed i has ended is not changed by the feeds after it. */
  lemma FeedEndsRun(start: CycleState, feeds: seq<Fetched>, i: nat, env: CycleEnv)
    requires i < |feeds|
    ensures RunFeed(RunFeeds(start, feeds[..i], env), feeds[i], env).aborted ==>
      RunFeeds(start, feeds, env) == RunFeed(RunFeeds(start, feeds[..i], env), feeds[i], env)
  {
    RunFeedsNext(start, feeds, i, env);
    SplitAt(feeds, i + 1);
    EndedRunIgnoresRest(start, feeds[..i + 1], feeds[i + 1..], env);
  }

  /** A fetch that raises ends the whole run: no later feed is fetched or processed. */
  lemma FetchFailureEndsRun(start: CycleState, feeds: seq<Fetched>, i: nat, env: CycleEnv)
    requires i < |feeds| && feeds[i].None?
    ensures RunFeeds(start, feeds, env) == RunFeeds(start, feeds[..i], env).(aborted := true)
  {
    FeedEndsRun(start, feeds, i, env);
  }

  /** A feed whose entry j ended the run is not processed past that entry. */
  lemma EntryEndsFeed(st: CycleState, entries: seq<FeedEntry>, j: nat, env: CycleEnv)
    requires j < |entries|
    ensures RunEntries(st, entries[..j + 1], env).aborted ==>
      RunEntries(st, entries, env) == RunEntries(st, entries[..j + 1], env)
  {
    if RunEntries(st, entries[..j + 1], env).aborted {
      SplitAt(entries, j + 1);
      RunEntriesSplit(st, entries[..j + 1], entries[j + 1..], env);
      RunEntriesAborted(RunEntries(st, entries[..j + 1], env), entries[j + 1..], env);
    }
  }

  /**
   * An exception raised while processing entry j of feed i ends the whole run:
   * its state is the state right after that entry.
   */
  lemma AbortEndsRun(start: CycleState, feeds: seq<Fetched>, i: nat, j: nat, env: CycleEnv)
    requires i < |feeds| && feeds[i].Some? && j < |feeds[i].value|
    ensures RunEntries(RunFeeds(start, feeds[..i], env), feeds[i].value[..j + 1], env).aborted ==>
      RunFeeds(start, feeds, env) == RunEntries(RunFeeds(start, feeds[..i], env), feeds[i].value[..j + 1], env)
  {
    EntryEndsFeed(RunFeeds(start, feeds[..i], env), feeds[i].value, j, env);
    FeedEndsRun(start, feeds, i, env);
  }

  /**
   * fetch_and_send_news. `env.now` is the clock read once at the start; each
   * feed is what parsing its url gave, in the order of the feed list. Returns
   * the send attempts made and whether an exception ended the run early; the
   * table keeps every row appended before that.
   */
  method FetchAndSendNews(store: PostedLinks, feeds: seq<Fetched>, env: CycleEnv)
    returns (dispatches: seq<Dispatch>, aborted: bool)
    modifies store
    ensures CycleState(store.records, dispatches, aborted) == RunFeeds(Start(old(store.records)), feeds, env)
  {
    ghost var start := Start(store.records);
    var currentTime := env.now;
    dispatches, aborted := [], false;
    for i := 0 to |feeds|
      invariant CycleState(store.records, dispatches, false) == RunFeeds(start, feeds[..i], env)
    {
      RunFeedsNext(start, feeds, i, env);
      if feeds[i].None? {
        aborted := true;
        FeedEndsRun(start, feeds, i, env);
        return;
      }
      var entries := feeds[i].value;
      ghost var before := RunFeeds(start, feeds[..i], env);
      for j := 0 to |entries|
        invariant CycleState(store.records, dispatches, false) == RunEntries(before, entries[..j], env)
      {
        var entry := entries[j];
        RunEntriesNext(before, entries, j, env);
        if entry.link.None? {
          aborted := true;
          EntryEndsFeed(before, entries, j, env);
          FeedEndsRun(start, feeds, i, env);
          return;
        }
        var link := entry.link.value;
        if store.WasRecentlyPosted(link, currentTime) {
          continue;
        }
        var post := ComposePost(env.translate, entry, link);
        if post.Err? {
          aborted := true;
          EntryEndsFeed(before, entries, j, env);
          FeedEndsRun(start, feeds, i, env);
          return;
        }
        var delivered := env.transport(|dispatches|);
        dispatches := dispatches + [Dispatch(link, post.value, delivered)];
        if delivered {
          store.RecordPosted(link, currentTime);
        }
      }
      assert entries[..|entries|] == entries;
    }
    assert feeds[..|feeds|] == feeds;
  }
}
