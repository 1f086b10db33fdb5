/**
 * What one run of the news job guarantees about the posted_links table:
 * rows are only appended, each appended row is stamped with the run's single
 * clock reading and stands for a send that went through, a link recent at
 * the start of the run is never sent, and a link is delivered at most once
 * per run.
 */
module NewsProperties {
  import opened Compose
  import opened DedupStore
  import opened NewsJob

  /** The rows a run appends for its send attempts: one per delivered attempt, in order. */
  function RecordsFor(ds: seq<Dispatch>, now: int): (r: seq<PostedRecord>)
    ensures |r| <= |ds|
    ensures forall rec :: rec in r ==>
      rec.timestamp == now && exists k :: 0 <= k < |ds| && ds[k].delivered && ds[k].link == rec.link
    ensures forall k :: 0 <= k < |ds| && ds[k].delivered ==> PostedRecord(ds[k].link, now) in r
    decreases |ds|
  {
    if ds == [] then []
    else
      var init, d := ds[..|ds| - 1], ds[|ds| - 1];
      assert forall k :: 0 <= k < |init| ==> init[k] == ds[k];
      RecordsFor(init, now) + (if d.delivered then [PostedRecord(d.link, now)] else [])
  }

  /**
   * The invariant of a run that started on the rows `records0`: the table is
   * those rows followed by one row per delivered attempt, and every attempt
   * was made for a link that was not recent in the table as it stood then.
   */
  ghost predicate RunInvariant(records0: seq<PostedRecord>, now: int, st: CycleState)
  {
    && st.records == records0 + RecordsFor(st.dispatches, now)
    && forall k :: 0 <= k < |st.dispatches| ==>
         !RecentlyPosted(records0 + RecordsFor(st.dispatches[..k], now), st.dispatches[k].link, now)
  }

  /** Unfolding RecordsFor once. */
  lemma RecordsForSnoc(ds: seq<Dispatch>, d: Dispatch, now: int)
    ensures RecordsFor(ds + [d], now) == RecordsFor(ds, now) + (if d.delivered then [PostedRecord(d.link, now)] else [])
  {
    assert (ds + [d])[..|ds|] == ds;
  }

  /** Appending an attempt for a link that is not recent, and its row when delivered, keeps the invariant. */
  lemma AttemptKeepsInvariant(records0: seq<PostedRecord>, now: int, st: CycleState, d: Dispatch, aborted: bool)
    requires RunInvariant(records0, now, st)
    requires !RecentlyPosted(st.records, d.link, now)
    ensures RunInvariant(records0, now, CycleState(
      if d.delivered then st.records + [PostedRecord(d.link, now)] else st.records,
      st.dispatches + [d], aborted))
  {
    var ds := st.dispatches;
    var ds' := ds + [d];
    var added := if d.delivered then [PostedRecord(d.link, now)] else [];
    RecordsForSnoc(ds, d, now);
    assert st.records + added == records0 + RecordsFor(ds', now);
    forall k | 0 <= k < |ds'|
      ensures !RecentlyPosted(records0 + RecordsFor(ds'[..k], now), ds'[k].link, now)
    {
      if k < |ds| {
        assert ds'[..k] == ds[..k] && ds'[k] == ds[k];
      } else {
        assert ds'[..k] == ds && ds'[k] == d;
      }
    }
  }

  lemma StepKeepsInvariant(records0: seq<PostedRecord>, st: CycleState, e: FeedEntry, env: CycleEnv)
    requires RunInvariant(records0, env.now, st)
    ensures RunInvariant(records0, env.now, Step(st, e, env))
  {
    if !st.aborted && e.link.Some? && !RecentlyPosted(st.records, e.link.value, env.now) {
      var post := ComposePost(env.translate, e, e.link.value);
      if post.Ok? {
        var d := Dispatch(e.link.value, post.value, env.transport(|st.dispatches|));
        AttemptKeepsInvariant(records0, env.now, st, d, false);
      }
    }
  }

  lemma {:induction false} RunEntriesKeepsInvariant(records0: seq<PostedRecord>, st: CycleState, entries: seq<FeedEntry>, env: CycleEnv)
    requires RunInvariant(records0, env.now, st)
    ensures RunInvariant(records0, env.now, RunEntries(st, entries, env))
    decreases |entries|
  {
    if entries != [] {
      var init, last := entries[..|entries| - 1], entries[|entries| - 1];
      assert entries == init + [last];
      RunEntriesKeepsInvariant(records0, st, init, env);
      RunEntriesSnoc(st, init, last, env);
      StepKeepsInvariant(records0, RunEntries(st, init, env), last, env);
    }
  }

  lemma {:induction false} RunFeedsKeepsInvariant(records0: seq<PostedRecord>, st: CycleState, feeds: seq<Fetched>, env: CycleEnv)
    requires RunInvariant(records0, env.now, st)
    ensures RunInvariant(records0, env.now, RunFeeds(st, feeds, env))
    decreases |feeds|
  {
    if feeds != [] {
      RunFeedsKeepsInvariant(records0, st, feeds[..|feeds| - 1], env);
      if feeds[|feeds| - 1].Some? {
        RunEntriesKeepsInvariant(records0, RunFeeds(st, feeds[..|feeds| - 1], env), feeds[|feeds| - 1].value, env);
      }
    }
  }

  /** Every run keeps the invariant, whatever the feeds, the translator and the transport do. */
  lemma RunKeepsInvariant(records0: seq<PostedRecord>, feeds: seq<Fetched>, env: CycleEnv)
    ensures RunInvariant(records0, env.now, RunFeeds(Start(records0), feeds, env))
  {
    RunFeedsKeepsInvariant(records0, Start(records0), feeds, env);
  }

  /**
   * The table is append-only: a run keeps the old rows as a prefix, every row it
   * adds carries the run's clock reading and a link whose send went through, and
   * every send that went through added a row.
   */
  lemma RunAppendsOnlyDelivered(records0: seq<PostedRecord>, feeds: seq<Fetched>, env: CycleEnv)
    ensures var fin := RunFeeds(Start(records0), feeds, env);
      && |records0| <= |fin.records| && fin.records[..|records0|] == records0
      && (forall rec :: rec in fin.records[|records0|..] ==>
            rec.timestamp == env.now &&
            exists k :: 0 <= k < |fin.dispatches| && fin.dispatches[k].delivered && fin.dispatches[k].link == rec.link)
      && (forall k :: 0 <= k < |fin.dispatches| && fin.dispatches[k].delivered ==>
            PostedRecord(fin.dispatches[k].link, env.now) in fin.records[|records0|..])
  {
    var fin := RunFeeds(Start(records0), feeds, env);
    RunKeepsInvariant(records0, feeds, env);
    assert fin.records[|records0|..] == RecordsFor(fin.dispatches, env.now);
  }

  /** A link with a row newer than the window when the run starts is not sent during the run. */
  lemma RunSkipsRecent(records0: seq<PostedRecord>, feeds: seq<Fetched>, env: CycleEnv, link: string)
    requires RecentlyPosted(records0, link, env.now)
    ensures forall d :: d in RunFeeds(Start(records0), feeds, env).dispatches ==> d.link != link
  {
    var ds := RunFeeds(Start(records0), feeds, env).dispatches;
    RunKeepsInvariant(records0, feeds, env);
    forall k | 0 <= k < |ds|
      ensures ds[k].link != link
    {
      RecentlyPostedAppend(records0, RecordsFor(ds[..k], env.now), link, env.now);
    }
  }

  /**
   * The reappearance scenario: a link posted at `posted` comes back in a run whose
   * clock reading is less than 35 minutes later, and is not sent.
   */
  lemma NoResendWithinWindow(records0: seq<PostedRecord>, feeds: seq<Fetched>, env: CycleEnv, link: string, posted: int)
    requires PostedRecord(link, posted) in records0
    requires env.now < posted + DedupWindow
    ensures forall d :: d in RunFeeds(Start(records0), feeds, env).dispatches ==> d.link != link
  {
    var i :| 0 <= i < |records0| && records0[i] == PostedRecord(link, posted);
    assert RecentlyPosted(records0, link, env.now);
    RunSkipsRecent(records0, feeds, env, link);
  }

  /**
   * The window is open at its far end: rows stamped `posted` or earlier no longer
   * suppress their link in a run whose clock reads exactly 35 minutes later, the
   * next scheduled run.
   */
  lemma WindowBoundaryResends(records: seq<PostedRecord>, link: string, posted: int)
    requires forall rec :: rec in records && rec.link == link ==> rec.timestamp <= posted
    ensures !RecentlyPosted(records, link, posted + DedupWindow)
  {
    forall i | 0 <= i < |records| && records[i].link == link
      ensures records[i].timestamp <= posted
    {
      assert records[i] in records;
    }
  }

  /** No send attempt follows a delivered send of the same link within one run. */
  ghost predicate DeliveredOnce(ds: seq<Dispatch>)
  {
    forall i, j :: 0 <= i < j < |ds| && ds[i].link == ds[j].link ==> !ds[i].delivered
  }

  /**
   * Within one run, once a link has been sent and recorded, every later occurrence
   * of it is skipped: its row is stamped with the run's clock reading, which is
   * inside the window as of that same reading.
   */
  lemma RunDeliversOnce(records0: seq<PostedRecord>, feeds: seq<Fetched>, env: CycleEnv)
    ensures DeliveredOnce(RunFeeds(Start(records0), feeds, env).dispatches)
  {
    var ds := RunFeeds(Start(records0), feeds, env).dispatches;
    RunKeepsInvariant(records0, feeds, env);
    forall i, j | 0 <= i < j < |ds| && ds[i].link == ds[j].link && ds[i].delivered
      ensures false
    {
      var rows := RecordsFor(ds[..j], env.now);
      assert ds[..j][i] == ds[i];
      assert PostedRecord(ds[i].link, env.now) in records0 + rows;
      RecordIsRecent(records0 + rows, ds[i].link, env.now);
    }
  }

  /** No two rows share a link. */
  ghost predicate DistinctLinks(rows: seq<PostedRecord>)
  {
    forall p, q :: 0 <= p < q < |rows| ==> rows[p].link != rows[q].link
  }

  /** Attempts that deliver each link at most once append rows with distinct links. */
  lemma {:induction false} DeliveredOnceDistinctRows(ds: seq<Dispatch>, now: int)
    requires DeliveredOnce(ds)
    ensures DistinctLinks(RecordsFor(ds, now))
    decreases |ds|
  {
    if ds != [] {
      var init, d := ds[..|ds| - 1], ds[|ds| - 1];
      assert DeliveredOnce(init) by {
        forall i, j | 0 <= i < j < |init| ensures init[i] == ds[i] && init[j] == ds[j] { }
      }
      DeliveredOnceDistinctRows(init, now);
      var front := RecordsFor(init, now);
      var rows := RecordsFor(ds, now);
      if d.delivered {
        assert rows == front + [PostedRecord(d.link, now)];
        forall p | 0 <= p < |front|
          ensures front[p].link != d.link
        {
          assert front[p] in front;
          var k :| 0 <= k < |init| && init[k].delivered && init[k].link == front[p].link;
          assert ds[k] == init[k];
        }
        forall p, q | 0 <= p < q < |rows|
          ensures rows[p].link != rows[q].link
        {
          assert rows[p] == front[p];
          if q < |front| {
            assert rows[q] == front[q];
          }
        }
      } else {
        assert rows == front + [];
        assert rows == front;
      }
    }
  }

  /** A run appends at most one row per link. */
  lemma RunRowsDistinct(records0: seq<PostedRecord>, feeds: seq<Fetched>, env: CycleEnv)
    ensures var fin := RunFeeds(Start(records0), feeds, env);
      |records0| <= |fin.records| && DistinctLinks(fin.records[|records0|..])
  {
    var fin := RunFeeds(Start(records0), feeds, env);
    RunKeepsInvariant(records0, feeds, env);
    RunDeliversOnce(records0, feeds, env);
    DeliveredOnceDistinctRows(fin.dispatches, env.now);
    assert fin.records[|records0|..] == RecordsFor(fin.dispatches, env.now);
  }

  /**
   * A link none of whose sends went through is left as the run found it: it is
   * recent at any instant after the run exactly when it was before, so it is
   * offered again by the next run.
   */
  lemma RunFailedStaysEligible(records0: seq<PostedRecord>, feeds: seq<Fetched>, env: CycleEnv, link: string, asOf: int)
    requires forall d :: d in RunFeeds(Start(records0), feeds, env).dispatches && d.link == link ==> !d.delivered
    ensures RecentlyPosted(RunFeeds(Start(records0), feeds, env).records, link, asOf) <==> RecentlyPosted(records0, link, asOf)
  {
    var fin := RunFeeds(Start(records0), feeds, env);
    var rows := RecordsFor(fin.dispatches, env.now);
    RunKeepsInvariant(records0, feeds, env);
    RecentlyPostedAppend(records0, rows, link, asOf);
    forall i | 0 <= i < |rows|
      ensures rows[i].link != link
    {
      assert rows[i] in rows;
      var k :| 0 <= k < |fin.dispatches| && fin.dispatches[k].delivered && fin.dispatches[k].link == rows[i].link;
      assert fin.dispatches[k] in fin.dispatches;
    }
  }

  /**
   * An entry whose link has no row newer than the window is treated as new: one
   * send attempt is made for it, and a row stamped with the run's clock reading
   * is appended exactly when that attempt goes through.
   */
  lemma ExpiredLinkIsSent(st: CycleState, e: FeedEntry, env: CycleEnv)
    requires !st.aborted && e.link.Some?
    requires forall rec :: rec in st.records && rec.link == e.link.value ==> rec.timestamp <= env.now - DedupWindow
    requires ComposePost(env.translate, e, e.link.value).Ok?
    ensures var next := Step(st, e, env);
      var delivered := env.transport(|st.dispatches|);
      && next.dispatches == st.dispatches + [Dispatch(e.link.value, ComposePost(env.translate, e, e.link.value).value, delivered)]
      && next.records == st.records + (if delivered then [PostedRecord(e.link.value, env.now)] else [])
      && !next.aborted
  {
    forall i | 0 <= i < |st.records| && st.records[i].link == e.link.value
      ensures st.records[i].timestamp <= env.now - DedupWindow
    {
      assert st.records[i] in st.records;
    }
  }

  /** A missing link, title, summary or media url in an entry that is not skipped ends the run. */
  lemma MalformedEntryEndsRun(st: CycleState, e: FeedEntry, env: CycleEnv)
    requires !st.aborted
    requires e.link.None? || (!RecentlyPosted(st.records, e.link.value, env.now) && ComposePost(env.translate, e, e.link.value).Err?)
    ensures var next := Step(st, e, env);
      next.aborted && next.records == st.records && next.dispatches == st.dispatches
    ensures forall rest :: RunEntries(Step(st, e, env), rest, env) == Step(st, e, env)
  {
    forall rest
      ensures RunEntries(Step(st, e, env), rest, env) == Step(st, e, env)
    {
      RunEntriesAborted(Step(st, e, env), rest, env);
    }
  }
}
