/**
 * The posted_links table: an append-only log of (link, timestamp) rows,
 * kept in memory. Time is integer seconds.
 */
module DedupStore {

  /** A link posted within this many seconds (35 minutes) is not posted again. */
  const DedupWindow := 35 * 60

  /** One row of the table. */
  datatype PostedRecord = PostedRecord(link: string, timestamp: int)

  /** Some row for `link` has a timestamp strictly after `asOf` minus the window. */
  predicate RecentlyPosted(records: seq<PostedRecord>, link: string, asOf: int)
  {
    exists i :: 0 <= i < |records| && records[i].link == link && records[i].timestamp > asOf - DedupWindow
  }

  /** Looking up a link in a log made of two parts looks it up in each part. */
  lemma RecentlyPostedAppend(front: seq<PostedRecord>, back: seq<PostedRecord>, link: string, asOf: int)
    ensures RecentlyPosted(front + back, link, asOf) <==>
            RecentlyPosted(front, link, asOf) || RecentlyPosted(back, link, asOf)
  {
    var all := front + back;
    if RecentlyPosted(all, link, asOf) {
      var i :| 0 <= i < |all| && all[i].link == link && all[i].timestamp > asOf - DedupWindow;
      if i >= |front| {
        assert back[i - |front|] == all[i];
      }
    }
    if RecentlyPosted(front, link, asOf) {
      var i :| 0 <= i < |front| && front[i].link == link && front[i].timestamp > asOf - DedupWindow;
      assert all[i] == front[i];
    }
    if RecentlyPosted(back, link, asOf) {
      var i :| 0 <= i < |back| && back[i].link == link && back[i].timestamp > asOf - DedupWindow;
      assert all[|front| + i] == back[i];
    }
  }

  /** A row stamped `asOf` makes its link recent as of that same instant. */
  lemma RecordIsRecent(records: seq<PostedRecord>, link: string, asOf: int)
    requires PostedRecord(link, asOf) in records
    ensures RecentlyPosted(records, link, asOf)
  {
    var i :| 0 <= i < |records| && records[i] == PostedRecord(link, asOf);
  }

  /** The open table. Rows are only ever appended. */
  class PostedLinks {
    var records: seq<PostedRecord>

    /** Opens the table with the rows it already holds (none for a fresh database). */
    constructor (existing: seq<PostedRecord>)
      ensures records == existing
    {
      records := existing;
    }

    /** The SELECT on link and timestamp finds a row. */
    predicate WasRecentlyPosted(link: string, asOf: int)
      reads this
    {
      RecentlyPosted(records, link, asOf)
    }

    /** The INSERT of one row. */
    method RecordPosted(link: string, timestamp: int)
      modifies this
      ensures records == old(records) + [PostedRecord(link, timestamp)]
      ensures WasRecentlyPosted(link, timestamp)
    {
      records := records + [PostedRecord(link, timestamp)];
      RecordIsRecent(records, link, timestamp);
    }
  }
}
