/** Keyset pagination of one feed: the rows below the cursor, with posts joined as they stand when the page is read. */
module Feed {
  import opened Common

  const DEFAULT_LIMIT := 30
  const MAX_LIMIT := 50

  datatype ScopeType = OrgFeed | ChapterFeed
  datatype Scope = Scope(scopeType: ScopeType, scopeId: Option<Id>)
  datatype PostStatus = Published | Hidden | Deleted
  datatype Post = Post(status: PostStatus, body: string, author: Id)
  datatype Row = Row(isPost: bool, scope: Scope, sourceId: Id, hidden: bool, summary: string)
  datatype Community = Community(rows: map<Id, Row>, posts: map<Id, Post>)

  /** A rendered row; only a post's row carries the post. */
  datatype Entry = Entry(id: Id, row: Row, post: Option<Post>)
  datatype Page = Page(entries: seq<Entry>, nextCursor: Option<Id>)

  // ---------- one page ----------

  function PageSize(limit: Option<int>): (n: nat)
    ensures 1 <= n <= 50
    ensures limit.None? ==> n == 30
    ensures limit.Some? && 1 <= limit.value <= 50 ==> n == limit.value
    ensures limit.Some? && !(1 <= limit.value <= 50) ==> n == if limit.value < 1 then 1 else 50
  {
    var wanted := if limit.Some? then limit.value else DEFAULT_LIMIT;
    var atLeastOne := if wanted > 1 then wanted else 1;
    if atLeastOne < MAX_LIMIT then atLeastOne else MAX_LIMIT
  }

  predicate Below(id: Id, cursor: Option<Id>) {
    cursor.None? || id < cursor.value
  }

  function Selected(db: Community, scope: Scope, cursor: Option<Id>): set<Id> {
    set id | id in db.rows && db.rows[id].scope == scope && !db.rows[id].hidden && Below(id, cursor)
  }

  function Backwards(a: seq<Id>): (r: seq<Id>)
    ensures |r| == |a|
    ensures forall i :: 0 <= i < |a| ==> r[i] == a[|a| - 1 - i]
  {
    seq(|a|, i requires 0 <= i < |a| => a[|a| - 1 - i])
  }

  lemma BackwardsHas(a: seq<Id>, x: Id)
    ensures x in Backwards(a) <==> x in a
  {
    hide Backwards;
    if x in a {
      var i :| 0 <= i < |a| && a[i] == x;
      assert Backwards(a)[|a| - 1 - i] == x;
    }
  }

  /** `ORDER BY id DESC`. */
  function Descending(s: set<Id>): (r: seq<Id>)
    ensures |r| == |s|
    ensures forall x :: x in r <==> x in s
    ensures Decreasing(r)
  {
    hide Ascending, Backwards;
    var a := Ascending(s);
    assert forall x :: x in Backwards(a) <==> x in a by {
      forall x ensures x in Backwards(a) <==> x in a {
        BackwardsHas(a, x);
      }
    }
    Backwards(a)
  }

  predicate Decreasing(s: seq<Id>) {
    forall i, j :: 0 <= i < j < |s| ==> s[i] > s[j]
  }

  /** A post's row shows only while the post is published. */
  predicate Visible(db: Community, id: Id) {
    && id in db.rows
    && (!db.rows[id].isPost || (db.rows[id].sourceId in db.posts && db.posts[db.rows[id].sourceId].status == Published))
  }

  function Rendered(db: Community, id: Id): Entry
    requires id in db.rows
  {
    var row := db.rows[id];
    Entry(id, row, if row.isPost && row.sourceId in db.posts then Some(db.posts[row.sourceId]) else None)
  }

  /** The visible rows among these, rendered in order. */
  function Entries(db: Community, ids: seq<Id>): seq<Entry> {
    if ids == [] then []
    else (if Visible(db, ids[0]) then [Rendered(db, ids[0])] else []) + Entries(db, ids[1..])
  }

  function QueryFeedPage(db: Community, scope: Scope, cursor: Option<Id>, limit: Option<int>): (page: Page)
    ensures page.nextCursor.Some? ==> Below(page.nextCursor.value, cursor)
  {
    var n := PageSize(limit);
    var all := Descending(Selected(db, scope, cursor));
    var rows := if |all| > n + 1 then all[..n + 1] else all;
    var page := if |rows| > n then rows[..n] else rows;
    assert |rows| > n ==> page[|page| - 1] in all;
    Page(Entries(db, page), if |rows| > n then Some(page[|page| - 1]) else None)
  }

  // ---------- order ----------

  lemma {:induction false} SameOrder(a: seq<Id>, b: seq<Id>)
    requires Decreasing(a) && Decreasing(b) && forall x :: x in a <==> x in b
    ensures a == b
    decreases |a|
  {
    if a == [] {
      if b != [] {
        FirstIsMember(b);
      }
    } else {
      assert a[0] in b && b != [] && b[0] in a;
      assert a[0] == b[0];
      forall x ensures x in a[1..] <==> x in b[1..] {
        assert x in a <==> x in b;
        assert x in a[1..] <==> x in a && x != a[0];
        assert x in b[1..] <==> x in b && x != b[0];
      }
      SameOrder(a[1..], b[1..]);
    }
  }

  lemma TailHas(all: seq<Id>, k: nat, x: Id)
    requires Decreasing(all) && 0 < k <= |all|
    ensures x in all[k..] <==> x in all && x < all[k - 1]
  {
  }

  /** What is selected below the k-th id of the order is the rest of the order. */
  lemma OrderGoesOn(db: Community, scope: Scope, cursor: Option<Id>, k: nat)
    requires 0 < k <= |Selected(db, scope, cursor)|
    ensures var all := Descending(Selected(db, scope, cursor));
      Descending(Selected(db, scope, Some(all[k - 1]))) == all[k..]
  {
    hide Descending;
    var all := Descending(Selected(db, scope, cursor));
    var below := Selected(db, scope, Some(all[k - 1]));
    assert all[k - 1] in all;
    forall x ensures x in below <==> x in all[k..] {
      TailHas(all, k, x);
      assert x in all <==> x in Selected(db, scope, cursor);
    }
    SameOrder(Descending(below), all[k..]);
  }

  lemma {:induction false} EntriesJoin(db: Community, a: seq<Id>, b: seq<Id>)
    ensures Entries(db, a + b) == Entries(db, a) + Entries(db, b)
    decreases |a|
  {
    hide Visible, Rendered;
    if a == [] {
      assert a + b == b;
    } else {
      assert (a + b)[1..] == a[1..] + b;
      EntriesJoin(db, a[1..], b);
    }
  }

  // ---------- reading a feed that stands still ----------

  /** The pages one after the other, each asked for with the cursor of the one before, until there is none. */
  function Follow(db: Community, scope: Scope, cursor: Option<Id>, limit: Option<int>): seq<Entry>
    decreases cursor.None?, if cursor.None? then 0 else cursor.value
  {
    var page := QueryFeedPage(db, scope, cursor, limit);
    page.entries + if page.nextCursor.None? then [] else Follow(db, scope, page.nextCursor, limit)
  }

  function Pages(db: Community, scope: Scope, cursor: Option<Id>, limit: Option<int>): nat
    decreases cursor.None?, if cursor.None? then 0 else cursor.value
  {
    var page := QueryFeedPage(db, scope, cursor, limit);
    1 + if page.nextCursor.None? then 0 else Pages(db, scope, page.nextCursor, limit)
  }

  function Ids(entries: seq<Entry>): seq<Id> {
    seq(|entries|, i requires 0 <= i < |entries| => entries[i].id)
  }

  /** In this feed, not hidden, below the cursor, and not a post that is no longer published. */
  predicate Shown(db: Community, scope: Scope, cursor: Option<Id>, id: Id) {
    && id in db.rows && db.rows[id].scope == scope && !db.rows[id].hidden
    && (cursor.Some? ==> id < cursor.value)
    && (db.rows[id].isPost ==> db.rows[id].sourceId in db.posts && db.posts[db.rows[id].sourceId].status == Published)
  }

  /** The entry carries the row, and for a post the post itself, as these tables hold them. */
  predicate ShownAs(db: Community, e: Entry) {
    && e.id in db.rows && e.row == db.rows[e.id]
    && (if e.row.isPost then e.row.sourceId in db.posts && e.post == Some(db.posts[e.row.sourceId]) else e.post == None)
  }

  lemma ShownMeans(db: Community, scope: Scope, cursor: Option<Id>)
    ensures forall id :: Shown(db, scope, cursor, id) <==> id in Selected(db, scope, cursor) && Visible(db, id)
  {
  }

  /** How a page and its cursor split the order of the selected rows. */
  lemma PageSplits(db: Community, scope: Scope, cursor: Option<Id>, limit: Option<int>)
    ensures var all, n, page := Descending(Selected(db, scope, cursor)), PageSize(limit), QueryFeedPage(db, scope, cursor, limit);
      && (page.nextCursor.None? <==> |all| <= n)
      && (|all| <= n ==> page.entries == Entries(db, all))
      && (|all| > n ==>
            && page.nextCursor == Some(all[n - 1])
            && page.entries == Entries(db, all[..n])
            && Descending(Selected(db, scope, page.nextCursor)) == all[n..])
  {
    hide Entries, Descending, PageSize;
    var all, n := Descending(Selected(db, scope, cursor)), PageSize(limit);
    if |all| > n {
      OrderGoesOn(db, scope, cursor, n);
      assert all[..n + 1][..n] == all[..n];
    }
  }

  /** Whatever the limit, the pages together are the visible rows of the feed in descending id order. */
  lemma {:induction false} FollowReadsTheFeed(db: Community, scope: Scope, cursor: Option<Id>, limit: Option<int>)
    ensures Follow(db, scope, cursor, limit) == Entries(db, Descending(Selected(db, scope, cursor)))
    decreases cursor.None?, if cursor.None? then 0 else cursor.value
  {
    hide QueryFeedPage, Entries, Descending, PageSize;
    var all, n, page := Descending(Selected(db, scope, cursor)), PageSize(limit), QueryFeedPage(db, scope, cursor, limit);
    PageSplits(db, scope, cursor, limit);
    if page.nextCursor.Some? {
      FollowReadsTheFeed(db, scope, page.nextCursor, limit);
      assert all == all[..n] + all[n..];
      EntriesJoin(db, all[..n], all[n..]);
    }
  }

  /** One page for every full or started `n` rows, and one for an empty feed. */
  lemma {:induction false} PagesNeeded(db: Community, scope: Scope, cursor: Option<Id>, limit: Option<int>)
    ensures var rows, n, pages := |Selected(db, scope, cursor)|, PageSize(limit), Pages(db, scope, cursor, limit);
      pages >= 1 && ((pages - 1) * n < rows <= pages * n || (rows == 0 && pages == 1))
    decreases cursor.None?, if cursor.None? then 0 else cursor.value
  {
    hide QueryFeedPage, Entries, Descending, PageSize;
    var n, page, pages := PageSize(limit), QueryFeedPage(db, scope, cursor, limit), Pages(db, scope, cursor, limit);
    PageSplits(db, scope, cursor, limit);
    if page.nextCursor.Some? {
      PagesNeeded(db, scope, page.nextCursor, limit);
      OneMorePage(pages, n);
      OneMorePage(pages - 1, n);
    }
  }

  lemma OneMorePage(pages: nat, n: nat)
    ensures pages * n == (pages - 1) * n + n
  {
  }

  lemma VisibleIsRow(db: Community, id: Id)
    ensures Visible(db, id) ==> id in db.rows && ShownAs(db, Rendered(db, id))
  {
  }

  lemma {:induction false} EntriesAre(db: Community, ids: seq<Id>)
    requires Decreasing(ids)
    ensures Decreasing(Ids(Entries(db, ids)))
    ensures forall id :: id in Ids(Entries(db, ids)) <==> id in ids && Visible(db, id)
    ensures forall e :: e in Entries(db, ids) ==> ShownAs(db, e)
    decreases |ids|
  {
    hide Visible, ShownAs;
    if ids != [] {
      var more := Entries(db, ids[1..]);
      EntriesAre(db, ids[1..]);
      VisibleIsRow(db, ids[0]);
      if Visible(db, ids[0]) {
        assert Entries(db, ids) == [Rendered(db, ids[0])] + more;
        assert Ids(Entries(db, ids)) == [ids[0]] + Ids(more);
        forall i | 0 <= i < |Ids(more)| ensures ids[0] > Ids(more)[i] {
          assert Ids(more)[i] in ids[1..];
        }
      } else {
        assert Entries(db, ids) == more;
      }
      assert ids == [ids[0]] + ids[1..];
    }
  }

  /** No gap and no repeat: every shown row once, in descending id order, and nothing else. */
  lemma FollowShowsExactly(db: Community, scope: Scope, limit: Option<int>)
    ensures Decreasing(Ids(Follow(db, scope, None, limit)))
    ensures forall id :: id in Ids(Follow(db, scope, None, limit)) <==> Shown(db, scope, None, id)
  {
    hide Follow, Entries, Visible, Shown, Selected;
    ShownMeans(db, scope, None);
    var all := Descending(Selected(db, scope, None));
    FollowReadsTheFeed(db, scope, None, limit);
    EntriesAre(db, all);
  }

  // ---------- reading a feed that changes between pages ----------

  /** One request of a session: the tables as it finds them, and the limit it asks with. */
  datatype Request = Request(db: Community, limit: Option<int>)

  function Session(requests: seq<Request>, scope: Scope, cursor: Option<Id>): seq<Entry> {
    if requests == [] then []
    else
      var page := QueryFeedPage(requests[0].db, scope, cursor, requests[0].limit);
      page.entries + if page.nextCursor.None? then [] else Session(requests[1..], scope, page.nextCursor)
  }

  /** The session got to a page without a next cursor. */
  predicate Finished(requests: seq<Request>, scope: Scope, cursor: Option<Id>) {
    && requests != []
    && var page := QueryFeedPage(requests[0].db, scope, cursor, requests[0].limit);
       page.nextCursor.None? || Finished(requests[1..], scope, page.nextCursor)
  }

  /** Everything a page shows is below the cursor it was asked with and not below the one it hands out. */
  lemma PageBounds(db: Community, scope: Scope, cursor: Option<Id>, limit: Option<int>)
    ensures var page := QueryFeedPage(db, scope, cursor, limit);
      && Decreasing(Ids(page.entries))
      && (forall id: Id :: id in Ids(page.entries) <==>
            Shown(db, scope, cursor, id) && (page.nextCursor.Some? ==> id >= page.nextCursor.value))
      && (forall e :: e in page.entries ==> ShownAs(db, e))
  {
    hide QueryFeedPage, Entries, Descending, PageSize, Visible, Rendered, Shown, Selected, ShownAs;
    ShownMeans(db, scope, cursor);
    var all, n, page := Descending(Selected(db, scope, cursor)), PageSize(limit), QueryFeedPage(db, scope, cursor, limit);
    PageSplits(db, scope, cursor, limit);
    if page.nextCursor.None? {
      EntriesAre(db, all);
    } else {
      var front := all[..n];
      assert forall id :: id in front ==> id in all;
      EntriesAre(db, front);
      forall id ensures id in front <==> id in all && !Below(id, page.nextCursor) {
        if id in all && !Below(id, page.nextCursor) {
          var i :| 0 <= i < |all| && all[i] == id;
          assert i < n && front[i] == id;
        }
      }
    }
  }

  /** However the tables change between requests, no entry is shown twice and none comes out of order. */
  lemma {:induction false} SessionNeverRepeats(requests: seq<Request>, scope: Scope, cursor: Option<Id>)
    ensures Decreasing(Ids(Session(requests, scope, cursor)))
    ensures forall id :: id in Ids(Session(requests, scope, cursor)) ==> Below(id, cursor)
    decreases |requests|
  {
    hide QueryFeedPage, Visible;
    if requests != [] {
      var page := QueryFeedPage(requests[0].db, scope, cursor, requests[0].limit);
      PageBounds(requests[0].db, scope, cursor, requests[0].limit);
      if page.nextCursor.Some? {
        var more := Session(requests[1..], scope, page.nextCursor);
        SessionNeverRepeats(requests[1..], scope, page.nextCursor);
        CursorMovesDown(requests[0], scope, cursor);
        assert Ids(page.entries + more) == Ids(page.entries) + Ids(more);
        JoinDecreasing(Ids(page.entries), Ids(more), page.nextCursor.value);
      } else {
        assert Session(requests, scope, cursor) == page.entries;
      }
    }
  }

  lemma CursorMovesDown(request: Request, scope: Scope, cursor: Option<Id>)
    ensures var page := QueryFeedPage(request.db, scope, cursor, request.limit);
      page.nextCursor.Some? ==> Below(page.nextCursor.value, cursor)
  {
  }

  lemma JoinDecreasing(a: seq<Id>, b: seq<Id>, cursor: Id)
    requires Decreasing(a) && Decreasing(b)
    requires (forall x :: x in a ==> x >= cursor) && (forall x :: x in b ==> x < cursor)
    ensures Decreasing(a + b)
  {
    forall i, j | 0 <= i < j < |a + b| ensures (a + b)[i] > (a + b)[j] {
      if i < |a| <= j {
        assert a[i] in a && b[j - |a|] in b;
      }
    }
  }

  /** Everything shown belongs to the feed asked for and was visible when its page was read. */
  lemma {:induction false} SessionShowsOnlyVisible(requests: seq<Request>, scope: Scope, cursor: Option<Id>, e: Entry)
    requires e in Session(requests, scope, cursor)
    ensures exists r :: r in requests && Shown(r.db, scope, cursor, e.id) && ShownAs(r.db, e)
    decreases |requests|
  {
    hide QueryFeedPage, Visible, Rendered;
    var r := requests[0];
    var page := QueryFeedPage(r.db, scope, cursor, r.limit);
    PageBounds(r.db, scope, cursor, r.limit);
    if e in page.entries {
      var i :| 0 <= i < |page.entries| && page.entries[i] == e;
      assert Ids(page.entries)[i] == e.id;
      assert Shown(r.db, scope, cursor, e.id);
    } else {
      SessionShowsOnlyVisible(requests[1..], scope, page.nextCursor, e);
      CursorMovesDown(r, scope, cursor);
      var later :| later in requests[1..] && Shown(later.db, scope, page.nextCursor, e.id) && ShownAs(later.db, e);
      assert later in requests && Shown(later.db, scope, cursor, e.id);
    }
  }

  /**
   * A finished session misses nothing that stayed: an entry shown in the tables of every request is seen,
   * whatever newer or older rows came and went between the pages.
   */
  lemma {:induction false} SessionMissesNothing(requests: seq<Request>, scope: Scope, cursor: Option<Id>, id: Id)
    requires Finished(requests, scope, cursor)
    requires forall r :: r in requests ==> Shown(r.db, scope, cursor, id)
    ensures id in Ids(Session(requests, scope, cursor))
    decreases |requests|
  {
    hide QueryFeedPage, Visible;
    var r := requests[0];
    var page := QueryFeedPage(r.db, scope, cursor, r.limit);
    PageBounds(r.db, scope, cursor, r.limit);
    assert r in requests;
    if page.nextCursor.Some? {
      var more := Session(requests[1..], scope, page.nextCursor);
      assert Ids(page.entries + more) == Ids(page.entries) + Ids(more);
      if Below(id, page.nextCursor) {
        forall later | later in requests[1..] ensures Shown(later.db, scope, page.nextCursor, id) {
          assert later in requests;
        }
        SessionMissesNothing(requests[1..], scope, page.nextCursor, id);
      }
    } else {
      assert page.entries + [] == page.entries;
    }
  }

  lemma SameSelected(db: Community, later: Community, scope: Scope, cursor: Id)
    requires forall id :: id in db.rows ==> id in later.rows && later.rows[id] == db.rows[id]
    requires forall id :: id in later.rows && id !in db.rows ==> id >= cursor
    ensures Selected(later, scope, Some(cursor)) == Selected(db, scope, Some(cursor))
    ensures forall id :: id in Selected(db, scope, Some(cursor)) ==> id in db.rows
  {
  }

  lemma SamePage(db: Community, later: Community, scope: Scope, cursor: Id, limit: Option<int>)
    requires forall id :: id in db.rows ==> id in later.rows && later.rows[id] == db.rows[id]
    requires forall id :: id in later.rows && id !in db.rows ==> id >= cursor
    requires later.posts == db.posts
    ensures QueryFeedPage(later, scope, Some(cursor), limit) == QueryFeedPage(db, scope, Some(cursor), limit)
  {
    hide Selected, Descending, PageSize, Entries;
    SameSelected(db, later, scope, cursor);
    var all, n := Descending(Selected(db, scope, Some(cursor))), PageSize(limit);
    SameEntries(db, later, all);
    if |all| > n {
      assert all[..n + 1][..n] == all[..n];
      SameEntries(db, later, all[..n]);
    }
  }

  /** Inserting only newer rows never makes a session longer: the pages still to come are those of the old feed. */
  lemma {:induction false} NewerRowsChangeNothingBelow(db: Community, later: Community, scope: Scope, cursor: Id, limit: Option<int>)
    requires forall id :: id in db.rows ==> id in later.rows && later.rows[id] == db.rows[id]
    requires forall id :: id in later.rows && id !in db.rows ==> id >= cursor
    requires later.posts == db.posts
    ensures Follow(later, scope, Some(cursor), limit) == Follow(db, scope, Some(cursor), limit)
    ensures Pages(later, scope, Some(cursor), limit) == Pages(db, scope, Some(cursor), limit)
    decreases cursor
  {
    hide QueryFeedPage;
    SamePage(db, later, scope, cursor, limit);
    var next := QueryFeedPage(db, scope, Some(cursor), limit).nextCursor;
    if next.Some? {
      NewerRowsChangeNothingBelow(db, later, scope, next.value, limit);
    }
  }

  lemma {:induction false} SameEntries(db: Community, later: Community, ids: seq<Id>)
    requires forall id :: id in ids ==> id in db.rows && id in later.rows && later.rows[id] == db.rows[id]
    requires later.posts == db.posts
    ensures Entries(later, ids) == Entries(db, ids)
    decreases |ids|
  {
    if ids != [] {
      SameEntries(db, later, ids[1..]);
    }
  }
}
