/** Keyset pagination over a table that others write to between pages, and its cursors. */
module Paging {
  import opened Basics

  // ---- Cursors and limits --------------------------------------------------------------------

  datatype Cursor = Cursor(createdAt: string, key: string)

  /** The text of a cursor, before the URL-safe transfer encoding. */
  function Encode(c: Cursor): string {
    c.createdAt + "|" + c.key
  }

  function BarAt(s: string, from: nat): (r: Option<nat>)
    requires from <= |s|
    ensures r.Some? ==> from <= r.value < |s| && s[r.value] == '|' && forall k :: from <= k < r.value ==> s[k] != '|'
    ensures r == None ==> forall k :: from <= k < |s| ==> s[k] != '|'
    decreases |s| - from
  {
    if from == |s| then None else if s[from] == '|' then Some(from) else BarAt(s, from + 1)
  }

  function Decode(s: string): Option<Cursor> {
    match BarAt(s, 0)
    case None => None
    case Some(i) => Some(Cursor(s[..i], s[i + 1..]))
  }

  /** Cursors round-trip exactly when the time has no bar in it; the key may hold anything. */
  lemma CursorRoundTripIff(c: Cursor)
    ensures Decode(Encode(c)) == Some(c) <==> '|' !in c.createdAt
  {
    var s, n := Encode(c), |c.createdAt|;
    assert s[n] == '|' && s[..n] == c.createdAt && s[n + 1..] == c.key;
    var i := BarAt(s, 0).value;
    assert forall k :: 0 <= k < n ==> s[k] == c.createdAt[k];
    if '|' in c.createdAt {
      var k :| 0 <= k < n && c.createdAt[k] == '|';
      assert i <= k && |s[..i]| < n;
    }
  }

  /** A page limit as given: absent or not a number, or a number. */
  datatype LimitArg = NotANumber | Number(x: real)

  const DEFAULT_LIMIT: nat := 50
  const MAX_LIMIT: nat := 200

  function ClampLimit(arg: LimitArg): (n: nat)
    ensures arg == NotANumber || arg.x <= 0.0 ==> n == 50
    ensures arg.Number? && arg.x > 0.0 ==> n <= 200 && n as real <= arg.x && (n == 200 || arg.x < n as real + 1.0)
  {
    if arg == NotANumber || arg.x <= 0.0 then DEFAULT_LIMIT
    else if arg.x.Floor < MAX_LIMIT then arg.x.Floor else MAX_LIMIT
  }

  /** The clamped limit admits at least one row unless a fraction below one was asked for. */
  lemma ClampedLimitPositiveIff(arg: LimitArg)
    ensures ClampLimit(arg) >= 1 <==> !(arg.Number? && 0.0 < arg.x < 1.0)
  {
  }

  // ---- Pages ---------------------------------------------------------------------------------

  /** The key of a matching row; uids are ordered as the database orders them. */
  datatype Row = Row(createdAt: int, uid: int)

  predicate Less(a: Row, b: Row) {
    a.createdAt < b.createdAt || (a.createdAt == b.createdAt && a.uid < b.uid)
  }

  /** The direction of the listing. */
  predicate Before(desc: bool, a: Row, b: Row) {
    if desc then Less(b, a) else Less(a, b)
  }

  ghost predicate Ordered(desc: bool, rows: seq<Row>) {
    forall i, j :: 0 <= i < j < |rows| ==> Before(desc, rows[i], rows[j])
  }

  /** The newest first or the oldest first, and rows of one moment by their uids. */
  lemma OrderedMeans(desc: bool, rows: seq<Row>)
    requires Ordered(desc, rows)
    ensures forall i, j :: 0 <= i < j < |rows| ==>
              if desc then rows[i].createdAt >= rows[j].createdAt else rows[i].createdAt <= rows[j].createdAt
    ensures forall i, j :: 0 <= i < j < |rows| && rows[i].createdAt == rows[j].createdAt ==>
              if desc then rows[i].uid > rows[j].uid else rows[i].uid < rows[j].uid
  {
  }

  datatype Page = Page(items: seq<Row>, next: Option<Row>) | Broken

  /** The rows a query with a cursor selects. */
  predicate Selected(desc: bool, cur: Option<Row>, r: Row) {
    cur == None || Before(desc, cur.value, r)
  }

  /** A page holds the first rows selected, and names a next cursor exactly when rows are left. */
  ghost predicate IsPage(table: set<Row>, desc: bool, cur: Option<Row>, limit: nat, page: Page) {
    && page.Page? && Ordered(desc, page.items) && |page.items| <= limit
    && (forall r :: r in page.items ==> r in table && Selected(desc, cur, r))
    && (forall r :: r in table && Selected(desc, cur, r) && r !in page.items ==>
          |page.items| == limit && limit > 0 && Before(desc, page.items[limit - 1], r))
    && (page.next.Some? <==> exists r :: r in table && Selected(desc, cur, r) && r !in page.items)
    && (page.next.Some? ==> |page.items| > 0 && page.next.value == page.items[|page.items| - 1])
  }

  lemma BeforeOrders(desc: bool, a: Row, b: Row, c: Row)
    ensures a == b || Before(desc, a, b) || Before(desc, b, a)
    ensures !(Before(desc, a, b) && Before(desc, b, a)) && !Before(desc, a, a)
    ensures Before(desc, a, b) && Before(desc, b, c) ==> Before(desc, a, c)
  {
  }

  lemma {:induction false} LeastExists(desc: bool, rows: set<Row>)
    requires rows != {}
    ensures exists m :: m in rows && forall r :: r in rows ==> r == m || Before(desc, m, r)
  {
    hide Before;
    var a :| a in rows;
    var rest := rows - {a};
    if rest != {} {
      LeastExists(desc, rest);
      var m :| m in rest && forall r :: r in rest ==> r == m || Before(desc, m, r);
      BeforeOrders(desc, a, m, m);
      if Before(desc, a, m) {
        forall r | r in rows ensures r == a || Before(desc, a, r) {
          BeforeOrders(desc, a, m, r);
        }
      } else {
        assert forall r :: r in rows ==> r == a || r in rest;
      }
    } else {
      assert forall r :: r in rows ==> r == a || r in rest;
    }
  }

  /** The ordered query: the first `n` of the rows. */
  method FirstRows(desc: bool, rows: set<Row>, n: nat) returns (out: seq<Row>)
    ensures Ordered(desc, out) && |out| <= n && forall r :: r in out ==> r in rows
    ensures forall r :: r in rows && r !in out ==> |out| == n && forall q :: q in out ==> Before(desc, q, r)
  {
    out := [];
    var left := rows;
    while left != {} && |out| < n
      invariant Ordered(desc, out) && |out| <= n
      invariant forall r :: r in rows <==> r in out || r in left
      invariant forall q, r :: q in out && r in left ==> Before(desc, q, r)
      decreases left
    {
      LeastExists(desc, left);
      var m :| m in left && forall r :: r in left ==> r == m || Before(desc, m, r);
      assert forall i :: 0 <= i < |out| ==> out[i] in out;
      out := out + [m];
      left := left - {m};
    }
  }

  /** One page: a row more than the limit is read, to know whether to name a next cursor. */
  method List(table: set<Row>, desc: bool, cur: Option<Row>, arg: LimitArg) returns (page: Page)
    ensures ClampLimit(arg) >= 1 ==> IsPage(table, desc, cur, ClampLimit(arg), page)
    ensures page == Broken <==> ClampLimit(arg) == 0 && exists r :: r in table && Selected(desc, cur, r)
  {
    hide Before, ClampLimit;
    var limit := ClampLimit(arg);
    var selected := set r | r in table && Selected(desc, cur, r);
    var rows := FirstRows(desc, selected, limit + 1);
    if |rows| <= limit {
      assert forall r :: r in table && Selected(desc, cur, r) ==> r in selected && r in rows;
      page := Page(rows, None);
    } else if limit == 0 {
      assert rows[0] in rows && rows[0] in selected;
      page := Broken;
    } else {
      RowsCut(table, desc, cur, rows, limit);
      page := Page(rows[..limit], Some(rows[limit - 1]));
    }
  }

  lemma RowsCut(table: set<Row>, desc: bool, cur: Option<Row>, rows: seq<Row>, limit: nat)
    requires limit > 0 && |rows| == limit + 1 && Ordered(desc, rows)
    requires forall r :: r in rows ==> r in table && Selected(desc, cur, r)
    requires forall r :: r in table && Selected(desc, cur, r) && r !in rows ==> forall q :: q in rows ==> Before(desc, q, r)
    ensures IsPage(table, desc, cur, limit, Page(rows[..limit], Some(rows[limit - 1])))
  {
    hide Selected, Before;
    var items, extra := rows[..limit], rows[limit];
    assert rows == items + [extra];
    assert extra in rows && items[limit - 1] in rows && items[limit - 1] == rows[limit - 1];
    assert extra !in items by {
      assert forall i :: 0 <= i < limit ==> Before(desc, rows[i], extra);
      BeforeOrders(desc, extra, extra, extra);
    }
    assert forall r :: r in items ==> r in rows;
    assert forall r :: r in rows && r !in items ==> r == extra;
  }

  // ---- Following the cursors -----------------------------------------------------------------

  /** One request of a traversal: the table as it was then, and the page it gave. */
  datatype Visit = Visit(table: set<Row>, limit: nat, page: Page)

  /** The visits follow each other's cursors, from the start. */
  ghost predicate Follows(desc: bool, visits: seq<Visit>) {
    forall i :: 0 <= i < |visits| ==>
      && visits[i].limit >= 1
      && IsPage(visits[i].table, desc, CursorBefore(visits, i), visits[i].limit, visits[i].page)
      && (i > 0 ==> CursorBefore(visits, i).Some?)
  }

  ghost function CursorBefore(visits: seq<Visit>, i: nat): Option<Row>
    requires i <= |visits|
  {
    if i > 0 && visits[i - 1].page.Page? then visits[i - 1].page.next else None
  }

  ghost function Seen(visits: seq<Visit>): seq<Row> {
    if visits == [] then []
    else
      var n := |visits| - 1;
      Seen(visits[..n]) + if visits[n].page.Page? then visits[n].page.items else []
  }

  lemma FollowsPrefix(desc: bool, visits: seq<Visit>)
    requires Follows(desc, visits) && visits != []
    ensures Follows(desc, visits[..|visits| - 1])
  {
    var init := visits[..|visits| - 1];
    forall i | 0 <= i < |init|
      ensures init[i] == visits[i] && CursorBefore(init, i) == CursorBefore(visits, i)
    {
    }
  }

  /** Nothing in `rows` lies beyond the cursor. */
  ghost predicate UpTo(desc: bool, rows: seq<Row>, cur: Option<Row>) {
    cur.Some? ==> forall r :: r in rows ==> !Before(desc, cur.value, r)
  }

  /** Rows seen so far are in order, and end at the cursor. */
  lemma {:induction false} SeenInOrder(desc: bool, visits: seq<Visit>)
    requires Follows(desc, visits)
    ensures Ordered(desc, Seen(visits)) && UpTo(desc, Seen(visits), CursorBefore(visits, |visits|))
  {
    hide Before, Ordered, UpTo, IsPage;
    if visits == [] {
      NothingSeen(desc);
    } else {
      var n := |visits| - 1;
      var init, v := visits[..n], visits[n];
      FollowsPrefix(desc, visits);
      SeenInOrder(desc, init);
      assert CursorBefore(init, n) == CursorBefore(visits, n);
      assert n == 0 ==> Seen(init) == [];
      PageContinues(desc, v.table, Seen(init), CursorBefore(visits, n), v.limit, v.page);
    }
  }

  lemma NothingSeen(desc: bool)
    ensures Ordered(desc, Seen([])) && UpTo(desc, Seen([]), CursorBefore([], 0))
  {
  }

  /** A page after the cursor prolongs what was seen up to it. */
  lemma PageContinues(desc: bool, table: set<Row>, seen: seq<Row>, cur: Option<Row>, limit: nat, page: Page)
    requires IsPage(table, desc, cur, limit, page) && Ordered(desc, seen) && UpTo(desc, seen, cur)
    requires seen == [] || cur.Some?
    ensures page.Page? && Ordered(desc, seen + page.items) && UpTo(desc, seen + page.items, page.next)
  {
    hide Before;
    JoinOrdered(desc, seen, page.items, cur);
    if page.next.Some? {
      var last := page.items[|page.items| - 1];
      assert last in page.items;
      LastIsLargest(desc, page.items);
      forall r | r in seen ensures !Before(desc, last, r) {
        BeforeOrders(desc, last, r, cur.value);
        BeforeOrders(desc, cur.value, last, r);
      }
    }
  }

  lemma JoinOrdered(desc: bool, a: seq<Row>, b: seq<Row>, cur: Option<Row>)
    requires Ordered(desc, a) && Ordered(desc, b)
    requires (a == [] || cur.Some?) && UpTo(desc, a, cur)
    requires cur.Some? ==> forall r :: r in b ==> Before(desc, cur.value, r)
    ensures Ordered(desc, a + b)
  {
    hide Before;
    forall i, j | 0 <= i < j < |a + b| ensures Before(desc, (a + b)[i], (a + b)[j]) {
      if i < |a| <= j {
        assert a[i] in a && b[j - |a|] in b;
        BeforeOrders(desc, cur.value, a[i], b[j - |a|]);
        BeforeOrders(desc, a[i], cur.value, b[j - |a|]);
      }
    }
  }

  lemma LastIsLargest(desc: bool, rows: seq<Row>)
    requires Ordered(desc, rows) && rows != []
    ensures forall r :: r in rows ==> !Before(desc, rows[|rows| - 1], r)
  {
    hide Before;
    var last := rows[|rows| - 1];
    forall r | r in rows ensures !Before(desc, last, r) {
      BeforeOrders(desc, r, last, last);
    }
  }

  /** A row present throughout is seen, unless it lies beyond the cursor the traversal has reached. */
  lemma {:induction false} SeenUpToCursor(desc: bool, visits: seq<Visit>, r: Row)
    requires Follows(desc, visits) && visits != [] && forall v :: v in visits ==> r in v.table
    ensures r in Seen(visits) || (CursorBefore(visits, |visits|).Some? && Before(desc, CursorBefore(visits, |visits|).value, r))
  {
    var n := |visits| - 1;
    var init, v := visits[..n], visits[n];
    assert v in visits && Seen(visits) == Seen(init) + v.page.items;
    if n > 0 {
      FollowsPrefix(desc, visits);
      assert forall u :: u in init ==> u in visits;
      SeenUpToCursor(desc, init, r);
      assert CursorBefore(init, n) == CursorBefore(visits, n);
    }
  }

  /** The traversal has come to a page without a next cursor. */
  ghost predicate Finished(visits: seq<Visit>) {
    visits != [] && CursorBefore(visits, |visits|) == None
  }

  lemma {:induction false} OrderedDistinct(desc: bool, rows: seq<Row>)
    requires Ordered(desc, rows)
    ensures Distinct(rows)
  {
  }

  /**
   * Whatever is inserted or removed between the pages: a finished traversal shows every row that was there
   * throughout exactly once, and shows no row twice, in listing order.
   */
  lemma {:induction false} EveryRowOnce(desc: bool, visits: seq<Visit>, r: Row)
    requires Follows(desc, visits) && Finished(visits) && forall v :: v in visits ==> r in v.table
    ensures exists i :: 0 <= i < |Seen(visits)| && Seen(visits)[i] == r && forall j :: 0 <= j < |Seen(visits)| && j != i ==> Seen(visits)[j] != r
    ensures Distinct(Seen(visits))
  {
    hide Follows, Seen, Before;
    SeenInOrder(desc, visits);
    SeenUpToCursor(desc, visits, r);
    OrderedDistinct(desc, Seen(visits));
  }

  lemma {:induction false} OrderedUnique(desc: bool, a: seq<Row>, b: seq<Row>)
    requires Ordered(desc, a) && Ordered(desc, b) && forall r :: r in a <==> r in b
    ensures a == b
  {
    assert a != [] ==> a[0] in b;
    assert b != [] ==> b[0] in a;
    if a != [] && b != [] {
      assert a[0] == b[0];
      forall r ensures r in a[1..] <==> r in b[1..] {
        assert r in a[1..] <==> r in a && r != a[0] by { assert a == [a[0]] + a[1..]; }
        assert r in b[1..] <==> r in b && r != b[0] by { assert b == [b[0]] + b[1..]; }
      }
      OrderedUnique(desc, a[1..], b[1..]);
      assert a == [a[0]] + a[1..] && b == [b[0]] + b[1..];
    }
  }

  lemma {:induction false} SeenFromTable(desc: bool, visits: seq<Visit>, table: set<Row>)
    requires Follows(desc, visits) && forall v :: v in visits ==> v.table == table
    ensures forall r :: r in Seen(visits) ==> r in table
  {
    if visits != [] {
      FollowsPrefix(desc, visits);
      var n := |visits| - 1;
      assert visits[n] in visits;
      assert forall u :: u in visits[..n] ==> u in visits;
      SeenFromTable(desc, visits[..n], table);
    }
  }

  /** On a table nobody writes to, the pages together are the full list, whatever limits they used. */
  lemma PagesAreTheList(desc: bool, visits: seq<Visit>, table: set<Row>, full: seq<Row>)
    requires Follows(desc, visits) && Finished(visits) && forall v :: v in visits ==> v.table == table
    requires Ordered(desc, full) && forall r :: r in full <==> r in table
    ensures Seen(visits) == full
  {
    SeenInOrder(desc, visits);
    SeenFromTable(desc, visits, table);
    forall r | r in table ensures r in Seen(visits) {
      SeenUpToCursor(desc, visits, r);
    }
    OrderedUnique(desc, Seen(visits), full);
  }

  /** And the traversal ends: it never takes more pages than there are rows, or one for an empty table. */
  lemma {:induction false} PagesEnd(desc: bool, visits: seq<Visit>, table: set<Row>)
    requires Follows(desc, visits) && forall v :: v in visits ==> v.table == table
    requires !Finished(visits)
    ensures |visits| <= |Seen(visits)| <= |table|
  {
    SeenGrows(desc, visits);
    SeenInOrder(desc, visits);
    SeenFromTable(desc, visits, table);
    assert Distinct(Seen(visits));
    Pigeonhole(Seen(visits), table);
  }

  lemma {:induction false} SeenGrows(desc: bool, visits: seq<Visit>)
    requires Follows(desc, visits) && !Finished(visits)
    ensures |visits| <= |Seen(visits)|
  {
    if visits != [] {
      FollowsPrefix(desc, visits);
      var n := |visits| - 1;
      assert CursorBefore(visits[..n], n) == CursorBefore(visits, n);
      SeenGrows(desc, visits[..n]);
    }
  }
}
