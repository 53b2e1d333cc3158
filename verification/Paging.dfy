/** Listing payments: offset pages, keyset pages, and a client's walk over them. */
module Paging {
  import opened Common
  import opened Db
  import opened Cursors

  datatype Key = At(createdAt: Text, id: Text)

  datatype Row = Row(createdAt: Text, id: Text, merchant: Text, status: Status) {
    function Key(): Key { At(createdAt, id) }
  }

  // ----- the order of the pages -----

  /** Byte-wise comparison of text. */
  predicate TextLess(a: Text, b: Text) {
    if b == [] then false
    else if a == [] then true
    else a[0] < b[0] || (a[0] == b[0] && TextLess(a[1..], b[1..]))
  }

  predicate KeyLess(a: Key, b: Key) {
    TextLess(a.createdAt, b.createdAt) || (a.createdAt == b.createdAt && TextLess(a.id, b.id))
  }

  lemma {:induction false} TextOrder(a: Text, b: Text)
    ensures !TextLess(a, a) && !(TextLess(a, b) && TextLess(b, a))
    ensures TextLess(a, b) || TextLess(b, a) || a == b
  {
    if a != [] && b != [] {
      TextOrder(a[1..], b[1..]);
      assert a == [a[0]] + a[1..] && b == [b[0]] + b[1..];
    } else if a != [] {
      TextOrder(a[1..], b);
    }
  }

  lemma {:induction false} TextTransitive(a: Text, b: Text, c: Text)
    requires TextLess(a, b) && TextLess(b, c)
    ensures TextLess(a, c)
  {
    if a != [] && a[0] == b[0] && b[0] == c[0] {
      TextTransitive(a[1..], b[1..], c[1..]);
    }
  }

  /** At the first place where two texts differ the smaller byte decides, and a proper prefix comes first. */
  lemma {:induction false} TextLessIff(a: Text, b: Text)
    ensures TextLess(a, b) <==> a < b || exists k :: 0 <= k < |a| && k < |b| && a[..k] == b[..k] && a[k] < b[k]
  {
    if a != [] && b != [] {
      if a[0] == b[0] {
        TextLessIff(a[1..], b[1..]);
        FirstAway(a, b);
      } else {
        FirstDiffers(a, b);
      }
    }
  }

  lemma FirstDiffers(a: Text, b: Text)
    requires a != [] && b != [] && a[0] != b[0]
    ensures !(a < b)
    ensures (exists k :: 0 <= k < |a| && k < |b| && a[..k] == b[..k] && a[k] < b[k]) <==> a[0] < b[0]
  {
    assert a[..0] == b[..0];
    forall k | 0 < k < |a| && k < |b| ensures a[..k] != b[..k] {
      assert a[..k][0] != b[..k][0];
    }
  }

  lemma FirstAway(a: Text, b: Text)
    requires a != [] && b != [] && a[0] == b[0]
    ensures a < b <==> a[1..] < b[1..]
    ensures (exists k :: 0 <= k < |a| && k < |b| && a[..k] == b[..k] && a[k] < b[k])
       <==> (exists k :: 0 <= k < |a[1..]| && k < |b[1..]| && a[1..][..k] == b[1..][..k] && a[1..][k] < b[1..][k])
  {
    assert a == [a[0]] + a[1..] && b == [b[0]] + b[1..];
    if exists k :: 0 <= k < |a| && k < |b| && a[..k] == b[..k] && a[k] < b[k] {
      var k :| 0 <= k < |a| && k < |b| && a[..k] == b[..k] && a[k] < b[k];
      assert k > 0 && a[1..][..k - 1] == a[..k][1..] && b[1..][..k - 1] == b[..k][1..];
      assert a[1..][k - 1] < b[1..][k - 1];
    }
    if exists k :: 0 <= k < |a[1..]| && k < |b[1..]| && a[1..][..k] == b[1..][..k] && a[1..][k] < b[1..][k] {
      var k :| 0 <= k < |a[1..]| && k < |b[1..]| && a[1..][..k] == b[1..][..k] && a[1..][k] < b[1..][k];
      assert a[..k + 1] == [a[0]] + a[1..][..k] && b[..k + 1] == [b[0]] + b[1..][..k];
      assert a[k + 1] < b[k + 1];
    }
  }

  lemma KeyOrder(a: Key, b: Key)
    ensures !KeyLess(a, a) && !(KeyLess(a, b) && KeyLess(b, a))
    ensures KeyLess(a, b) || KeyLess(b, a) || a == b
  {
    hide TextLess;
    TextOrder(a.createdAt, b.createdAt);
    TextOrder(a.id, b.id);
  }

  lemma KeyTransitive(a: Key, b: Key, c: Key)
    requires KeyLess(a, b) && KeyLess(b, c)
    ensures KeyLess(a, c)
  {
    hide TextLess;
    if TextLess(a.createdAt, b.createdAt) && TextLess(b.createdAt, c.createdAt) {
      TextTransitive(a.createdAt, b.createdAt, c.createdAt);
    }
    if TextLess(a.id, b.id) && TextLess(b.id, c.id) {
      TextTransitive(a.id, b.id, c.id);
    }
  }

  // ----- ORDER BY created_at DESC, id DESC -----

  /** The primary key: one row per id. */
  ghost predicate UniqueIds(rows: set<Row>) { forall r, s :: r in rows && s in rows && r.id == s.id ==> r == s }

  ghost predicate IsTop(top: Row, rows: set<Row>) {
    top in rows && forall r :: r in rows && r != top ==> KeyLess(r.Key(), top.Key())
  }

  lemma {:induction false} HasTop(rows: set<Row>)
    requires rows != {} && UniqueIds(rows)
    ensures exists top :: IsTop(top, rows)
  {
    hide KeyLess;
    var r :| r in rows;
    if rows == {r} {
      assert IsTop(r, rows);
    } else {
      HasTop(rows - {r});
      var top :| IsTop(top, rows - {r});
      KeyOrder(r.Key(), top.Key());
      if KeyLess(r.Key(), top.Key()) {
        assert IsTop(top, rows);
      } else {
        assert r.id != top.id;
        forall s | s in rows && s != r ensures KeyLess(s.Key(), r.Key()) {
          if s != top { KeyTransitive(s.Key(), top.Key(), r.Key()); }
        }
        assert IsTop(r, rows);
      }
    }
  }

  ghost function Top(rows: set<Row>): (top: Row)
    requires rows != {} && UniqueIds(rows)
    ensures IsTop(top, rows)
  {
    HasTop(rows);
    var top :| IsTop(top, rows);
    top
  }

  ghost function Ordered(rows: set<Row>): seq<Row>
    requires UniqueIds(rows)
  {
    if rows == {} then [] else [Top(rows)] + Ordered(rows - {Top(rows)})
  }

  ghost predicate Descending(s: seq<Row>) { forall i, j :: 0 <= i < j < |s| ==> KeyLess(s[j].Key(), s[i].Key()) }

  function ElementsOf(s: seq<Row>): set<Row> { set r | r in s }

  lemma DescendingCons(top: Row, s: seq<Row>)
    requires Descending(s) && forall r :: r in s ==> KeyLess(r.Key(), top.Key())
    ensures Descending([top] + s) && ElementsOf([top] + s) == {top} + ElementsOf(s)
  {
    hide KeyLess;
    forall j | 0 < j < |[top] + s| ensures KeyLess(([top] + s)[j].Key(), top.Key()) { assert s[j - 1] in s; }
  }

  lemma {:induction false} OrderedIs(rows: set<Row>)
    requires UniqueIds(rows)
    ensures ElementsOf(Ordered(rows)) == rows && Descending(Ordered(rows)) && |Ordered(rows)| == |rows|
  {
    hide KeyLess, Descending;
    if rows != {} {
      var top, rest := Top(rows), rows - {Top(rows)};
      OrderedIs(rest);
      forall r | r in Ordered(rest) ensures KeyLess(r.Key(), top.Key()) { assert r in ElementsOf(Ordered(rest)); }
      DescendingCons(top, Ordered(rest));
    } else {
      assert Descending([]) by { NothingDescends(); }
    }
  }

  lemma NothingDescends()
    ensures Descending([])
  {
  }

  /** A descending enumeration of a set of rows is the only one. */
  lemma {:induction false} OrderedIsUnique(rows: set<Row>, s: seq<Row>)
    requires UniqueIds(rows) && ElementsOf(s) == rows && Descending(s)
    ensures s == Ordered(rows)
  {
    hide KeyLess;
    if s == [] {
      assert rows == {};
    } else {
      assert s[0] in ElementsOf(s);
      var top := Top(rows);
      assert top in s;
      var k :| 0 <= k < |s| && s[k] == top;
      if k > 0 { KeyOrder(s[0].Key(), s[k].Key()); }
      assert s == [top] + s[1..];
      forall r ensures r in ElementsOf(s[1..]) <==> r in rows - {top} {
        assert r in s <==> r == top || r in s[1..];
        if r == top && r in s[1..] {
          var j :| 0 <= j < |s[1..]| && s[1..][j] == r;
          assert s[j + 1] == s[0];
          KeyOrder(top.Key(), top.Key());
        }
      }
      OrderedIsUnique(rows - {top}, s[1..]);
    }
  }

  // ----- the two queries -----

  ghost function Selected(rows: set<Row>, merchant: Text, status: Option<Status>): set<Row> {
    set r | r in rows && r.merchant == merchant && (status.Some? ==> r.status == status.value)
  }

  ghost function After(rows: set<Row>, cursor: Option<Key>): set<Row> {
    set r | r in rows && (cursor.Some? ==> KeyLess(r.Key(), cursor.value))
  }

  function Take<T>(s: seq<T>, n: nat): seq<T> { s[..Min(n, |s|)] }

  function Drop<T>(s: seq<T>, n: nat): seq<T> { s[Min(n, |s|)..] }

  ghost function ListKeyset(rows: set<Row>, merchant: Text, status: Option<Status>, limit: nat, cursor: Option<Key>): seq<Row>
    requires UniqueIds(rows)
  {
    Take(Ordered(After(Selected(rows, merchant, status), cursor)), limit)
  }

  ghost function ListOffset(rows: set<Row>, merchant: Text, status: Option<Status>, limit: nat, offset: nat): seq<Row>
    requires UniqueIds(rows)
  {
    Take(Drop(Ordered(Selected(rows, merchant, status)), offset), limit)
  }

  /** The rows after the `m`-th are the ordered list without its first `m`. */
  lemma AfterIsDrop(rows: set<Row>, m: nat)
    requires UniqueIds(rows) && 0 < m <= |Ordered(rows)|
    ensures UniqueIds(After(rows, Some(Ordered(rows)[m - 1].Key())))
    ensures Ordered(After(rows, Some(Ordered(rows)[m - 1].Key()))) == Ordered(rows)[m..]
  {
    hide KeyLess, Ordered;
    OrderedIs(rows);
    var all := Ordered(rows);
    var rest, key := all[m..], all[m - 1].Key();
    forall r ensures r in ElementsOf(rest) <==> r in After(rows, Some(key)) {
      assert r in rows <==> r in ElementsOf(all);
      if r in rows {
        var k :| 0 <= k < |all| && all[k] == r;
        KeyOrder(r.Key(), key);
        if k >= m { assert rest[k - m] == r; }
        if r in rest {
          var j :| 0 <= j < |rest| && rest[j] == r;
          assert all[m + j] == r;
        }
      }
    }
    OrderedIsUnique(After(rows, Some(key)), rest);
  }

  // ----- the handler -----

  datatype Query = Query(status: Option<string>, limit: Option<int>, offset: Option<int>, cursor: Option<string>)

  datatype Answer = Answer(payments: seq<Row>, limit: nat, nextCursor: Option<string>)

  datatype ListError = InvalidStatus | InvalidCursor

  const DEFAULT_LIMIT := 20
  const MAX_LIMIT := 100

  function StatusOf(s: string): Option<Status> {
    if s == "pending" then Some(Pending)
    else if s == "completed" then Some(Completed)
    else if s == "underpaid" then Some(Underpaid)
    else if s == "expired" then Some(Expired)
    else None
  }

  predicate ValidFilter(q: Query) { q.status.Some? ==> StatusOf(q.status.value).Some? }

  function Filter(q: Query): Option<Status> { if q.status.Some? then StatusOf(q.status.value) else None }

  /** `unwrap_or(DEFAULT_LIMIT).clamp(1, MAX_LIMIT)` */
  function Limit(q: Query): (n: nat)
    ensures 1 <= n <= MAX_LIMIT
  {
    Max(1, Min(MAX_LIMIT, if q.limit.Some? then q.limit.value else DEFAULT_LIMIT))
  }

  function Offset(q: Query): nat { Max(0, if q.offset.Some? then q.offset.value else 0) }

  function NextCursor(page: seq<Row>, limit: nat): Option<string> {
    if |page| == limit && page != [] then Some(EncodeCursor(page[|page| - 1].createdAt, page[|page| - 1].id)) else None
  }

  ghost function List(rows: set<Row>, merchant: Text, q: Query): Result<Answer, ListError>
    requires UniqueIds(rows)
  {
    if !ValidFilter(q) then Err(InvalidStatus)
    else if q.cursor.Some? then
      match DecodeCursor(q.cursor.value)
      case None => Err(InvalidCursor)
      case Some((ts, id)) =>
        var page := ListKeyset(rows, merchant, Filter(q), Limit(q), Some(At(ts, id)));
        Ok(Answer(page, Limit(q), NextCursor(page, Limit(q))))
    else
      var page := ListOffset(rows, merchant, Filter(q), Limit(q), Offset(q));
      Ok(Answer(page, Limit(q), NextCursor(page, Limit(q))))
  }

  // ----- a client that follows next_cursor -----

  /** Timestamps hold no tab, and a row keeps its timestamp: rows change status, and come and go, between requests. */
  ghost predicate WellFormed(tables: seq<set<Row>>) {
    && (forall i, r :: 0 <= i < |tables| && r in tables[i] ==> IsUtf8(r.createdAt) && IsUtf8(r.id) && TAB !in r.createdAt)
    && (forall i, j, r, s :: 0 <= i < |tables| && 0 <= j < |tables| && r in tables[i] && s in tables[j] && r.id == s.id ==>
          r.createdAt == s.createdAt)
    && (forall i :: 0 <= i < |tables| ==> UniqueIds(tables[i]))
  }

  /** The pages in one list; `tables[i]` is the table at request `i`. */
  ghost function Walk(tables: seq<set<Row>>, merchant: Text, q: Query): seq<Row>
    requires forall i :: 0 <= i < |tables| ==> UniqueIds(tables[i])
  {
    if tables == [] then []
    else
      match List(tables[0], merchant, q)
      case Err(_) => []
      case Ok(a) =>
        if a.nextCursor.None? then a.payments
        else a.payments + Walk(tables[1..], merchant, q.(cursor := a.nextCursor))
  }

  /** The last page said there was nothing more, before request `|tables|`. */
  ghost predicate ReachesEnd(tables: seq<set<Row>>, merchant: Text, q: Query)
    requires forall i :: 0 <= i < |tables| ==> UniqueIds(tables[i])
  {
    tables != []
    && match List(tables[0], merchant, q)
       case Err(_) => false
       case Ok(a) => a.nextCursor.None? || ReachesEnd(tables[1..], merchant, q.(cursor := a.nextCursor))
  }

  /** The key that a request resumes after. */
  function Resume(q: Query): Option<Key> {
    if q.cursor.None? then None
    else match DecodeCursor(q.cursor.value) case None => None case Some((ts, id)) => Some(At(ts, id))
  }

  predicate Accepted(q: Query) { ValidFilter(q) && (q.cursor.Some? ==> Resume(q).Some?) }

  /** The rows a request selects from, in order. */
  ghost function Available(rows: set<Row>, merchant: Text, q: Query): seq<Row>
    requires UniqueIds(rows)
  {
    Drop(Ordered(After(Selected(rows, merchant, Filter(q)), Resume(q))), if q.cursor.Some? then 0 else Offset(q))
  }

  lemma ListIsPage(rows: set<Row>, merchant: Text, q: Query)
    requires UniqueIds(rows) && Accepted(q)
    ensures var page := Take(Available(rows, merchant, q), Limit(q));
            List(rows, merchant, q) == Ok(Answer(page, Limit(q), NextCursor(page, Limit(q))))
  {
    hide Ordered, DecodeCursor, KeyLess;
    if q.cursor.None? {
      assert After(Selected(rows, merchant, Filter(q)), None) == Selected(rows, merchant, Filter(q));
    }
  }

  lemma AvailableIs(rows: set<Row>, merchant: Text, q: Query)
    requires UniqueIds(rows) && Accepted(q)
    ensures Descending(Available(rows, merchant, q))
    ensures forall r :: r in Available(rows, merchant, q) ==> r in rows && (Resume(q).Some? ==> KeyLess(r.Key(), Resume(q).value))
    ensures (q.cursor.Some? || Offset(q) == 0) ==>
              forall r :: r in After(Selected(rows, merchant, Filter(q)), Resume(q)) ==> r in Available(rows, merchant, q)
  {
    hide Ordered, KeyLess, Resume, Filter;
    var chosen := After(Selected(rows, merchant, Filter(q)), Resume(q));
    OrderedIs(chosen);
    forall r | r in Available(rows, merchant, q) ensures r in chosen {
      assert r in ElementsOf(Ordered(chosen));
    }
    forall r | r in chosen ensures r in Ordered(chosen) { assert r in ElementsOf(Ordered(chosen)); }
  }

  lemma AvailableFrom(rows: set<Row>, merchant: Text, q: Query, r: Row)
    requires UniqueIds(rows) && Accepted(q) && r in Available(rows, merchant, q)
    ensures r in rows
  {
    hide Available, UniqueIds, Accepted;
    AvailableIs(rows, merchant, q);
  }

  /** The next request resumes exactly after the last row of a full page. */
  lemma NextResumes(q: Query, page: seq<Row>)
    requires ValidFilter(q) && NextCursor(page, Limit(q)).Some?
    requires forall r :: r in page ==> IsUtf8(r.createdAt) && IsUtf8(r.id) && TAB !in r.createdAt
    ensures page != [] && |page| == Limit(q)
    ensures var q' := q.(cursor := NextCursor(page, Limit(q)));
            Accepted(q') && Resume(q') == Some(page[|page| - 1].Key()) && Filter(q') == Filter(q) && Limit(q') == Limit(q)
  {
    hide IsUtf8, DecodeCursor, EncodeCursor, Filter, Limit;
    var last := page[|page| - 1];
    assert last in page;
    CursorRoundTrip(last.createdAt, last.id);
    SameFilter(q, NextCursor(page, Limit(q)));
  }

  lemma SameFilter(q: Query, c: Option<string>)
    ensures Filter(q.(cursor := c)) == Filter(q) && Limit(q.(cursor := c)) == Limit(q)
  {
  }

  function PageOf(s: seq<Row>, q: Query): seq<Row> { Take(s, Limit(q)) }

  function NextQuery(s: seq<Row>, q: Query): Query { q.(cursor := NextCursor(PageOf(s, q), Limit(q))) }

  /** One request of a walk. */
  lemma WalkStep(tables: seq<set<Row>>, merchant: Text, q: Query)
    requires WellFormed(tables) && tables != [] && Accepted(q)
    ensures WellFormed(tables[1..])
    ensures var all := Available(tables[0], merchant, q);
            && (|all| < Limit(q) ==> Walk(tables, merchant, q) == all && ReachesEnd(tables, merchant, q))
            && (|all| >= Limit(q) ==>
                && Accepted(NextQuery(all, q)) && Resume(NextQuery(all, q)) == Some(all[Limit(q) - 1].Key())
                && Filter(NextQuery(all, q)) == Filter(q) && Limit(NextQuery(all, q)) == Limit(q)
                && Walk(tables, merchant, q) == all[..Limit(q)] + Walk(tables[1..], merchant, NextQuery(all, q))
                && ReachesEnd(tables, merchant, q) == ReachesEnd(tables[1..], merchant, NextQuery(all, q)))
  {
    hide Available, IsUtf8, List, NextCursor, Filter, Limit, Resume, UniqueIds, Accepted;
    var all := Available(tables[0], merchant, q);
    var page := Take(all, Limit(q));
    ListIsPage(tables[0], merchant, q);
    NextCursorWhenFull(page, Limit(q));
    if |all| >= Limit(q) {
      forall r | r in page ensures IsUtf8(r.createdAt) && IsUtf8(r.id) && TAB !in r.createdAt {
        AvailableFrom(tables[0], merchant, q, r);
      }
      AcceptedFilter(q);
      NextResumes(q, page);
    } else {
      assert page == all;
    }
  }

  lemma AcceptedFilter(q: Query)
    requires Accepted(q)
    ensures ValidFilter(q)
  {
  }

  lemma NextCursorWhenFull(page: seq<Row>, limit: nat)
    requires limit > 0
    ensures NextCursor(page, limit).Some? <==> |page| == limit
  {
  }

  lemma DescendingConcat(a: seq<Row>, b: seq<Row>)
    requires a != [] && Descending(a) && Descending(b) && forall r :: r in b ==> KeyLess(r.Key(), a[|a| - 1].Key())
    ensures Descending(a + b)
  {
    hide KeyLess;
    var s, last := a + b, a[|a| - 1];
    forall i, j | 0 <= i < j < |s| ensures KeyLess(s[j].Key(), s[i].Key()) {
      if j >= |a| && i < |a| {
        assert s[j] in b;
        if i < |a| - 1 { KeyTransitive(s[j].Key(), last.Key(), s[i].Key()); }
      } else if i >= |a| {
        assert s[i] == b[i - |a|] && s[j] == b[j - |a|];
      }
    }
  }

  predicate AllBelow(s: seq<Row>, cursor: Option<Key>) {
    cursor.Some? ==> forall r :: r in s ==> KeyLess(r.Key(), cursor.value)
  }

  lemma ConcatBelow(a: seq<Row>, b: seq<Row>, cursor: Option<Key>)
    requires a != [] && AllBelow(a, cursor) && AllBelow(b, Some(a[|a| - 1].Key()))
    ensures AllBelow(a + b, cursor)
  {
    hide KeyLess;
    if cursor.Some? {
      forall r | r in a + b ensures KeyLess(r.Key(), cursor.value) {
        if r !in a { KeyTransitive(r.Key(), a[|a| - 1].Key(), cursor.value); }
      }
    }
  }

  /** Following `next_cursor` goes strictly down in (created_at, id), whatever happens to the table in between. */
  lemma {:induction false} WalkDescends(tables: seq<set<Row>>, merchant: Text, q: Query)
    requires WellFormed(tables) && Accepted(q)
    ensures Descending(Walk(tables, merchant, q)) && AllBelow(Walk(tables, merchant, q), Resume(q))
  {
    hide Available, KeyLess, IsUtf8, Accepted, Resume, Filter, Limit, List, NextQuery, UniqueIds, WellFormed;
    if tables != [] {
      UniqueThroughout(tables);
      var all := Available(tables[0], merchant, q);
      WalkStep(tables, merchant, q);
      AvailableIs(tables[0], merchant, q);
      if |all| >= Limit(q) {
        UniqueThroughout(tables[1..]);
        var page, rest := all[..Limit(q)], Walk(tables[1..], merchant, NextQuery(all, q));
        WalkDescends(tables[1..], merchant, NextQuery(all, q));
        DescendingConcat(page, rest);
        ConcatBelow(page, rest, Resume(q));
      }
    }
  }

  lemma UniqueThroughout(tables: seq<set<Row>>)
    requires WellFormed(tables)
    ensures forall i :: 0 <= i < |tables| ==> UniqueIds(tables[i])
  {
    hide IsUtf8, UniqueIds;
  }

  predicate InSome(tables: seq<set<Row>>, r: Row) { exists i :: 0 <= i < |tables| && r in tables[i] }

  lemma {:induction false} WalkReturnsRows(tables: seq<set<Row>>, merchant: Text, q: Query, r: Row)
    requires WellFormed(tables) && Accepted(q) && r in Walk(tables, merchant, q)
    ensures InSome(tables, r)
  {
    hide Available, KeyLess, IsUtf8, Accepted, Resume, Filter, Limit, List, NextQuery, UniqueIds;
    if tables != [] {
      var all := Available(tables[0], merchant, q);
      WalkStep(tables, merchant, q);
      if r in all {
        AvailableFrom(tables[0], merchant, q, r);
      } else {
        WalkReturnsRows(tables[1..], merchant, NextQuery(all, q), r);
        var i :| 0 <= i < |tables[1..]| && r in tables[1..][i];
        assert r in tables[i + 1];
      }
    }
  }

  lemma DescendingIsDistinct(s: seq<Row>, i: nat, j: nat)
    requires Descending(s) && i < j < |s|
    ensures s[i].Key() != s[j].Key()
  {
    hide KeyLess;
    KeyOrder(s[i].Key(), s[i].Key());
  }

  /** So no payment is ever returned twice, whatever happens to the table between requests. */
  lemma NoPaymentTwice(tables: seq<set<Row>>, merchant: Text, q: Query, i: nat, j: nat)
    requires WellFormed(tables) && Accepted(q) && i < j < |Walk(tables, merchant, q)|
    ensures Walk(tables, merchant, q)[i].id != Walk(tables, merchant, q)[j].id
  {
    hide Walk, Accepted, IsUtf8, KeyLess, UniqueIds;
    WalkDescends(tables, merchant, q);
    var s := Walk(tables, merchant, q);
    DescendingIsDistinct(s, i, j);
    WalkReturnsRows(tables, merchant, q, s[i]);
    WalkReturnsRows(tables, merchant, q, s[j]);
    var k :| 0 <= k < |tables| && s[i] in tables[k];
    var l :| 0 <= l < |tables| && s[j] in tables[l];
  }

  predicate Wanted(r: Row, merchant: Text, status: Option<Status>) {
    r.merchant == merchant && (status.Some? ==> r.status == status.value)
  }

  ghost predicate There(rows: set<Row>, merchant: Text, status: Option<Status>, key: Key) {
    exists r :: r in rows && r.Key() == key && Wanted(r, merchant, status)
  }

  /** At every request the payment `key` is in the table and matches the filter. */
  ghost predicate ThereThroughout(tables: seq<set<Row>>, merchant: Text, status: Option<Status>, key: Key) {
    forall i :: 0 <= i < |tables| ==> There(tables[i], merchant, status, key)
  }

  lemma ThereLater(tables: seq<set<Row>>, merchant: Text, status: Option<Status>, key: Key)
    requires tables != [] && ThereThroughout(tables, merchant, status, key)
    ensures ThereThroughout(tables[1..], merchant, status, key)
  {
    hide There;
  }

  lemma ThereIsAvailable(rows: set<Row>, merchant: Text, q: Query, key: Key) returns (r: Row)
    requires UniqueIds(rows) && Accepted(q) && (q.cursor.Some? || Offset(q) == 0)
    requires There(rows, merchant, Filter(q), key) && (Resume(q).Some? ==> KeyLess(key, Resume(q).value))
    ensures r in Available(rows, merchant, q) && r.Key() == key
  {
    hide Available, KeyLess, Filter, Resume, UniqueIds, Offset, Accepted;
    AvailableIs(rows, merchant, q);
    r :| r in rows && r.Key() == key && Wanted(r, merchant, Filter(q));
  }

  lemma ThereNow(tables: seq<set<Row>>, merchant: Text, status: Option<Status>, key: Key)
    requires tables != [] && ThereThroughout(tables, merchant, status, key)
    ensures There(tables[0], merchant, status, key)
  {
    hide There;
  }

  /** A walk from the start that reaches the end returns every payment that was there and matched throughout. */
  lemma {:induction false} WalkIsComplete(tables: seq<set<Row>>, merchant: Text, q: Query, key: Key)
    requires WellFormed(tables) && Accepted(q) && (q.cursor.Some? || Offset(q) == 0) && ReachesEnd(tables, merchant, q)
    requires ThereThroughout(tables, merchant, Filter(q), key) && (Resume(q).Some? ==> KeyLess(key, Resume(q).value))
    ensures exists r :: r in Walk(tables, merchant, q) && r.Key() == key
  {
    hide Available, KeyLess, IsUtf8, Accepted, Resume, Filter, Limit, List, UniqueIds, Offset, There, ThereThroughout, Descending, NextCursor;
    var all := Available(tables[0], merchant, q);
    WalkStep(tables, merchant, q);
    ThereNow(tables, merchant, Filter(q), key);
    var r := ThereIsAvailable(tables[0], merchant, q, key);
    if |all| >= Limit(q) {
      var last := all[Limit(q) - 1];
      if KeyLess(key, last.Key()) {
        ThereLater(tables, merchant, Filter(q), key);
        CursorOf(all, q);
        WalkIsComplete(tables[1..], merchant, NextQuery(all, q), key);
        var s :| s in Walk(tables[1..], merchant, NextQuery(all, q)) && s.Key() == key;
        assert s in Walk(tables, merchant, q);
      } else {
        AvailableIs(tables[0], merchant, q);
        NotBelowIsAmong(all, Limit(q), r);
        assert r in Walk(tables, merchant, q);
      }
    }
  }

  lemma CursorOf(all: seq<Row>, q: Query)
    requires |all| >= Limit(q)
    ensures NextQuery(all, q).cursor.Some?
  {
    hide Limit, EncodeCursor;
  }

  lemma NotBelowIsAmong(all: seq<Row>, limit: nat, r: Row)
    requires Descending(all) && 0 < limit <= |all| && r in all && !KeyLess(r.Key(), all[limit - 1].Key())
    ensures r in all[..limit]
  {
    hide KeyLess;
    var k :| 0 <= k < |all| && all[k] == r;
    assert k < limit;
    assert all[..limit][k] == r;
  }

  // ----- with no changes in between -----

  /** How many requests a walk over `n` rows takes. */
  function Requests(n: nat, limit: nat): nat
    requires limit > 0
  {
    if n < limit then 1 else 1 + Requests(n - limit, limit)
  }

  lemma DropDrop(s: seq<Row>, k: nat, n: nat)
    requires n <= |Drop(s, k)|
    ensures n > 0 ==> k + n <= |s| && Drop(s, k)[n..] == s[k + n..] && Drop(s, k)[n - 1] == s[k + n - 1]
  {
  }

  lemma AfterAfter(rows: set<Row>, cursor: Option<Key>, r: Row)
    requires r in After(rows, cursor)
    ensures After(After(rows, cursor), Some(r.Key())) == After(rows, Some(r.Key()))
  {
    hide KeyLess;
    forall s | s in After(rows, Some(r.Key())) ensures s in After(rows, cursor) {
      if cursor.Some? { KeyTransitive(s.Key(), r.Key(), cursor.value); }
    }
  }

  /** After a full page, what is left is what was available without that page. */
  lemma AvailableNext(rows: set<Row>, merchant: Text, q: Query, q': Query)
    requires UniqueIds(rows) && Accepted(q) && |Available(rows, merchant, q)| >= Limit(q)
    requires q'.cursor.Some? && Filter(q') == Filter(q) && Resume(q') == Some(Available(rows, merchant, q)[Limit(q) - 1].Key())
    ensures Available(rows, merchant, q') == Available(rows, merchant, q)[Limit(q)..]
  {
    hide KeyLess, Filter, Resume, Offset, Ordered, After, Selected, Limit;
    var chosen := Selected(rows, merchant, Filter(q));
    SelectedIsUnique(rows, merchant, Filter(q), Resume(q));
    var base, skip := After(chosen, Resume(q)), if q.cursor.Some? then 0 else Offset(q);
    DropDrop(Ordered(base), skip, Limit(q));
    var r := Ordered(base)[skip + Limit(q) - 1];
    OrderedIs(base);
    assert r in ElementsOf(Ordered(base));
    AfterAfter(chosen, Resume(q), r);
    AfterIsDrop(base, skip + Limit(q));
  }

  lemma SelectedIsUnique(rows: set<Row>, merchant: Text, status: Option<Status>, cursor: Option<Key>)
    requires UniqueIds(rows)
    ensures UniqueIds(Selected(rows, merchant, status)) && UniqueIds(After(Selected(rows, merchant, status), cursor))
  {
    hide KeyLess;
  }

  /** With no changes in between, the pages of a walk make up the list from the first page's offset on:
      nothing missing, nothing twice, in order, in exactly `Requests` requests. */
  lemma {:induction false} WalkIsTheList(tables: seq<set<Row>>, rows: set<Row>, merchant: Text, q: Query)
    requires WellFormed(tables) && Accepted(q) && UniqueIds(rows) && forall i :: 0 <= i < |tables| ==> tables[i] == rows
    ensures ReachesEnd(tables, merchant, q) <==> |tables| >= Requests(|Available(rows, merchant, q)|, Limit(q))
    ensures ReachesEnd(tables, merchant, q) ==> Walk(tables, merchant, q) == Available(rows, merchant, q)
    decreases |tables|
  {
    hide Available, KeyLess, IsUtf8, Accepted, Resume, Filter, Limit, List, UniqueIds, NextCursor;
    if tables != [] {
      var all := Available(rows, merchant, q);
      WalkStep(tables, merchant, q);
      if |all| >= Limit(q) {
        CursorOf(all, q);
        AvailableNext(rows, merchant, q, NextQuery(all, q));
        WalkIsTheList(tables[1..], rows, merchant, NextQuery(all, q));
        assert all == all[..Limit(q)] + all[Limit(q)..];
      }
    }
  }

  /** A first page at offset `k`, then cursors: exactly the full list without its first `k` rows. */
  lemma OffsetThenCursors(tables: seq<set<Row>>, rows: set<Row>, merchant: Text, q: Query)
    requires WellFormed(tables) && UniqueIds(rows) && forall i :: 0 <= i < |tables| ==> tables[i] == rows
    requires ValidFilter(q) && q.cursor.None? && ReachesEnd(tables, merchant, q)
    ensures Walk(tables, merchant, q) == Drop(Ordered(Selected(rows, merchant, Filter(q))), Offset(q))
  {
    WalkIsTheList(tables, rows, merchant, q);
    assert After(Selected(rows, merchant, Filter(q)), None) == Selected(rows, merchant, Filter(q));
    hide Ordered, Filter, IsUtf8, Walk, ReachesEnd, KeyLess;
  }

  // ----- which rows, how many, and in which order -----

  function StatusName(s: Status): string {
    match s case Pending => "pending" case Completed => "completed" case Underpaid => "underpaid" case Expired => "expired"
  }

  lemma StatusOfIsName(name: string, s: Status)
    ensures StatusOf(name) == Some(s) <==> name == StatusName(s)
  {
  }

  /** 20 rows unless asked otherwise, at least 1 and at most 100. */
  lemma LimitIs(q: Query)
    ensures q.limit.None? ==> Limit(q) == 20
    ensures q.limit.Some? ==> Limit(q) == if q.limit.value < 1 then 1 else if q.limit.value > 100 then 100 else q.limit.value
    ensures Offset(q) == if q.offset.Some? && q.offset.value > 0 then q.offset.value else 0
  {
  }

  /** A filter that names no status is refused first, then a cursor that does not read back; nothing else is. */
  lemma ListFailsIff(rows: set<Row>, merchant: Text, q: Query)
    requires UniqueIds(rows)
    ensures List(rows, merchant, q) == Err(InvalidStatus) <==> q.status.Some? && forall s :: q.status.value != StatusName(s)
    ensures List(rows, merchant, q) == Err(InvalidCursor) <==>
              && (q.status.Some? ==> exists s :: q.status.value == StatusName(s))
              && q.cursor.Some? && DecodeCursor(q.cursor.value).None?
  {
    hide DecodeCursor, StatusOf, StatusName, Limit, ListKeyset, ListOffset, NextCursor;
    if q.status.Some? {
      forall s ensures StatusOf(q.status.value) == Some(s) <==> q.status.value == StatusName(s) { StatusOfIsName(q.status.value, s); }
    }
  }

  /** What a request returns: only rows of this merchant, with the status asked for, below the cursor. */
  lemma ListReturnsWanted(rows: set<Row>, merchant: Text, q: Query, r: Row)
    requires UniqueIds(rows) && Accepted(q) && r in Available(rows, merchant, q)
    ensures r in rows && r.merchant == merchant && (q.status.Some? ==> StatusName(r.status) == q.status.value)
  {
    hide Ordered, KeyLess, Resume, StatusOf, StatusName, After;
    SelectedIsUnique(rows, merchant, Filter(q), Resume(q));
    var chosen := After(Selected(rows, merchant, Filter(q)), Resume(q));
    OrderedIs(chosen);
    assert r in ElementsOf(Ordered(chosen));
    AfterSelects(Selected(rows, merchant, Filter(q)), Resume(q), r);
    if q.status.Some? { StatusOfIsName(q.status.value, r.status); }
  }

  lemma AfterSelects(rows: set<Row>, cursor: Option<Key>, r: Row)
    requires r in After(rows, cursor)
    ensures r in rows
  {
  }

  /** At some request the table holds `r` for this merchant, with the status asked for. */
  predicate WantedInSome(tables: seq<set<Row>>, merchant: Text, status: Option<string>, r: Row) {
    exists i :: 0 <= i < |tables| && r in tables[i] && r.merchant == merchant && (status.Some? ==> StatusName(r.status) == status.value)
  }

  /** A walk returns nothing of another merchant and nothing of another status. */
  lemma {:induction false} WalkReturnsWanted(tables: seq<set<Row>>, merchant: Text, q: Query, r: Row)
    requires WellFormed(tables) && Accepted(q) && r in Walk(tables, merchant, q)
    ensures WantedInSome(tables, merchant, q.status, r)
  {
    hide Available, KeyLess, IsUtf8, Accepted, Resume, Filter, Limit, List, UniqueIds, StatusName, NextCursor;
    if tables != [] {
      var all := Available(tables[0], merchant, q);
      WalkStep(tables, merchant, q);
      if r in all {
        ListReturnsWanted(tables[0], merchant, q, r);
      } else {
        WalkReturnsWanted(tables[1..], merchant, NextQuery(all, q), r);
        var i :| 0 <= i < |tables[1..]| && r in tables[1..][i] && r.merchant == merchant
          && (q.status.Some? ==> StatusName(r.status) == q.status.value);
        assert r in tables[i + 1];
      }
    }
  }

  /** A walk goes from the newest row to the oldest, and among rows of one time from the highest id down. */
  lemma NewestFirst(tables: seq<set<Row>>, merchant: Text, q: Query, i: nat, j: nat)
    requires WellFormed(tables) && Accepted(q) && i < j < |Walk(tables, merchant, q)|
    ensures var s := Walk(tables, merchant, q);
            TextLess(s[j].createdAt, s[i].createdAt) || (s[j].createdAt == s[i].createdAt && TextLess(s[j].id, s[i].id))
  {
    hide Walk, Accepted, IsUtf8, UniqueIds, TextLess;
    WalkDescends(tables, merchant, q);
  }
}
