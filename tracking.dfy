/**
 * Action tracking and statistics (`/api/themes/track`): a view, preview,
 * download or deploy bumps one counter of one theme and is logged on a best
 * effort basis; the statistics read one theme's counters or the totals over
 * the active themes.
 */
module Tracking {
  import opened Wrappers
  import opened Text
  import opened Http
  import opened Tables

  /** The two counters an action can bump. */
  datatype Counter = Views | Downloads

  /** The action types the handler accepts. */
  const ValidActions: seq<string> := ["view", "download", "preview", "deploy"]

  /** The counter an accepted action bumps: views for a view or preview, downloads for a download or deploy. */
  function CounterFor(actionType: string): (r: Option<Counter>)
    ensures r.Some? <==> actionType in ValidActions
    ensures r == Some(Views) <==> actionType == "view" || actionType == "preview"
    ensures r == Some(Downloads) <==> actionType == "download" || actionType == "deploy"
  {
    if actionType == "view" || actionType == "preview" then Some(Views)
    else if actionType == "download" || actionType == "deploy" then Some(Downloads)
    else None
  }

  /** The column that holds a counter. */
  function Column(c: Counter): string {
    match c
    case Views => "views"
    case Downloads => "downloads"
  }

  function UpdatePrefix(): string { "UPDATE themes SET " }
  function WhereId(): string { " WHERE id = ?" }

  /** `<column> = <column> + 1`: the counter's column goes up by one. */
  function Increment(c: Counter): string {
    Column(c) + " = " + Column(c) + " + 1"
  }

  /**
   * The statement the handler runs for a counter: an `UPDATE` that adds one to
   * the counter's own column and whose only placeholder is the id, so the
   * action type never enters the text.
   */
  function IncrementStatement(c: Counter): (r: string)
    ensures |r| == |UpdatePrefix()| + |Increment(c)| + |WhereId()|
    ensures OccursAt(r, UpdatePrefix(), 0)
    ensures OccursAt(r, Increment(c), |UpdatePrefix()|)
    ensures OccursAt(r, WhereId(), |UpdatePrefix()| + |Increment(c)|)
    ensures CountChar(r, '?') == 1
  {
    IncrementCount(c);
    PrefixCount();
    WhereIdCount();
    Framed(UpdatePrefix(), Increment(c), WhereId());
    UpdatePrefix() + Increment(c) + WhereId()
  }

  lemma IncrementCount(c: Counter)
    ensures CountChar(Increment(c), '?') == 0
  {
    CountCharAbsent(Increment(c), '?');
  }

  lemma PrefixCount()
    ensures CountChar(UpdatePrefix(), '?') == 0
  {
    CountCharAbsent(UpdatePrefix(), '?');
  }

  lemma WhereIdCount()
    ensures CountChar(WhereId(), '?') == 1
  {
    CountCharOne(" WHERE id = ", "", '?');
    assert WhereId() == " WHERE id = " + ['?'] + "";
  }

  /** The three pieces of `pre + mid + suf`: where they sit and how many `?` they hold together. */
  lemma Framed(pre: string, mid: string, suf: string)
    ensures OccursAt(pre + mid + suf, pre, 0)
    ensures OccursAt(pre + mid + suf, mid, |pre|)
    ensures OccursAt(pre + mid + suf, suf, |pre| + |mid|)
    ensures CountChar(pre + mid + suf, '?') == CountChar(pre, '?') + CountChar(mid, '?') + CountChar(suf, '?')
  {
    assert (pre + mid + suf)[0..|pre|] == pre;
    assert (pre + mid + suf)[|pre|..|pre| + |mid|] == mid;
    assert (pre + mid + suf)[|pre| + |mid|..|pre| + |mid| + |suf|] == suf;
    CountCharAppend(pre, mid, '?');
    CountCharAppend(pre + mid, suf, '?');
  }

  function CounterValue(row: Row, c: Counter): nat {
    match c
    case Views => row.views
    case Downloads => row.downloads
  }

  /** A row with both counters cleared: what a counter update must leave alone. */
  function WithoutCounters(row: Row): Row {
    row.(views := 0, downloads := 0)
  }

  /** `SET views = views + 1` or `SET downloads = downloads + 1`: one counter up by one, every other column kept. */
  function Bump(c: Counter): (g: Row -> Row)
    ensures forall x :: g(x).id == x.id && g(x).status == x.status
    ensures forall x :: WithoutCounters(g(x)) == WithoutCounters(x)
    ensures forall x :: CounterValue(g(x), c) == CounterValue(x, c) + 1
    ensures forall x, d :: d != c ==> CounterValue(g(x), d) == CounterValue(x, d)
  {
    match c
    case Views => (x: Row) => x.(views := x.views + 1)
    case Downloads => (x: Row) => x.(downloads := x.downloads + 1)
  }

  /** The table after the counter update: the rows with the id bumped, the others as they were. */
  function Bumped(rows: seq<Row>, id: int, c: Counter): (r: seq<Row>)
    ensures |r| == |rows|
    ensures forall i :: 0 <= i < |rows| && rows[i].id == id ==> r[i] == Bump(c)(rows[i])
    ensures forall i :: 0 <= i < |rows| && rows[i].id != id ==> r[i] == rows[i]
  {
    UpdateWhere(rows, id, Bump(c))
  }

  /** JavaScript truthiness of the body's numeric `themeId`. */
  predicate IdGiven(themeId: Option<int>) {
    themeId.Some? && themeId.value != 0
  }

  /**
   * `POST /api/themes/track`. A falsy id or action type, or an action outside
   * the four accepted ones, gives a 400 and changes nothing; `counterFails` is
   * the counter update throwing (500, nothing changed). Otherwise the counter
   * of the rows with the id goes up by one, and the action is logged unless
   * `logFails`; a failed log entry neither undoes the bump nor changes the
   * reply.
   */
  method Track(db: ThemeDatabase, themeId: Option<int>, actionType: Option<string>,
               counterFails: bool, logFails: bool) returns (sql: string, reply: Reply<string>)
    requires db.Valid()
    modifies db
    ensures db.Valid()
    ensures !IdGiven(themeId) || !Truthy(actionType) ==>
      reply == Err(BAD_REQUEST, "Theme ID and action type are required") && unchanged(db)
    ensures IdGiven(themeId) && Truthy(actionType) && actionType.value !in ValidActions ==>
      reply == Err(BAD_REQUEST, "Invalid action type") && unchanged(db)
    ensures IdGiven(themeId) && Truthy(actionType) && actionType.value in ValidActions ==>
      && sql == IncrementStatement(CounterFor(actionType.value).value)
      && (counterFails ==> reply == Err(SERVER_ERROR, "Failed to track action") && unchanged(db))
      && (!counterFails ==>
           && reply == Ok(OK, "Action tracked successfully")
           && db.rows == Bumped(old(db.rows), themeId.value, CounterFor(actionType.value).value)
           && db.nextId == old(db.nextId)
           && (logFails ==> db.log == old(db.log))
           && (!logFails ==> db.log == old(db.log) + [LogEntry(themeId.value, actionType.value)]))
  {
    sql := "";
    if !IdGiven(themeId) || !Truthy(actionType) {
      return sql, Err(BAD_REQUEST, "Theme ID and action type are required");
    }
    var id, action := themeId.value, actionType.value;
    if action !in ValidActions {
      return sql, Err(BAD_REQUEST, "Invalid action type");
    }
    var counter;
    if action == "view" {
      counter := Views;
    } else if action == "download" {
      counter := Downloads;
    } else if action == "preview" {
      counter := Views;
    } else {
      counter := Downloads;
    }
    sql := IncrementStatement(counter);
    if counterFails {
      return sql, Err(SERVER_ERROR, "Failed to track action");
    }
    db.Update(id, Bump(counter));
    if !logFails {
      db.AppendLog(LogEntry(id, action));
    }
    reply := Ok(OK, "Action tracked successfully");
  }

  // ---------------------------------------------------------------------------
  // Statistics

  /** The first row with the id (`result[0]`), if any. */
  function FindRow(rows: seq<Row>, id: int): (r: Option<Row>)
    ensures r.None? <==> !HasId(rows, id)
    ensures r.Some? ==> r.value in rows && r.value.id == id
    ensures r.Some? && UniqueIds(rows) ==> forall i :: 0 <= i < |rows| && rows[i].id == id ==> rows[i] == r.value
  {
    if rows == [] then None
    else if rows[0].id == id then Some(rows[0])
    else
      var r := FindRow(rows[1..], id);
      assert HasId(rows, id) ==> HasId(rows[1..], id) by {
        if HasId(rows, id) {
          var k :| 0 <= k < |rows| && rows[k].id == id;
          assert rows[1..][k - 1] == rows[k];
        }
      }
      assert HasId(rows[1..], id) ==> HasId(rows, id) by {
        if HasId(rows[1..], id) {
          var k :| 0 <= k < |rows[1..]| && rows[1..][k].id == id;
          assert rows[k + 1] == rows[1..][k];
        }
      }
      assert r.Some? && UniqueIds(rows) ==> UniqueIds(rows[1..]) && forall i :: 0 <= i < |rows| && rows[i].id == id ==> rows[i] == r.value by {
        if r.Some? && UniqueIds(rows) {
          UniqueIdsCons(rows);
          forall i | 0 <= i < |rows| && rows[i].id == id ensures rows[i] == r.value {
            assert i != 0;
            assert rows[i] == rows[1..][i - 1];
          }
        }
      }
      r
  }

  predicate IsActive(row: Row) {
    row.status == "active"
  }

  /** `COUNT(*) … WHERE status = 'active'` */
  function ActiveCount(rows: seq<Row>): nat {
    if rows == [] then 0 else (if IsActive(rows[0]) then 1 else 0) + ActiveCount(rows[1..])
  }

  /** The sum of one counter over the active rows. */
  function ActiveSum(rows: seq<Row>, c: Counter): nat {
    if rows == [] then 0 else (if IsActive(rows[0]) then CounterValue(rows[0], c) else 0) + ActiveSum(rows[1..], c)
  }

  /** The number of active rows with the id. */
  function ActiveWithId(rows: seq<Row>, id: int): nat {
    if rows == [] then 0 else (if IsActive(rows[0]) && rows[0].id == id then 1 else 0) + ActiveWithId(rows[1..], id)
  }

  /** One theme's counters. */
  datatype ThemeStats = ThemeStats(id: int, name: Option<string>, downloads: nat, views: nat)

  /** The totals over the active themes; a sum over no rows is SQL `NULL`. */
  datatype Totals = Totals(totalThemes: nat, totalDownloads: Option<nat>, totalViews: Option<nat>)

  datatype Statistics = OfTheme(theme: ThemeStats) | Overall(totals: Totals)

  /** The totals the aggregate query computes. */
  function ActiveTotals(rows: seq<Row>): (t: Totals)
    ensures t.totalThemes == ActiveCount(rows)
    ensures t.totalDownloads.None? <==> ActiveCount(rows) == 0
    ensures t.totalDownloads.Some? ==> t.totalDownloads.value == ActiveSum(rows, Downloads)
    ensures t.totalViews.Some? ==> t.totalViews.value == ActiveSum(rows, Views)
    ensures t.totalViews.None? <==> ActiveCount(rows) == 0
  {
    var n := ActiveCount(rows);
    Totals(n, if n == 0 then None else Some(ActiveSum(rows, Downloads)),
              if n == 0 then None else Some(ActiveSum(rows, Views)))
  }

  /**
   * `GET /api/themes/track`, over the table `rows`; `fails` is the query
   * throwing. With an id, the counters of the row with that id or a 404;
   * without one, the totals over the active rows.
   */
  function Stats(rows: seq<Row>, themeId: Option<int>, fails: bool): (r: Reply<Statistics>)
    ensures fails ==> r == Err(SERVER_ERROR, "Failed to fetch statistics")
    ensures !fails && themeId.Some? && !HasId(rows, themeId.value) ==> r == Err(NOT_FOUND, "Theme not found")
    ensures !fails && themeId.Some? && HasId(rows, themeId.value) ==>
      && r.Ok? && r.status == OK && r.body.OfTheme?
      && exists i :: 0 <= i < |rows| && rows[i].id == themeId.value
           && r.body.theme == ThemeStats(rows[i].id, rows[i].name, rows[i].downloads, rows[i].views)
    ensures !fails && themeId.None? ==> r == Ok(OK, Overall(ActiveTotals(rows)))
  {
    if fails then Err(SERVER_ERROR, "Failed to fetch statistics")
    else if themeId.Some? then
      match FindRow(rows, themeId.value)
      case None => Err(NOT_FOUND, "Theme not found")
      case Some(row) =>
        assert exists i :: 0 <= i < |rows| && rows[i] == row;
        Ok(OK, OfTheme(ThemeStats(row.id, row.name, row.downloads, row.views)))
    else Ok(OK, Overall(ActiveTotals(rows)))
  }

  // ---------------------------------------------------------------------------
  // How tracking moves the statistics

  lemma BumpedTail(rows: seq<Row>, id: int, c: Counter)
    requires rows != []
    ensures Bumped(rows, id, c)[0] == if rows[0].id == id then Bump(c)(rows[0]) else rows[0]
    ensures Bumped(rows, id, c)[1..] == Bumped(rows[1..], id, c)
  {
  }

  /**
   * A bump raises the total of its counter by the number of active rows with
   * the id, and leaves the other counter's total and the active count as they
   * were.
   */
  lemma {:induction false} BumpedSums(rows: seq<Row>, id: int, c: Counter, d: Counter)
    ensures ActiveSum(Bumped(rows, id, c), d) == ActiveSum(rows, d) + (if d == c then ActiveWithId(rows, id) else 0)
    ensures ActiveCount(Bumped(rows, id, c)) == ActiveCount(rows)
  {
    if rows != [] {
      BumpedTail(rows, id, c);
      BumpedSums(rows[1..], id, c, d);
    }
  }

  /** With unique ids, at most one active row has a given id. */
  lemma {:induction false} ActiveWithIdAtMostOne(rows: seq<Row>, id: int)
    requires UniqueIds(rows)
    ensures ActiveWithId(rows, id) <= 1
  {
    if rows != [] {
      UniqueIdsCons(rows);
      ActiveWithIdAtMostOne(rows[1..], id);
      if rows[0].id == id {
        NoOtherWithId(rows[1..], id);
      }
    }
  }

  lemma {:induction false} NoOtherWithId(rows: seq<Row>, id: int)
    requires forall x :: x in rows ==> x.id != id
    ensures ActiveWithId(rows, id) == 0
  {
    if rows != [] {
      assert rows[0] in rows;
      assert forall x :: x in rows[1..] ==> x in rows;
      NoOtherWithId(rows[1..], id);
    }
  }

  /**
   * Tracking an action on the one active theme with the id raises its
   * counter's total by exactly one; on an id that no row has it changes no
   * total.
   */
  lemma TrackedTotals(rows: seq<Row>, id: int, c: Counter)
    requires UniqueIds(rows)
    ensures ActiveTotals(Bumped(rows, id, c)).totalThemes == ActiveTotals(rows).totalThemes
    ensures (exists i :: 0 <= i < |rows| && rows[i].id == id && IsActive(rows[i])) ==>
      ActiveSum(Bumped(rows, id, c), c) == ActiveSum(rows, c) + 1
    ensures !HasId(rows, id) ==> Bumped(rows, id, c) == rows
  {
    BumpedSums(rows, id, c, c);
    ActiveWithIdAtMostOne(rows, id);
    if exists i :: 0 <= i < |rows| && rows[i].id == id && IsActive(rows[i]) {
      var i :| 0 <= i < |rows| && rows[i].id == id && IsActive(rows[i]);
      ActiveWithIdPositive(rows, id, i);
    }
    if !HasId(rows, id) {
      forall i | 0 <= i < |rows| ensures Bumped(rows, id, c)[i] == rows[i] {
        assert rows[i].id != id;
      }
    }
  }

  lemma {:induction false} ActiveWithIdPositive(rows: seq<Row>, id: int, i: int)
    requires 0 <= i < |rows| && rows[i].id == id && IsActive(rows[i])
    ensures ActiveWithId(rows, id) >= 1
  {
    if i > 0 {
      ActiveWithIdPositive(rows[1..], id, i - 1);
    }
  }
}
