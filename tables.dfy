/**
 * The two tables the catalogue handlers write: `themes` and the append-only
 * `theme_analytics` log, held by one object whose fields the handlers update.
 * `created_at` and `updated_at` are not modelled.
 */
module Tables {
  import opened Wrappers

  /**
   * A row of `themes`. Text columns may be NULL (`None`): the update handler
   * writes whatever the request body holds. `is_free` and `featured` are
   * TINYINT columns, read back as numbers.
   */
  datatype Row = Row(
    id: int,
    name: Option<string>,
    description: Option<string>,
    category: Option<string>,
    categories: Option<string>,
    technology: Option<string>,
    thumbnail: Option<string>,
    previewUrl: Option<string>,
    downloadUrl: Option<string>,
    deployUrl: Option<string>,
    isFree: int,
    price: int,
    stockQuantity: Option<int>,
    downloads: nat,
    views: nat,
    featured: int,
    status: string)

  /** A row of `theme_analytics`. */
  datatype LogEntry = LogEntry(themeId: int, actionType: string)

  /** The outcome of a `SELECT`: the statement threw, or it returned these rows. */
  datatype QueryOutcome = QueryFailed | Rows(rows: seq<Row>)

  predicate UniqueIds(rows: seq<Row>) {
    forall i, j :: 0 <= i < j < |rows| ==> rows[i].id != rows[j].id
  }

  predicate HasId(rows: seq<Row>, id: int) {
    exists i :: 0 <= i < |rows| && rows[i].id == id
  }

  /** `UPDATE themes SET … WHERE id = ?`: `g` rewrites each matching row, the others stay. */
  function UpdateWhere(rows: seq<Row>, id: int, g: Row -> Row): (r: seq<Row>)
    ensures |r| == |rows|
    ensures forall i :: 0 <= i < |rows| && rows[i].id == id ==> r[i] == g(rows[i])
    ensures forall i :: 0 <= i < |rows| && rows[i].id != id ==> r[i] == rows[i]
  {
    seq(|rows|, i requires 0 <= i < |rows| => if rows[i].id == id then g(rows[i]) else rows[i])
  }

  /** `DELETE FROM themes WHERE id = ?` */
  function DeleteWhere(rows: seq<Row>, id: int): (r: seq<Row>)
    ensures forall x :: x in r <==> x in rows && x.id != id
    ensures |r| <= |rows|
  {
    if rows == [] then []
    else (if rows[0].id == id then [] else [rows[0]]) + DeleteWhere(rows[1..], id)
  }

  /** An update whose rewrite keeps ids keeps them unique; a missing id changes nothing. */
  lemma UpdateWhereKeepsIds(rows: seq<Row>, id: int, g: Row -> Row)
    requires UniqueIds(rows)
    requires forall x :: g(x).id == x.id
    ensures UniqueIds(UpdateWhere(rows, id, g))
    ensures !HasId(rows, id) ==> UpdateWhere(rows, id, g) == rows
  {
  }

  /** Unique ids of a non-empty table: the tail's are unique and none equals the head's. */
  lemma UniqueIdsCons(rows: seq<Row>)
    requires rows != []
    ensures UniqueIds(rows) <==> UniqueIds(rows[1..]) && forall x :: x in rows[1..] ==> x.id != rows[0].id
  {
    if UniqueIds(rows[1..]) && forall x :: x in rows[1..] ==> x.id != rows[0].id {
      forall i, j | 0 <= i < j < |rows| ensures rows[i].id != rows[j].id {
        if i == 0 {
          assert rows[j] in rows[1..];
        } else {
          assert rows[i] == rows[1..][i - 1] && rows[j] == rows[1..][j - 1];
        }
      }
    }
    if UniqueIds(rows) {
      forall x | x in rows[1..] ensures x.id != rows[0].id {
        var k :| 0 <= k < |rows[1..]| && rows[1..][k] == x;
        assert rows[k + 1] == x;
      }
    }
  }

  /** Deleting keeps the remaining ids unique. */
  lemma {:induction false} DeleteWhereKeepsUnique(rows: seq<Row>, id: int)
    requires UniqueIds(rows)
    ensures UniqueIds(DeleteWhere(rows, id))
  {
    if rows != [] {
      UniqueIdsCons(rows);
      DeleteWhereKeepsUnique(rows[1..], id);
      var tail := DeleteWhere(rows[1..], id);
      if rows[0].id != id {
        var r := [rows[0]] + tail;
        assert r[1..] == tail;
        UniqueIdsCons(r);
      }
    }
  }

  /** Deleting an id no row has changes nothing. */
  lemma {:induction false} DeleteWhereAbsent(rows: seq<Row>, id: int)
    requires !HasId(rows, id)
    ensures DeleteWhere(rows, id) == rows
  {
    if rows != [] {
      forall k | 0 <= k < |rows[1..]| ensures rows[1..][k].id != id {
        assert rows[1..][k] == rows[k + 1];
      }
      DeleteWhereAbsent(rows[1..], id);
      assert rows[0].id != id;
      assert [rows[0]] + rows[1..] == rows;
    }
  }

  /** After a delete no row has the id, so deleting it again changes nothing. */
  lemma DeleteWhereIdempotent(rows: seq<Row>, id: int)
    ensures !HasId(DeleteWhere(rows, id), id)
    ensures DeleteWhere(DeleteWhere(rows, id), id) == DeleteWhere(rows, id)
  {
    var r := DeleteWhere(rows, id);
    forall k | 0 <= k < |r| ensures r[k].id != id {
      assert r[k] in r;
    }
    DeleteWhereAbsent(r, id);
  }

  /** The database state the handlers share. */
  class ThemeDatabase {
    /** The `themes` table. */
    var rows: seq<Row>
    /** The `theme_analytics` table. */
    var log: seq<LogEntry>
    /** The id the next insert is given (AUTO_INCREMENT). */
    var nextId: int

    ghost predicate Valid()
      reads this
    {
      && UniqueIds(rows)
      && 0 < nextId
      && forall i :: 0 <= i < |rows| ==> 0 < rows[i].id < nextId
    }

    constructor ()
      ensures Valid() && rows == [] && log == [] && nextId == 1
    {
      rows, log, nextId := [], [], 1;
    }

    /** `INSERT INTO themes …`: the row is stored under a fresh id, which is returned. */
    method Insert(row: Row) returns (id: int)
      requires Valid()
      modifies this
      ensures Valid()
      ensures id == old(nextId) && !HasId(old(rows), id)
      ensures rows == old(rows) + [row.(id := id)]
      ensures log == old(log) && nextId == old(nextId) + 1
    {
      id := nextId;
      rows := rows + [row.(id := id)];
      nextId := nextId + 1;
    }

    /** `UPDATE themes SET … WHERE id = ?` with a rewrite that keeps the id. */
    method Update(id: int, g: Row -> Row)
      requires Valid()
      requires forall x :: g(x).id == x.id
      modifies this
      ensures Valid()
      ensures rows == UpdateWhere(old(rows), id, g)
      ensures log == old(log) && nextId == old(nextId)
    {
      UpdateWhereKeepsIds(rows, id, g);
      rows := UpdateWhere(rows, id, g);
    }

    /** `DELETE FROM themes WHERE id = ?` */
    method Delete(id: int)
      requires Valid()
      modifies this
      ensures Valid()
      ensures rows == DeleteWhere(old(rows), id)
      ensures log == old(log) && nextId == old(nextId)
    {
      DeleteWhereKeepsUnique(rows, id);
      rows := DeleteWhere(rows, id);
    }

    /** `INSERT INTO theme_analytics (theme_id, action_type) …` */
    method AppendLog(entry: LogEntry)
      requires Valid()
      modifies this
      ensures Valid()
      ensures log == old(log) + [entry]
      ensures rows == old(rows) && nextId == old(nextId)
    {
      log := log + [entry];
    }
  }
}
