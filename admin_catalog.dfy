/**
 * The admin catalogue handlers (`/api/admin/themes`): a listing with a status
 * filter and an allow-listed ordering, the normalisation of each row, and the
 * create, update and delete operations on the `themes` table.
 */
module AdminCatalog {
  import opened Wrappers
  import opened Text
  import opened Http
  import opened Tables
  import opened CategoriesCodec
  import opened PublicCatalog

  // ---------------------------------------------------------------------------
  // Ordering

  /** The columns the listing may be ordered by. */
  const SortColumns: seq<string> := ["created_at", "name", "downloads", "views", "price", "updated_at"]

  /** The directions the listing may be ordered in. */
  const Orders: seq<string> := ["ASC", "DESC"]

  /**
   * `sortBy || 'created_at'`, kept only when it is one of the allowed columns;
   * anything else orders by `created_at`.
   */
  function SafeSortBy(sortBy: Option<string>): (r: string)
    ensures r in SortColumns
    ensures sortBy.Some? && sortBy.value in SortColumns ==> r == sortBy.value
    ensures !(sortBy.Some? && sortBy.value in SortColumns) ==> r == "created_at"
  {
    var requested := OrElse(sortBy, Some("created_at")).value;
    if requested in SortColumns then requested else "created_at"
  }

  /**
   * `(order || 'DESC').toUpperCase()`, kept only when it is `ASC` or `DESC`;
   * anything else orders descending. The match ignores case.
   */
  function SafeOrder(order: Option<string>): (r: string)
    ensures r == "ASC" || r == "DESC"
    ensures r == "ASC" <==> order.Some? && ToUpper(order.value) == "ASC"
  {
    var upper := ToUpper(OrElse(order, Some("DESC")).value);
    if upper in Orders then upper else "DESC"
  }

  /** A lower-case `asc` is accepted and upper-cased. */
  lemma LowerCaseAscending()
    ensures SafeOrder(Some("asc")) == "ASC"
  {
    assert ToUpper("asc") == "ASC";
  }

  // ---------------------------------------------------------------------------
  // The listing statement

  const StatusClause := " AND status = " + "?"

  /** A status that is absent, empty or `all` does not filter. */
  predicate StatusActive(status: Option<string>) {
    Truthy(status) && status.value != "all"
  }

  function OrderBy(column: string, direction: string): string {
    " ORDER BY " + column + " " + direction
  }

  /**
   * The listing statement. Its arguments are whether the status filter applies
   * and the ordering, so the requested status never reaches the text.
   */
  function ListStatement(status: bool, column: string, direction: string): string {
    SelectAll + Optional(status, StatusClause) + OrderBy(column, direction)
  }

  /** No allowed column or direction holds a `?`. */
  lemma OrderByCount(column: string, direction: string)
    requires column in SortColumns && direction in Orders
    ensures CountChar(OrderBy(column, direction), '?') == 0
  {
    assert '?' !in column;
    assert '?' !in direction;
    CountCharAbsent(OrderBy(column, direction), '?');
  }

  lemma CountStatus() ensures CountChar(StatusClause, '?') == 1 {
    CountCharOne(" AND status = ", "", '?');
    assert StatusClause == " AND status = " + ['?'] + "";
  }

  /** The listing statement has a `?` exactly when the status filter applies. */
  lemma ListPlaceholders(status: bool, column: string, direction: string)
    requires column in SortColumns && direction in Orders
    ensures CountChar(ListStatement(status, column, direction), '?') == if status then 1 else 0
  {
    CountSelect();
    CountStatus();
    OrderByCount(column, direction);
    OptionalCount(status, StatusClause, 1);
    SurroundedCount(SelectAll, Optional(status, StatusClause), OrderBy(column, direction),
      if status then 1 else 0);
  }

  /**
   * Builds the listing statement as the handler does: the status clause and
   * its one parameter when the status filter applies, then the ordering by an
   * allowed column and direction.
   */
  method BuildListQuery(status: Option<string>, sortBy: Option<string>, order: Option<string>)
    returns (sql: string, params: seq<string>)
    ensures sql == ListStatement(StatusActive(status), SafeSortBy(sortBy), SafeOrder(order))
    ensures StatusActive(status) ==> params == [status.value]
    ensures !StatusActive(status) ==> params == []
    ensures CountChar(sql, '?') == |params|
  {
    var on := StatusActive(status);
    sql, params := AddFilter(SelectAll, [], on, StatusClause, if on then [status.value] else []);
    var column := SafeSortBy(sortBy);
    var direction := SafeOrder(order);
    sql := sql + OrderBy(column, direction);
    ListPlaceholders(on, column, direction);
  }

  /** A column outside the allow-list orders the listing exactly as `created_at` does. */
  lemma UnlistedColumnIgnored(status: Option<string>, sortBy: string, order: Option<string>)
    requires sortBy !in SortColumns
    ensures ListStatement(StatusActive(status), SafeSortBy(Some(sortBy)), SafeOrder(order))
         == ListStatement(StatusActive(status), "created_at", SafeOrder(order))
  {
  }

  // ---------------------------------------------------------------------------
  // Normalising a row

  /** A row as the admin listing returns it. */
  datatype AdminRow = AdminRow(row: Row, isFree: bool, featured: bool, categories: seq<Category>)

  /**
   * `is_free` and `featured` as booleans; `categories` decoded when the column
   * is not empty, otherwise the single stored `category`. A column that does
   * not decode makes the listing fail.
   */
  function Normalise(row: Row): (r: Option<AdminRow>)
    ensures r.None? <==> Truthy(row.categories) && Decode(row.categories.value).None?
    ensures r.Some? ==> r.value.row == row
    ensures r.Some? ==> (r.value.isFree <==> row.isFree != 0) && (r.value.featured <==> row.featured != 0)
    ensures r.Some? && !Truthy(row.categories) ==> r.value.categories == [row.category]
    ensures r.Some? && Truthy(row.categories) ==> Decode(row.categories.value) == Some(r.value.categories)
  {
    if Truthy(row.categories) then
      match Decode(row.categories.value)
      case None => None
      case Some(categories) => Some(AdminRow(row, row.isFree != 0, row.featured != 0, categories))
    else
      Some(AdminRow(row, row.isFree != 0, row.featured != 0, [row.category]))
  }

  /** `themes.map(…)`: every row normalised, or a failure when one of them fails. */
  function NormaliseAll(rows: seq<Row>): (r: Option<seq<AdminRow>>)
    ensures r.Some? <==> forall i :: 0 <= i < |rows| ==> Normalise(rows[i]).Some?
    ensures r.Some? ==> |r.value| == |rows|
    ensures r.Some? ==> forall i :: 0 <= i < |rows| ==> Normalise(rows[i]) == Some(r.value[i])
  {
    if rows == [] then Some([])
    else
      var head, tail := Normalise(rows[0]), NormaliseAll(rows[1..]);
      if head.Some? && tail.Some? then Some([head.value] + tail.value)
      else None
  }

  /**
   * `GET /api/admin/themes`. The statement sent is the one `BuildListQuery`
   * describes; `db` is what running it gave. The normalised rows are returned
   * when the query succeeded and every row normalises; otherwise the reply is
   * a 500.
   */
  method ListAll(status: Option<string>, sortBy: Option<string>, order: Option<string>, db: QueryOutcome)
    returns (sql: string, params: seq<string>, reply: Reply<seq<AdminRow>>)
    ensures sql == ListStatement(StatusActive(status), SafeSortBy(sortBy), SafeOrder(order))
    ensures StatusActive(status) ==> params == [status.value]
    ensures !StatusActive(status) ==> params == []
    ensures CountChar(sql, '?') == |params|
    ensures reply.Ok? <==> db.Rows? && NormaliseAll(db.rows).Some?
    ensures reply.Ok? ==> reply.status == OK && reply.body == NormaliseAll(db.rows).value
    ensures reply.Err? ==> reply == Err(SERVER_ERROR, "Failed to fetch themes")
  {
    sql, params := BuildListQuery(status, sortBy, order);
    if db.QueryFailed? {
      return sql, params, Err(SERVER_ERROR, "Failed to fetch themes");
    }
    var normalised := NormaliseAll(db.rows);
    if normalised.None? {
      return sql, params, Err(SERVER_ERROR, "Failed to fetch themes");
    }
    reply := Ok(OK, normalised.value);
  }

  // ---------------------------------------------------------------------------
  // The request body of create and update

  /**
   * The JSON body. `None` is a field that is absent or `null`; `categories` is
   * `None` also when it is not an array.
   */
  datatype ThemeInput = ThemeInput(
    name: Option<string>,
    description: Option<string>,
    category: Option<string>,
    categories: Option<seq<Category>>,
    technology: Option<string>,
    thumbnail: Option<string>,
    previewUrl: Option<string>,
    downloadUrl: Option<string>,
    deployUrl: Option<string>,
    isFree: Option<bool>,
    price: Option<int>,
    stockQuantity: Option<int>,
    featured: Option<bool>,
    status: Option<string>)

  /** The fields create checks, in the order it checks them. */
  const RequiredFields: seq<string> :=
    ["name", "description", "category", "technology", "thumbnail", "preview_url", "download_url", "deploy_url"]

  /** The value of the `k`-th required field. */
  function Field(input: ThemeInput, k: nat): Option<string>
    requires k < |RequiredFields|
  {
    [input.name, input.description, input.category, input.technology,
     input.thumbnail, input.previewUrl, input.downloadUrl, input.deployUrl][k]
  }

  /** The index of the first required field at or after `from` whose value is falsy. */
  function FirstMissingFrom(input: ThemeInput, from: nat): (r: Option<nat>)
    requires from <= |RequiredFields|
    decreases |RequiredFields| - from
    ensures r.Some? ==> from <= r.value < |RequiredFields| && !Truthy(Field(input, r.value))
    ensures r.Some? ==> forall m :: from <= m < r.value ==> Truthy(Field(input, m))
    ensures r.None? <==> forall m :: from <= m < |RequiredFields| ==> Truthy(Field(input, m))
  {
    if from == |RequiredFields| then None
    else if !Truthy(Field(input, from)) then Some(from)
    else FirstMissingFrom(input, from + 1)
  }

  function FirstMissing(input: ThemeInput): Option<nat> {
    FirstMissingFrom(input, 0)
  }

  /**
   * The handler's check loop: the name of the first required field, in list
   * order, whose value is falsy, or `None` when every one is present.
   */
  method FirstMissingField(input: ThemeInput) returns (missing: Option<string>)
    ensures missing.None? <==> FirstMissing(input).None?
    ensures missing.Some? ==> missing.value == RequiredFields[FirstMissing(input).value]
  {
    var k := 0;
    while k < |RequiredFields|
      invariant 0 <= k <= |RequiredFields|
      invariant forall m :: 0 <= m < k ==> Truthy(Field(input, m))
    {
      if !Truthy(Field(input, k)) {
        return Some(RequiredFields[k]);
      }
      k := k + 1;
    }
    return None;
  }

  /** The supplied `categories` array, or else the single `category`. */
  function DerivedCategories(input: ThemeInput): (r: seq<Category>)
    ensures input.categories.Some? ==> r == input.categories.value
    ensures input.categories.None? ==> r == [input.category]
  {
    if input.categories.Some? then input.categories.value else [input.category]
  }

  /** `categories[0] || category` */
  function PrimaryCategory(input: ThemeInput): (r: Option<string>)
    ensures |DerivedCategories(input)| > 0 && Truthy(DerivedCategories(input)[0]) ==> r == DerivedCategories(input)[0]
    ensures !(|DerivedCategories(input)| > 0 && Truthy(DerivedCategories(input)[0])) ==> r == input.category
  {
    var categories := DerivedCategories(input);
    if |categories| > 0 && Truthy(categories[0]) then categories[0] else input.category
  }

  /** Without a `categories` array, the primary category is the given `category`. */
  lemma PrimaryWithoutArray(input: ThemeInput)
    requires input.categories.None? || input.categories == Some([])
    ensures PrimaryCategory(input) == input.category
  {
  }

  /**
   * The row create and update write over `base`: every listed column comes
   * from the body, with the defaults applied only to fields that are absent
   * or `null`; the id and the two counters are not written.
   */
  function Written(input: ThemeInput, base: Row): (r: Row)
    ensures r.id == base.id && r.downloads == base.downloads && r.views == base.views
    ensures r.name == input.name && r.description == input.description && r.technology == input.technology
    ensures r.thumbnail == input.thumbnail && r.previewUrl == input.previewUrl
    ensures r.downloadUrl == input.downloadUrl && r.deployUrl == input.deployUrl
    ensures r.category == PrimaryCategory(input) && r.categories == Some(Encode(DerivedCategories(input)))
    ensures r.isFree == 0 <==> input.isFree == Some(false)
    ensures r.featured == 1 <==> input.featured == Some(true)
    ensures r.isFree == 0 || r.isFree == 1
    ensures r.featured == 0 || r.featured == 1
    ensures input.price.None? ==> r.price == 0
    ensures input.price.Some? ==> r.price == input.price.value
    ensures r.stockQuantity == input.stockQuantity
    ensures input.status.None? ==> r.status == "active"
    ensures input.status.Some? ==> r.status == input.status.value
  {
    base.(
      name := input.name,
      description := input.description,
      category := PrimaryCategory(input),
      categories := Some(Encode(DerivedCategories(input))),
      technology := input.technology,
      thumbnail := input.thumbnail,
      previewUrl := input.previewUrl,
      downloadUrl := input.downloadUrl,
      deployUrl := input.deployUrl,
      isFree := if input.isFree.GetOr(true) then 1 else 0,
      price := input.price.GetOr(0),
      stockQuantity := input.stockQuantity,
      featured := if input.featured.GetOr(false) then 1 else 0,
      status := input.status.GetOr("active"))
  }

  /** A written row is listed with exactly the categories it was written with. */
  lemma WrittenCategoriesRoundTrip(input: ThemeInput, base: Row)
    ensures Normalise(Written(input, base)).Some?
    ensures Normalise(Written(input, base)).value.categories == DerivedCategories(input)
  {
    var r := Written(input, base);
    DecodeEncode(DerivedCategories(input));
    assert Truthy(r.categories);
  }

  /** An empty `categories` array is stored as `[]`, with the given `category` as primary. */
  lemma EmptyCategoriesArray(input: ThemeInput, base: Row)
    requires input.categories == Some([])
    ensures Written(input, base).categories == Some("[]")
    ensures Written(input, base).category == input.category
  {
    assert EncodeItems([]) == "";
    assert Encode([]) == "[" + "" + "]" == "[]";
  }

  // ---------------------------------------------------------------------------
  // Create, update, delete

  /** The success body of the write handlers. */
  datatype Ack = Ack(id: Option<int>, message: string)

  /** What create writes over before the database assigns the id; the counters start at zero. */
  const Blank := Row(0, None, None, None, None, None, None, None, None, None, 0, 0, None, 0, 0, 0, "")

  /**
   * The rewrite update applies to a matching row: it keeps the id and the two
   * counters, and the old values of the other columns do not matter.
   */
  function Rewrite(input: ThemeInput): (g: Row -> Row)
    ensures forall x :: g(x).id == x.id && g(x).downloads == x.downloads && g(x).views == x.views
    ensures forall x: Row, y: Row :: x.id == y.id && x.downloads == y.downloads && x.views == y.views ==> g(x) == g(y)
    ensures forall x :: g(x) == Written(input, x)
  {
    x => Written(input, x)
  }

  /** The table after update: the rows with the id rewritten, the others as they were. */
  function Replaced(rows: seq<Row>, id: int, input: ThemeInput): (r: seq<Row>)
    ensures |r| == |rows|
    ensures forall i :: 0 <= i < |rows| && rows[i].id == id ==> r[i] == Written(input, rows[i])
    ensures forall i :: 0 <= i < |rows| && rows[i].id != id ==> r[i] == rows[i]
  {
    UpdateWhere(rows, id, Rewrite(input))
  }

  /** Updating an id that no row has leaves the table as it was (and still reports success). */
  lemma ReplacedMissingId(rows: seq<Row>, id: int, input: ThemeInput)
    requires !HasId(rows, id)
    ensures Replaced(rows, id, input) == rows
  {
    forall i | 0 <= i < |rows| ensures Replaced(rows, id, input)[i] == rows[i] {
      assert rows[i].id != id;
    }
  }

  /**
   * `POST /api/admin/themes`. A falsy required field gives a 400 naming the
   * first one and writes nothing; `fails` is the insert throwing, which gives a
   * 500 and writes nothing; otherwise the written row is stored under a fresh
   * id, which the 201 reply carries.
   */
  method Create(db: ThemeDatabase, input: ThemeInput, fails: bool) returns (reply: Reply<Ack>)
    requires db.Valid()
    modifies db
    ensures db.Valid()
    ensures FirstMissing(input).Some? ==>
      reply == Err(BAD_REQUEST, "Missing required field: " + RequiredFields[FirstMissing(input).value])
      && unchanged(db)
    ensures FirstMissing(input).None? && fails ==>
      reply == Err(SERVER_ERROR, "Failed to create theme") && unchanged(db)
    ensures FirstMissing(input).None? && !fails ==>
      && reply == Ok(CREATED, Ack(Some(old(db.nextId)), "Theme created successfully"))
      && db.rows == old(db.rows) + [Written(input, Blank).(id := old(db.nextId))]
      && db.log == old(db.log) && db.nextId == old(db.nextId) + 1
  {
    var missing := FirstMissingField(input);
    if missing.Some? {
      return Err(BAD_REQUEST, "Missing required field: " + missing.value);
    }
    if fails {
      return Err(SERVER_ERROR, "Failed to create theme");
    }
    var id := db.Insert(Written(input, Blank));
    reply := Ok(CREATED, Ack(Some(id), "Theme created successfully"));
  }

  /**
   * `PUT /api/admin/themes?id=…`. Without an id the reply is a 400 and nothing
   * is written; `fails` is the update throwing (500, nothing written); otherwise
   * every row with the id is rewritten and success is reported whether or not
   * such a row exists.
   */
  method Update(db: ThemeDatabase, id: Option<int>, input: ThemeInput, fails: bool) returns (reply: Reply<Ack>)
    requires db.Valid()
    modifies db
    ensures db.Valid()
    ensures id.None? ==> reply == Err(BAD_REQUEST, "Theme ID is required") && unchanged(db)
    ensures id.Some? && fails ==> reply == Err(SERVER_ERROR, "Failed to update theme") && unchanged(db)
    ensures id.Some? && !fails ==>
      && reply == Ok(OK, Ack(None, "Theme updated successfully"))
      && db.rows == Replaced(old(db.rows), id.value, input)
      && db.log == old(db.log) && db.nextId == old(db.nextId)
  {
    if id.None? {
      return Err(BAD_REQUEST, "Theme ID is required");
    }
    if fails {
      return Err(SERVER_ERROR, "Failed to update theme");
    }
    db.Update(id.value, Rewrite(input));
    reply := Ok(OK, Ack(None, "Theme updated successfully"));
  }

  /**
   * `DELETE /api/admin/themes?id=…`. Without an id the reply is a 400 and
   * nothing is removed; `fails` is the delete throwing (500); otherwise the
   * rows with the id are removed and success is reported whether or not such a
   * row existed.
   */
  method Delete(db: ThemeDatabase, id: Option<int>, fails: bool) returns (reply: Reply<Ack>)
    requires db.Valid()
    modifies db
    ensures db.Valid()
    ensures id.None? ==> reply == Err(BAD_REQUEST, "Theme ID is required") && unchanged(db)
    ensures id.Some? && fails ==> reply == Err(SERVER_ERROR, "Failed to delete theme") && unchanged(db)
    ensures id.Some? && !fails ==>
      && reply == Ok(OK, Ack(None, "Theme deleted successfully"))
      && db.rows == DeleteWhere(old(db.rows), id.value)
      && !HasId(db.rows, id.value)
      && db.log == old(db.log) && db.nextId == old(db.nextId)
  {
    if id.None? {
      return Err(BAD_REQUEST, "Theme ID is required");
    }
    if fails {
      return Err(SERVER_ERROR, "Failed to delete theme");
    }
    DeleteWhereIdempotent(db.rows, id.value);
    db.Delete(id.value);
    reply := Ok(OK, Ack(None, "Theme deleted successfully"));
  }
}
