/**
 * The public catalogue listing (`GET /api/themes`): it builds a parameterised
 * `SELECT` from the technology, category, free-only and search filters, returns
 * the database rows when there are any, and otherwise falls back to a fixed list
 * of three themes filtered in memory by the same filters.
 */
module PublicCatalog {
  import opened Wrappers
  import opened Text
  import opened Tables

  /** A catalogue entry as the fallback list holds it. */
  datatype Theme = Theme(
    id: int,
    name: string,
    description: string,
    category: string,
    technology: string,
    thumbnail: string,
    previewUrl: string,
    downloadUrl: string,
    deployUrl: string,
    isFree: bool)

  /** The fallback used when the database fails or has no matching rows. */
  function MockThemes(): (r: seq<Theme>)
    ensures |r| == 3
  {
    seq(3, k requires 0 <= k < 3 => MockTheme(k))
  }

  /** The `k`-th entry of the fallback list. */
  function MockTheme(k: nat): Theme
    requires k < 3
  {
    if k == 0 then
      Theme(1, "Modern Business Pro",
        "A sleek and professional business website template with modern design elements.",
        "Business", "React",
        "https://images.unsplash.com/photo-1460925895917-afdab827c52f?w=800&h=600&fit=crop",
        "https://preview.craftuary.com/modern-business",
        "https://github.com/craftuary/modern-business",
        "https://vercel.com/new/clone?repository-url=https://github.com/craftuary/modern-business",
        true)
    else if k == 1 then
      Theme(2, "Tech Blog Minimalist",
        "Beautiful minimalist blog template optimized for technical content.",
        "Blog", "Next.js",
        "https://images.unsplash.com/photo-1499750310107-5fef28a66643?w=800&h=600&fit=crop",
        "https://preview.craftuary.com/tech-blog",
        "https://github.com/craftuary/tech-blog",
        "https://vercel.com/new/clone?repository-url=https://github.com/craftuary/tech-blog",
        true)
    else
      Theme(3, "Portfolio Pro",
        "Showcase your work beautifully with this stunning portfolio template.",
        "Portfolio", "Vue",
        "https://images.unsplash.com/photo-1507238691740-187a5b1d37b8?w=800&h=600&fit=crop",
        "https://preview.craftuary.com/portfolio-pro",
        "https://github.com/craftuary/portfolio-pro",
        "https://vercel.com/new/clone?repository-url=https://github.com/craftuary/portfolio-pro",
        true)
  }


  /** The query-string parameters; `None` is an absent parameter. */
  datatype Filters = Filters(
    technology: Option<string>,
    category: Option<string>,
    search: Option<string>,
    isFree: Option<string>)

  // ---------------------------------------------------------------------------
  // Which filters apply

  /** A technology that is absent, empty or the sentinel `All` does not filter. */
  predicate TechnologyActive(f: Filters) {
    Truthy(f.technology) && f.technology.value != "All"
  }

  predicate CategoryActive(f: Filters) {
    Truthy(f.category) && f.category.value != "All"
  }

  /** Only the exact string `true` asks for free themes. */
  predicate FreeOnly(f: Filters) {
    f.isFree == Some("true")
  }

  /** A search that is absent, empty or only white space does not filter. */
  predicate SearchActive(f: Filters) {
    Truthy(f.search) && Trim(f.search.value) != ""
  }

  // ---------------------------------------------------------------------------
  // The statement

  const SelectAll := "SELECT * FROM themes WHERE 1=1"
  const TechnologyClause := " AND technology = " + "?"
  const CategoryClause := " AND category = " + "?"
  const FreeClause := " AND is_free = 1"
  const SearchClause := " AND (name LIKE " + "?" + " OR description LIKE " + "?" + ")"
  const OrderNewest := " ORDER BY created_at DESC"

  /** A clause that is present only when its filter is active. */
  function Optional(on: bool, clause: string): (r: string)
    ensures on ==> r == clause
    ensures !on ==> r == []
  {
    if on then clause else ""
  }

  /** The clauses appended between the `SELECT` and the ordering, in the handler's order. */
  function Filtering(technology: bool, category: bool, free: bool, search: bool): string {
    Optional(technology, TechnologyClause)
    + Optional(category, CategoryClause)
    + Optional(free, FreeClause)
    + Optional(search, SearchClause)
  }

  /**
   * The statement text. Its arguments are only which filters are active, so no
   * filter value can reach the text.
   */
  function StatementText(technology: bool, category: bool, free: bool, search: bool): string {
    SelectAll + Filtering(technology, category, free, search) + OrderNewest
  }

  /** The untrimmed search term wrapped for `LIKE`. */
  function SearchPattern(term: string): (r: string)
    ensures |r| == |term| + 2 && r[0] == '%' && r[|r| - 1] == '%' && r[1..|r| - 1] == term
  {
    "%" + term + "%"
  }

  /** The bound parameters, in placeholder order. */
  function Params(f: Filters): seq<string> {
    OptionalParams(TechnologyActive(f), if TechnologyActive(f) then [f.technology.value] else [])
    + OptionalParams(CategoryActive(f), if CategoryActive(f) then [f.category.value] else [])
    + OptionalParams(SearchActive(f), if SearchActive(f) then [SearchPattern(f.search.value), SearchPattern(f.search.value)] else [])
  }

  /** The number of placeholders each active filter contributes. */
  function PlaceholderCount(technology: bool, category: bool, search: bool): nat {
    (if technology then 1 else 0) + (if category then 1 else 0) + (if search then 2 else 0)
  }

  /**
   * Whatever the filters, the statement starts with the unfiltered `SELECT`
   * and ends ordered newest first.
   */
  lemma StatementEnds(technology: bool, category: bool, free: bool, search: bool)
    ensures var sql := StatementText(technology, category, free, search);
      && |sql| >= |SelectAll| + |OrderNewest|
      && sql[..|SelectAll|] == SelectAll
      && sql[|sql| - |OrderNewest|..] == OrderNewest
  {
    Ends(SelectAll, Filtering(technology, category, free, search), OrderNewest);
  }

  /**
   * The statement's `?` count is one per technology and category filter and
   * two for a search; the free-only filter adds none.
   */
  lemma StatementPlaceholders(technology: bool, category: bool, free: bool, search: bool)
    ensures CountChar(StatementText(technology, category, free, search), '?')
      == PlaceholderCount(technology, category, search)
  {
    FilteringPlaceholders(technology, category, free, search);
    CountSelect();
    CountOrder();
    SurroundedCount(SelectAll, Filtering(technology, category, free, search), OrderNewest,
      PlaceholderCount(technology, category, search));
  }

  /** `a` starts and `z` ends `a + m + z`. */
  lemma Ends(a: string, m: string, z: string)
    ensures |a + m + z| >= |a| + |z|
    ensures (a + m + z)[..|a|] == a && (a + m + z)[|a + m + z| - |z|..] == z
  {
  }

  /** The `?` count of the filtering clauses. */
  lemma FilteringPlaceholders(technology: bool, category: bool, free: bool, search: bool)
    ensures CountChar(Filtering(technology, category, free, search), '?')
      == PlaceholderCount(technology, category, search)
  {
    CountTechnology();
    CountCategory();
    CountFree();
    CountSearch();
    ClausesCount(technology, category, free, search, TechnologyClause, CategoryClause, FreeClause, SearchClause);
  }

  /** An absent clause has no placeholder; a present one has its own. */
  lemma OptionalCount(on: bool, clause: string, n: nat)
    requires CountChar(clause, '?') == n
    ensures CountChar(Optional(on, clause), '?') == if on then n else 0
  {
    if !on {
      assert Optional(on, clause) == [];
    }
  }

  /** The `?` count of four optional clauses with one, one, none and two placeholders. */
  lemma ClausesCount(technology: bool, category: bool, free: bool, search: bool,
                     tc: string, cc: string, fc: string, sc: string)
    requires CountChar(tc, '?') == 1 && CountChar(cc, '?') == 1
    requires CountChar(fc, '?') == 0 && CountChar(sc, '?') == 2
    ensures CountChar(Optional(technology, tc) + Optional(category, cc) + Optional(free, fc)
      + Optional(search, sc), '?') == PlaceholderCount(technology, category, search)
  {
    var t := Optional(technology, tc);
    var c := Optional(category, cc);
    var fr := Optional(free, fc);
    var s := Optional(search, sc);
    OptionalCount(technology, tc, 1);
    OptionalCount(category, cc, 1);
    OptionalCount(free, fc, 0);
    OptionalCount(search, sc, 2);
    CountCharAppend(t, c, '?');
    CountCharAppend(t + c, fr, '?');
    CountCharAppend(t + c + fr, s, '?');
  }

  /** Wrapping text between two pieces without `?` keeps its `?` count. */
  lemma SurroundedCount(head: string, m: string, tail: string, n: nat)
    requires CountChar(head, '?') == 0 && CountChar(tail, '?') == 0 && CountChar(m, '?') == n
    ensures CountChar(head + m + tail, '?') == n
  {
    CountCharAppend(head, m, '?');
    CountCharAppend(head + m, tail, '?');
  }

  lemma CountSelect() ensures CountChar(SelectAll, '?') == 0 { CountCharAbsent(SelectAll, '?'); }
  lemma CountOrder() ensures CountChar(OrderNewest, '?') == 0 { CountCharAbsent(OrderNewest, '?'); }
  lemma CountFree() ensures CountChar(FreeClause, '?') == 0 { CountCharAbsent(FreeClause, '?'); }
  lemma CountTechnology() ensures CountChar(TechnologyClause, '?') == 1 {
    CountCharOne(" AND technology = ", "", '?');
    assert TechnologyClause == " AND technology = " + ['?'] + "";
  }
  lemma CountCategory() ensures CountChar(CategoryClause, '?') == 1 {
    CountCharOne(" AND category = ", "", '?');
    assert CategoryClause == " AND category = " + ['?'] + "";
  }
  lemma CountSearch() ensures CountChar(SearchClause, '?') == 2 {
    CountCharTwo(" AND (name LIKE ", " OR description LIKE ", ")", '?');
  }

  /** Values bound only when their filter is active. */
  function OptionalParams(on: bool, values: seq<string>): (r: seq<string>)
    ensures on ==> r == values
    ensures !on ==> r == []
  {
    if on then values else []
  }

  /**
   * One step of the handler: when the filter is active, append its clause to
   * the text and push its values onto the parameters.
   */
  method AddFilter(sql: string, params: seq<string>, on: bool, clause: string, values: seq<string>)
    returns (sql': string, params': seq<string>)
    ensures sql' == sql + Optional(on, clause)
    ensures params' == params + OptionalParams(on, values)
  {
    sql', params' := sql, params;
    if on {
      sql' := sql' + clause;
      params' := params' + values;
    } else {
      assert sql + Optional(on, clause) == sql && params + OptionalParams(on, values) == params;
    }
  }

  /** Regrouping the six pieces of the statement. */
  lemma Regroup(a: string, b: string, c: string, d: string, e: string, z: string)
    ensures a + b + c + d + e + z == a + (b + c + d + e) + z
  {
  }

  /** Reordering the parameter groups around the empty ones. */
  lemma ParamsRegroup(a: seq<string>, b: seq<string>, d: seq<string>, c: seq<string>)
    requires d == []
    ensures [] + a + b + d + c == a + b + c
  {
  }

  /**
   * The handler's appends, once it has decided which filters are active:
   * starting from the unfiltered `SELECT` and no parameters, each active
   * filter appends its clause and pushes its values, and the ordering comes
   * last.
   */
  method AppendClauses(technology: bool, category: bool, free: bool, search: bool,
                       t: seq<string>, c: seq<string>, s: seq<string>) returns (sql: string, params: seq<string>)
    ensures sql == StatementText(technology, category, free, search)
    ensures params == OptionalParams(technology, t) + OptionalParams(category, c) + OptionalParams(search, s)
  {
    sql, params := AddFilter(SelectAll, [], technology, TechnologyClause, t);
    sql, params := AddFilter(sql, params, category, CategoryClause, c);
    sql, params := AddFilter(sql, params, free, FreeClause, []);
    sql, params := AddFilter(sql, params, search, SearchClause, s);
    sql := sql + OrderNewest;
    Regroup(SelectAll, Optional(technology, TechnologyClause), Optional(category, CategoryClause),
      Optional(free, FreeClause), Optional(search, SearchClause), OrderNewest);
    ParamsRegroup(OptionalParams(technology, t), OptionalParams(category, c), OptionalParams(free, []),
      OptionalParams(search, s));
  }

  /**
   * Builds the statement and its parameters as the handler does. The text
   * depends only on which filters are active, there is one placeholder per
   * parameter, and each filter value travels only as a parameter: the
   * technology, then the category, then the `%`-wrapped search twice (for
   * name and for description).
   */
  method BuildQuery(f: Filters) returns (sql: string, params: seq<string>)
    ensures sql == StatementText(TechnologyActive(f), CategoryActive(f), FreeOnly(f), SearchActive(f))
    ensures params == Params(f)
    ensures CountChar(sql, '?') == |params|
  {
    var technology, category, free, search := TechnologyActive(f), CategoryActive(f), FreeOnly(f), SearchActive(f);
    var t := if technology then [f.technology.value] else [];
    var c := if category then [f.category.value] else [];
    var s := if search then [SearchPattern(f.search.value), SearchPattern(f.search.value)] else [];
    sql, params := AppendClauses(technology, category, free, search, t, c, s);
    QueryPlaceholders(f);
  }

  /** The statement has one `?` for each bound parameter. */
  lemma QueryPlaceholders(f: Filters)
    ensures CountChar(StatementText(TechnologyActive(f), CategoryActive(f), FreeOnly(f), SearchActive(f)), '?')
      == |Params(f)|
  {
    StatementPlaceholders(TechnologyActive(f), CategoryActive(f), FreeOnly(f), SearchActive(f));
  }

  // ---------------------------------------------------------------------------
  // The fallback filter

  /** `s.filter(p)`: the elements satisfying `p`, in their order, each as often as in `s`. */
  function Keep(s: seq<Theme>, p: Theme -> bool): (r: seq<Theme>)
    ensures |r| <= |s|
    ensures forall x :: x in r <==> x in s && p(x)
    ensures forall x :: multiset(r)[x] == if p(x) then multiset(s)[x] else 0
  {
    if s == [] then []
    else
      assert s == [s[0]] + s[1..];
      (if p(s[0]) then [s[0]] else []) + Keep(s[1..], p)
  }

  /** `a` is `b` with some elements left out, the rest in their order. */
  predicate IsSubsequence(a: seq<Theme>, b: seq<Theme>) {
    if a == [] then true
    else if b == [] then false
    else if a[0] == b[0] then IsSubsequence(a[1..], b[1..])
    else IsSubsequence(a, b[1..])
  }

  lemma {:induction false} KeepIsSubsequence(s: seq<Theme>, p: Theme -> bool)
    ensures IsSubsequence(Keep(s, p), s)
  {
    if s != [] {
      KeepIsSubsequence(s[1..], p);
      var r := Keep(s, p);
      if p(s[0]) {
        assert r[0] == s[0] && r[1..] == Keep(s[1..], p);
      } else {
        assert r == Keep(s[1..], p);
        SubsequenceSkip(r, s);
      }
    }
  }

  lemma {:induction false} SubsequenceSkip(a: seq<Theme>, b: seq<Theme>)
    requires b != [] && IsSubsequence(a, b[1..])
    ensures IsSubsequence(a, b)
    decreases |a| + |b|
  {
    if a != [] && a[0] == b[0] {
      SubsequenceTail(a, b[1..]);
    }
  }

  lemma {:induction false} SubsequenceTail(a: seq<Theme>, b: seq<Theme>)
    requires a != [] && IsSubsequence(a, b)
    ensures IsSubsequence(a[1..], b)
    decreases |a| + |b|
  {
    assert b != [];
    if a[0] == b[0] {
      if a[1..] != [] {
        SubsequenceSkip(a[1..], b);
      }
    } else {
      SubsequenceTail(a, b[1..]);
      SubsequenceSkip(a[1..], b);
    }
  }

  /** Two filters that agree on every element keep the same elements. */
  lemma {:induction false} KeepExt(s: seq<Theme>, p: Theme -> bool, q: Theme -> bool)
    requires forall x :: p(x) == q(x)
    ensures Keep(s, p) == Keep(s, q)
  {
    if s != [] { KeepExt(s[1..], p, q); }
  }

  /** Filtering twice is filtering once by the conjunction. */
  lemma {:induction false} KeepThen(s: seq<Theme>, p: Theme -> bool, q: Theme -> bool, both: Theme -> bool)
    requires forall x :: both(x) == (p(x) && q(x))
    ensures Keep(Keep(s, p), q) == Keep(s, both)
  {
    if s != [] {
      KeepThen(s[1..], p, q, both);
      var once := Keep(s, p);
      if p(s[0]) {
        assert once[0] == s[0] && once[1..] == Keep(s[1..], p);
      } else {
        assert once == Keep(s[1..], p);
      }
    }
  }

  /** Case-insensitive (ASCII) substring match on name or description. */
  predicate SearchHit(term: string, t: Theme) {
    Contains(ToLower(t.name), ToLower(term)) || Contains(ToLower(t.description), ToLower(term))
  }

  predicate PassesTechnology(f: Filters, t: Theme) {
    TechnologyActive(f) ==> t.technology == f.technology.value
  }

  predicate PassesCategory(f: Filters, t: Theme) {
    CategoryActive(f) ==> t.category == f.category.value
  }

  predicate PassesFree(f: Filters, t: Theme) {
    FreeOnly(f) ==> t.isFree
  }

  predicate PassesSearch(f: Filters, t: Theme) {
    SearchActive(f) ==> SearchHit(f.search.value, t)
  }

  /** A theme satisfies every active filter. */
  predicate Matches(f: Filters, t: Theme) {
    PassesTechnology(f, t) && PassesCategory(f, t) && PassesFree(f, t) && PassesSearch(f, t)
  }

  /** The themes of `base` that satisfy every active filter, in `base`'s order. */
  function Selected(base: seq<Theme>, f: Filters): seq<Theme> {
    Keep(base, t => Matches(f, t))
  }

  /**
   * The fallback result is a subsequence of the list it filters and holds exactly
   * the themes that satisfy every active filter.
   */
  lemma SelectedSpec(base: seq<Theme>, f: Filters)
    ensures IsSubsequence(Selected(base, f), base)
    ensures forall t :: t in Selected(base, f) <==> t in base && Matches(f, t)
    ensures forall t :: multiset(Selected(base, f))[t] == if Matches(f, t) then multiset(base)[t] else 0
  {
    KeepIsSubsequence(base, t => Matches(f, t));
  }

  /** With no active filter the whole list is returned. */
  lemma SelectedUnfiltered(base: seq<Theme>, f: Filters)
    requires !TechnologyActive(f) && !CategoryActive(f) && !FreeOnly(f) && !SearchActive(f)
    ensures Selected(base, f) == base
  {
    KeepExt(base, t => Matches(f, t), t => true);
    KeepAll(base, t => true);
  }

  lemma {:induction false} KeepAll(s: seq<Theme>, p: Theme -> bool)
    requires forall x :: p(x)
    ensures Keep(s, p) == s
  {
    if s != [] {
      KeepAll(s[1..], p);
      assert [s[0]] + s[1..] == s;
    }
  }

  /**
   * Filters `base` as the handler does, one active filter after another, each
   * pass keeping the survivors of the previous one; the result is the
   * single-pass selection by every active filter.
   */
  method FilterFallback(base: seq<Theme>, f: Filters) returns (filtered: seq<Theme>)
    ensures filtered == Selected(base, f)
  {
    ghost var p1 := (t: Theme) => PassesTechnology(f, t);
    ghost var p2 := (t: Theme) => PassesTechnology(f, t) && PassesCategory(f, t);
    ghost var p3 := (t: Theme) => PassesTechnology(f, t) && PassesCategory(f, t) && PassesFree(f, t);
    filtered := base;
    if TechnologyActive(f) {
      var technology := f.technology.value;
      filtered := Keep(filtered, (t: Theme) => t.technology == technology);
      KeepExt(base, (t: Theme) => t.technology == technology, p1);
    } else {
      KeepAll(base, p1);
    }
    assert filtered == Keep(base, p1);
    if CategoryActive(f) {
      var category := f.category.value;
      filtered := Keep(filtered, (t: Theme) => t.category == category);
      KeepThen(base, p1, (t: Theme) => t.category == category, p2);
    } else {
      KeepExt(base, p1, p2);
    }
    assert filtered == Keep(base, p2);
    if FreeOnly(f) {
      filtered := Keep(filtered, (t: Theme) => t.isFree);
      KeepThen(base, p2, (t: Theme) => t.isFree, p3);
    } else {
      KeepExt(base, p2, p3);
    }
    assert filtered == Keep(base, p3);
    if SearchActive(f) {
      var searchLower := ToLower(f.search.value);
      filtered := Keep(filtered, (t: Theme) =>
        Contains(ToLower(t.name), searchLower) || Contains(ToLower(t.description), searchLower));
      KeepThen(base, p3, (t: Theme) =>
        Contains(ToLower(t.name), searchLower) || Contains(ToLower(t.description), searchLower),
        t => Matches(f, t));
    } else {
      KeepExt(base, p3, t => Matches(f, t));
    }
  }

  // ---------------------------------------------------------------------------
  // The handler

  /** A database row as returned to the client: every column, with `is_free` as a boolean. */
  datatype PublicRow = PublicRow(row: Row, isFree: bool)

  /** The response body: database rows, or the filtered fallback list. */
  datatype Listing = FromDatabase(rows: seq<PublicRow>) | FromFallback(themes: seq<Theme>)

  /** `themes.map(theme => ({ ...theme, is_free: Boolean(theme.is_free) }))` */
  function WithBooleanIsFree(rows: seq<Row>): (r: seq<PublicRow>)
    ensures |r| == |rows|
    ensures forall i :: 0 <= i < |rows| ==> r[i].row == rows[i] && (r[i].isFree <==> rows[i].isFree != 0)
  {
    seq(|rows|, i requires 0 <= i < |rows| => PublicRow(rows[i], rows[i].isFree != 0))
  }

  /**
   * `GET /api/themes`. The statement sent is the one `BuildQuery` describes;
   * `db` is what running it gave. The database rows are returned exactly when the
   * query succeeded with at least one row; otherwise the fallback list filtered by
   * the same filters is returned, never an error.
   */
  method List(f: Filters, db: QueryOutcome) returns (sql: string, params: seq<string>, listing: Listing)
    ensures sql == StatementText(TechnologyActive(f), CategoryActive(f), FreeOnly(f), SearchActive(f))
    ensures params == Params(f) && CountChar(sql, '?') == |params|
    ensures listing.FromDatabase? <==> db.Rows? && db.rows != []
    ensures listing.FromDatabase? ==> listing.rows == WithBooleanIsFree(db.rows)
    ensures listing.FromFallback? ==> listing.themes == Selected(MockThemes(), f)
  {
    sql, params := BuildQuery(f);
    if db.Rows? && |db.rows| > 0 {
      listing := FromDatabase(WithBooleanIsFree(db.rows));
      return;
    }
    var themes := FilterFallback(MockThemes(), f);
    listing := FromFallback(themes);
  }

  /**
   * The technology `All` and an absent technology select the same statement,
   * parameters and fallback themes.
   */
  lemma AllTechnologiesUnfiltered(f: Filters, base: seq<Theme>)
    ensures var a := f.(technology := Some("All")); var n := f.(technology := None);
      && StatementText(TechnologyActive(a), CategoryActive(a), FreeOnly(a), SearchActive(a))
         == StatementText(TechnologyActive(n), CategoryActive(n), FreeOnly(n), SearchActive(n))
      && Params(a) == Params(n)
      && Selected(base, a) == Selected(base, n)
  {
    var a := f.(technology := Some("All"));
    var n := f.(technology := None);
    assert !TechnologyActive(a) && !TechnologyActive(n);
    assert CategoryActive(a) == CategoryActive(n) && FreeOnly(a) == FreeOnly(n) && SearchActive(a) == SearchActive(n);
    KeepExt(base, t => Matches(a, t), t => Matches(n, t));
  }

  /**
   * The category `All` and an absent category select the same statement,
   * parameters and fallback themes.
   */
  lemma AllCategoriesUnfiltered(f: Filters, base: seq<Theme>)
    ensures var a := f.(category := Some("All")); var n := f.(category := None);
      && StatementText(TechnologyActive(a), CategoryActive(a), FreeOnly(a), SearchActive(a))
         == StatementText(TechnologyActive(n), CategoryActive(n), FreeOnly(n), SearchActive(n))
      && Params(a) == Params(n)
      && Selected(base, a) == Selected(base, n)
  {
    var a := f.(category := Some("All"));
    var n := f.(category := None);
    assert !CategoryActive(a) && !CategoryActive(n);
    assert TechnologyActive(a) == TechnologyActive(n) && FreeOnly(a) == FreeOnly(n) && SearchActive(a) == SearchActive(n);
    KeepExt(base, t => Matches(a, t), t => Matches(n, t));
  }
}
