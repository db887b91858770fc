# Theme catalogue handlers of a SvelteKit SaaS starter, in Dafny

This project models the server-side core of the theme marketplace in the
`sveltekit-saas-starter` repository. It proves properties of that model.

The core is five pieces:

- **The public listing** (`GET /api/themes`). It builds a parameterised
  `SELECT` from four optional filters: technology, category, free-only and
  search. It returns the database rows when there are any. Otherwise it filters
  a fixed list of three themes in memory with the same filters.
- **The admin catalogue** (`/api/admin/themes`).
  - The listing has a status filter and an allow-listed `ORDER BY`.
  - Each row is normalised: booleans, plus the decoded `categories` column.
  - Create, update and delete act on the `themes` table.
- **Action tracking** (`/api/themes/track`).
  - A view, preview, download or deploy bumps one counter of one theme. It is
    then logged to `theme_analytics` on a best-effort basis.
  - Statistics return one theme's counters, or totals over the active themes.
- **The admin login.** The credentials are compared with configured values,
  which have defaults. A match sets a session cookie.
- **The mailer's decisions.**
  - `{{key}}` placeholders in a template subject are substituted.
  - The early returns of the templated send.
  - The admin notification's guard and subject prefix.

How the model is built:

- The database is a class `Tables.ThemeDatabase` holding:
  - the `themes` rows, as a sequence of records;
  - the analytics log;
  - the next auto-increment id.
- The write handlers are methods that change it. Each takes a `fails` flag,
  which stands for the statement throwing.
- The read handlers take what their query returned, or the table contents,
  as an input.
- Where the source builds a string or filters a list step by step, the model
  does the same in a method. Each such method is proved equal to a
  specification function, and the properties are lemmas about that function.

Modules:

- `Wrappers` and `Http`: `Option` and the reply type.
- `Text`: JavaScript `||`, `trim`, case mapping, `includes` and `replace` with
  a string pattern.
- `CategoriesCodec`: the JSON text of the `categories` column.
- `Tables`: the table class.
- `PublicCatalog`, `AdminCatalog`, `Tracking`, `AdminLogin` and `Mailer`: one
  per source file.

## Model

| member | source | states |
|---|---|---|
| Text.OrElse | src/routes/api/admin/themes/+server.ts:14-15 | `a \|\| b`: the first value when it is a non-empty string, otherwise the second |
| Text.TrimEmptyIff | src/routes/api/themes/+server.ts:73 | `s.trim() === ''` exactly when every character of `s` is white space or a line terminator |
| Text.ToLower | src/routes/api/themes/+server.ts:114-117 | `toLowerCase` keeps the length and maps every character by the letter mapping |
| Text.ToUpper | src/routes/api/admin/themes/+server.ts:30 | `toUpperCase` keeps the length and maps every character by the letter mapping |
| Text.FirstOccurrence | src/lib/mailer.ts:184 | the index found is an occurrence, none comes before it, and there is none exactly when the pattern does not occur |
| Text.Contains | src/routes/api/themes/+server.ts:116-117 | `includes`: the empty pattern is in every text, a pattern longer than the text is in none, and every text includes itself |
| Text.ReplaceFirst | src/lib/mailer.ts:184 | `replace` with a string pattern: the text is unchanged when the pattern does not occur, and otherwise its length changes by the value's length minus the pattern's |
| Text.ReplaceFirstPlaces | src/lib/mailer.ts:184 | `replace` with a string pattern puts the value at the first occurrence, keeps the text before it, shortens the text by the pattern and lengthens it by the value; it changes nothing when the pattern does not occur |
| Text.LaterOccurrenceRemains | src/lib/mailer.ts:184 | an occurrence after the first one is still there after `replace`, shifted by the change in length |
| CategoriesCodec.EscapeChar | src/routes/api/admin/themes/+server.ts:69 | `JSON.stringify` writes each character of a string as one or more printable characters, so no raw control character is written |
| CategoriesCodec.UnescapeEscapeChar | src/routes/api/admin/themes/+server.ts:40-69 | every escape written for a character is decoded back to that character, and decoding uses up the whole escape |
| CategoriesCodec.Encode | src/routes/api/admin/themes/+server.ts:69 | the stored text is a bracketed JSON array with no raw control character in it |
| CategoriesCodec.Decode | src/routes/api/admin/themes/+server.ts:40 | `JSON.parse` of the column: `[]` is the empty list, and only text that opens with `[` and closes with `]` decodes; `DecodeEncode` shows it inverts what is stored |
| CategoriesCodec.RawControlRefused | src/routes/api/admin/themes/+server.ts:36-45 | a raw control character inside a stored string does not decode, so the listing replies 500 as it does when `JSON.parse` throws |
| CategoriesCodec.DecodeEncode | src/routes/api/admin/themes/+server.ts:36-69 | decoding what create and update store gives back exactly the categories they were given |
| Tables.UpdateWhere | src/routes/api/admin/themes/+server.ts:130-148 | rows with the id are rewritten, every other row is kept, the length is kept |
| Tables.DeleteWhere | src/routes/api/admin/themes/+server.ts:190-191 | exactly the rows without the id remain |
| Tables.UpdateWhereKeepsIds | src/routes/api/admin/themes/+server.ts:168-173 | an id-preserving rewrite keeps ids unique, and an id no row has changes nothing |
| Tables.DeleteWhereKeepsUnique | src/routes/api/admin/themes/+server.ts:190-191 | deleting keeps the remaining ids unique |
| Tables.DeleteWhereIdempotent | src/routes/api/admin/themes/+server.ts:190-196 | after a delete no row has the id, and deleting again changes nothing |
| Tables.ThemeDatabase.Insert | src/routes/api/admin/themes/+server.ts:97-101 | the row is appended under a fresh id that is returned, and the ids stay unique |
| Tables.ThemeDatabase.Update | src/routes/api/themes/track/+server.ts:37 | the table becomes `UpdateWhere` of the old one, and the log and next id are kept |
| Tables.ThemeDatabase.Delete | src/routes/api/admin/themes/+server.ts:190-191 | the table becomes `DeleteWhere` of the old one, and the log and next id are kept |
| Tables.ThemeDatabase.AppendLog | src/routes/api/themes/track/+server.ts:41-45 | the log gains exactly the entry, and the rows are kept |
| PublicCatalog.MockThemes | src/routes/api/themes/+server.ts:7-44 | the fallback list has three entries; their contents are its definition |
| PublicCatalog.SearchPattern | src/routes/api/themes/+server.ts:75 | the untrimmed term wrapped in `%` on both sides |
| PublicCatalog.StatementEnds | src/routes/api/themes/+server.ts:55-79 | whatever the filters, the statement starts with `SELECT * FROM themes WHERE 1=1` and ends with ` ORDER BY created_at DESC` |
| PublicCatalog.StatementPlaceholders | src/routes/api/themes/+server.ts:59-77 | the `?` count is 1 per technology or category filter and 2 for a search; free-only adds none |
| PublicCatalog.QueryPlaceholders | src/routes/api/themes/+server.ts:59-77 | the statement has exactly one `?` per bound parameter |
| PublicCatalog.AddFilter | src/routes/api/themes/+server.ts:59-62 | one step appends the clause and pushes the values exactly when its filter is active |
| PublicCatalog.AppendClauses | src/routes/api/themes/+server.ts:55-79 | the successive appends produce the statement text, and the pushes produce the active filters' values in order |
| PublicCatalog.BuildQuery | src/routes/api/themes/+server.ts:55-79 | the text depends only on which filters are active, so no filter value enters it; the parameters are technology, category, then the `%`-wrapped search twice; the `?` count equals the parameter count |
| PublicCatalog.Keep | src/routes/api/themes/+server.ts:102 | `filter` keeps exactly the elements satisfying the predicate, each as many times as it occurs in the input |
| PublicCatalog.KeepIsSubsequence | src/routes/api/themes/+server.ts:99-119 | a filter result is a subsequence of its input, in the original order |
| PublicCatalog.KeepThen | src/routes/api/themes/+server.ts:101-119 | filtering twice in succession is filtering once by the conjunction |
| PublicCatalog.SelectedSpec | src/routes/api/themes/+server.ts:99-119 | the fallback result is a subsequence of the list and holds exactly the themes that satisfy every active filter, each as many times as in the list |
| PublicCatalog.SelectedUnfiltered | src/routes/api/themes/+server.ts:99-121 | with no active filter the whole list is returned |
| PublicCatalog.FilterFallback | src/routes/api/themes/+server.ts:99-119 | the handler's successive filters give the single-pass selection by all active filters |
| PublicCatalog.WithBooleanIsFree | src/routes/api/themes/+server.ts:85-88 | every row is kept, with `is_free` true exactly when the column is non-zero |
| PublicCatalog.List | src/routes/api/themes/+server.ts:54-121 | database rows are returned exactly when the query succeeded with at least one row; otherwise the filtered fallback list is returned, never an error |
| PublicCatalog.AllTechnologiesUnfiltered | src/routes/api/themes/+server.ts:59-103 | technology `All` and no technology give the same statement, parameters and fallback result |
| PublicCatalog.AllCategoriesUnfiltered | src/routes/api/themes/+server.ts:64-107 | category `All` and no category give the same statement, parameters and fallback result |
| AdminCatalog.SafeSortBy | src/routes/api/admin/themes/+server.ts:14-29 | the column is always allow-listed; it is the requested one when that is listed, else `created_at` |
| AdminCatalog.SafeOrder | src/routes/api/admin/themes/+server.ts:15-30 | the direction is `ASC` or `DESC`; it is `ASC` exactly when the upper-cased request is `ASC` |
| AdminCatalog.LowerCaseAscending | src/routes/api/admin/themes/+server.ts:30 | `asc` is accepted as `ASC` |
| AdminCatalog.ListPlaceholders | src/routes/api/admin/themes/+server.ts:17-32 | the listing statement has a `?` exactly when the status filter applies |
| AdminCatalog.BuildListQuery | src/routes/api/admin/themes/+server.ts:17-32 | the status clause and its one parameter appear exactly when the status is present and not `all`; the status never enters the text; the ordering uses the safe column and direction |
| AdminCatalog.UnlistedColumnIgnored | src/routes/api/admin/themes/+server.ts:29-32 | an unlisted `sortBy` gives the same statement as `created_at` |
| AdminCatalog.Normalise | src/routes/api/admin/themes/+server.ts:36-41 | every column is kept; `is_free` and `featured` become booleans; `categories` is the decoded column when it is non-empty, else `[category]`; an undecodable column is a failure |
| AdminCatalog.NormaliseAll | src/routes/api/admin/themes/+server.ts:36-41 | all rows are normalised in order, or the whole listing fails when one row fails |
| AdminCatalog.ListAll | src/routes/api/admin/themes/+server.ts:11-47 | the status is bound as the one parameter exactly when it is present and not `all`, and never enters the text; the normalised rows are returned when the query succeeds and every row normalises, otherwise 500 `Failed to fetch themes` |
| AdminCatalog.FirstMissingFrom | src/routes/api/admin/themes/+server.ts:55-62 | the first required field, in list order, whose value is falsy, or none exactly when all are truthy |
| AdminCatalog.FirstMissingField | src/routes/api/admin/themes/+server.ts:58-62 | the check loop names the first falsy required field |
| AdminCatalog.DerivedCategories | src/routes/api/admin/themes/+server.ts:65-67 | the given array, else `[category]` |
| AdminCatalog.PrimaryCategory | src/routes/api/admin/themes/+server.ts:70 | the first derived category when it is truthy, else `category` |
| AdminCatalog.PrimaryWithoutArray | src/routes/api/admin/themes/+server.ts:65-70 | without an array, or with an empty one, the primary category is `category` |
| AdminCatalog.Written | src/routes/api/admin/themes/+server.ts:80-95 | each listed column comes from the body; `is_free`, `price`, `stock_quantity`, `featured` and `status` take their defaults only when absent or null, so an explicit `false` or `0` is kept; the two flags are stored as 0 or 1; the id and counters are not written |
| AdminCatalog.WrittenCategoriesRoundTrip | src/routes/api/admin/themes/+server.ts:36-70 | a written row is listed with exactly the categories derived from the body |
| AdminCatalog.EmptyCategoriesArray | src/routes/api/admin/themes/+server.ts:65-70 | an empty array is stored as `[]`, with `category` as the primary category |
| AdminCatalog.Rewrite | src/routes/api/admin/themes/+server.ts:130-166 | the update's rewrite of a matching row keeps its id and both counters, and does not depend on the row's old values of the other columns |
| AdminCatalog.Replaced | src/routes/api/admin/themes/+server.ts:130-168 | rows with the id are rewritten from the body, and the others are kept |
| AdminCatalog.ReplacedMissingId | src/routes/api/admin/themes/+server.ts:168-173 | updating an id that no row has leaves the table unchanged |
| AdminCatalog.Create | src/routes/api/admin/themes/+server.ts:50-109 | a falsy required field gives 400 naming the first one and no insert; a failing insert gives 500 and no insert; otherwise the written row is stored under a fresh id, which 201 carries, and the next id goes up by one |
| AdminCatalog.Update | src/routes/api/admin/themes/+server.ts:112-179 | no id gives 400 and no change; a failing update gives 500; otherwise the matching rows are rewritten and success is reported even when none matched |
| AdminCatalog.Delete | src/routes/api/admin/themes/+server.ts:182-202 | no id gives 400 and no change; a failing delete gives 500; otherwise the rows with the id are removed and success is reported |
| Tracking.CounterFor | src/routes/api/themes/track/+server.ts:13-34 | an action is accepted exactly when it is one of the four; view and preview bump views, download and deploy bump downloads |
| Tracking.IncrementStatement | src/routes/api/themes/track/+server.ts:21-34 | the statement is exactly `UPDATE themes SET `, then `<column> = <column> + 1` on the counter's own column, then ` WHERE id = ?`; the id is its only placeholder |
| Tracking.Bump | src/routes/api/themes/track/+server.ts:21-34 | the chosen counter goes up by exactly one; the other counter and every other column are kept |
| Tracking.Bumped | src/routes/api/themes/track/+server.ts:37 | only rows with the id are bumped |
| Tracking.Track | src/routes/api/themes/track/+server.ts:5-60 | a falsy id or action, or an unknown action, gives 400 and no change; a failing counter update gives 500 and no change; otherwise the counter is bumped, the log gains `(id, action)` unless logging fails, and the reply is success either way |
| Tracking.FindRow | src/routes/api/themes/track/+server.ts:69-76 | a row with the id is found exactly when one exists; with unique ids it is the only one |
| Tracking.ActiveTotals | src/routes/api/themes/track/+server.ts:79-91 | the count and the counter sums over rows with status `active`; the sums are absent (SQL `NULL`) when no row is active |
| Tracking.Stats | src/routes/api/themes/track/+server.ts:63-98 | with an id, that row's id, name and counters or 404; without one, the active totals; a failing query gives 500 |
| Tracking.BumpedSums | src/routes/api/themes/track/+server.ts:79-91 | a bump raises its counter's active total by the number of active rows with the id, and leaves the other total and the count as they were |
| Tracking.ActiveWithIdAtMostOne | src/routes/api/themes/track/+server.ts:79-91 | with unique ids, at most one active row has a given id |
| Tracking.TrackedTotals | src/routes/api/themes/track/+server.ts:79-91 | tracking an action on an active theme raises its counter's total by exactly one; an unknown id changes nothing |
| AdminLogin.ConfiguredUsername | src/routes/api/admin/auth/login/+server.ts:9 | the configured username, or `admin` when it is unset or empty |
| AdminLogin.ConfiguredPassword | src/routes/api/admin/auth/login/+server.ts:10 | the configured password, or `changeme123` when it is unset or empty |
| AdminLogin.SessionCookie | src/routes/api/admin/auth/login/+server.ts:15-21 | `admin_session=authenticated` on path `/`, HTTP-only, strict same-site, secure exactly in production, for 86400 seconds |
| AdminLogin.Login | src/routes/api/admin/auth/login/+server.ts:13-26 | success with the session cookie exactly when both credentials match; otherwise 401 `Invalid credentials` and no cookie |
| AdminLogin.DefaultCredentials | src/routes/api/admin/auth/login/+server.ts:9-10 | with neither variable set, `admin` / `changeme123` logs in |
| AdminLogin.EmptyIsUnset | src/routes/api/admin/auth/login/+server.ts:9-10 | an empty variable behaves as an unset one |
| AdminLogin.ConfiguredReplacesDefault | src/routes/api/admin/auth/login/+server.ts:9-13 | once another username is configured, `admin` is refused and gets no cookie |
| Mailer.Placeholder | src/lib/mailer.ts:184 | the key, exactly, between `{{` and `}}` |
| Mailer.ProcessSubject | src/lib/mailer.ts:182-185 | the loop yields the subject with the properties applied in entry order |
| Mailer.SubstitutedAppend | src/lib/mailer.ts:182-185 | each property is applied to the result of the ones before it |
| Mailer.NoPlaceholdersUnchanged | src/lib/mailer.ts:182-185 | a subject holding none of the keys' placeholders is returned unchanged |
| Mailer.FirstPlaceholderReplaced | src/lib/mailer.ts:184 | a property's first placeholder is replaced by its value, and the text before it is kept |
| Mailer.LaterPlaceholderKept | src/lib/mailer.ts:184 | a later occurrence of the same placeholder remains |
| Mailer.SendTemplatedEmail | src/lib/mailer.ts:133-193 | no service key gives `Server configuration error`; no template gives `Template not found`; no React body gives `Invalid template format`; otherwise the email carries the substituted subject, and the text only when it is non-empty |
| Mailer.AdminEmail | src/lib/mailer.ts:15-34 | nothing without an admin address; otherwise a mail to it, from the admin sender or else the admin address, with the subject prefixed |
| Mailer.AdminSubjectMarked | src/lib/mailer.ts:32 | the admin subject is `ADMIN_MAIL: ` followed by the given subject |

## Left out

- I/O is not modelled: the MySQL pool, `request.json()`, the Supabase and Resend clients, and logging.
  - A database statement's outcome is an input: the rows a `SELECT` returned, or a `fails` flag for a write that throws.
  - The template lookup's result is an input.
  - The handlers' outer `catch`-all replies are not modelled (a body that is not JSON).
- The database's own evaluation is not modelled: `LIKE` matching and collation, `CURRENT_TIMESTAMP`, and concurrent updates.
  - The public listing's rows are taken as the query returned them. Only the statement text and parameters are modelled.
- New rows start with `downloads` and `views` at 0. The table schema is not part of this model.
- `AVG(downloads)` and `AVG(views)` in the statistics are left out, because they are decimal results.
- Ids are whole numbers. A non-numeric `id` query parameter or `themeId` value is not modelled.
  - The id's truthiness is modelled: an absent or empty parameter, and a `themeId` of 0.
- Prices are whole numbers, not decimals.
- `is_free` and `featured` are booleans in a body. Other JSON types in those fields are not modelled.
- Text.ToLower: maps only ASCII letters. JavaScript's full Unicode case mapping is not modelled.
- Text.ToUpper: maps only ASCII letters. JavaScript's full Unicode case mapping is not modelled.
- Text.ReplaceFirst: inserts the value literally. `$` replacement patterns in a property value are not expanded.
- CategoriesCodec.Decode: a `\u` escape of half a UTF-16 surrogate pair is refused. `JSON.parse` accepts it, but a Dafny `char` cannot hold a lone surrogate, and the model does not join a pair into one character.
- AdminCatalog.Normalise: stored `categories` text is decoded as an array of strings or `null` without white space.
  - Other JSON that `JSON.parse` accepts (a number, an object, spaced text) counts as a failure here.
  - The source would return such a parsed value instead.
- AdminCatalog.Update: an absent body field is written as `NULL`.
  - The database driver refuses an `undefined` bind value, so the source replies 500 there.
  - The `fails` input allows that outcome but is not tied to it.
- PublicCatalog.MockThemes: its contract states only the length. The three entries are its definition.
- `sendUserEmail` is not part of this model. Its guards depend on user and profile lookups.
- The provider's reply to a send (`{ data }` or `{ error }`) is not modelled. `SendTemplatedEmail` and `AdminEmail` stop at the email to hand over.
- `template_properties` is a sequence of pairs in `Object.entries` order.
- The sitemap, logout, hooks and account routes are outside the modelled core.
