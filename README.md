# Podcast feed server: show resolution, slugs and the redirect store

A Dafny model of the logic in `webserver/feed_server.py`, the small Flask
service that serves podcast RSS feeds and hands out stable short redirect
URLs for episode sound files and articles. Three parts are modelled:

- **Slug normaliser** (`get_readable_slug_from`, `get_feed_slug`):
  lower-case a show name, then delete every match of `[^\w\d]|_`.
  `slug.dfy`, on top of `text.dfy`.
- **Show resolver** (`find_show`): turn a request's show token into a show of
  the catalogue. It tries a numeric id (non-strict mode only), then the name
  index, then the legacy alias table `SHOW_CUSTOM_URL`. Alias chasing is cut
  off at `MAX_RECURSION_DEPTH = 20`. `resolver.dfy`.
- **Redirect store** (`get_original_*`, `get_redirect_*`, `init_db`): two
  tables, `sound` and `article`, with schema
  `(original PRIMARY KEY, proxy UNIQUE)`. They support lookup by proxy code
  and get-or-create by original URL. `redirects.dfy`, as the class
  `RedirectStore` with one `map` field per table.

`wrappers.dfy` holds `Option` and `Result`. `shows.dfy` holds the catalogue
types. `feed_route.dfy` models the serve-or-redirect decision of
`output_feed`. `scenarios.dfy` works through concrete cases under an ASCII character
model.

Python's Unicode-aware `str.lower()`, `\w`, `\d` and `str.strip()` enter as
the function-valued fields of `Text.CharModel`. Python's `int()` on strings
enters as `Resolver.Env.parseInt`. Each lemma that depends on a property of
these functions states that property in its `requires`.
`Text.WellBehaved` collects the Unicode facts the slug lemmas use.

Behaviour of the code that a reader might not expect. The model keeps all of
it:

- `find_show` treats a parsed id of `0` as "no id", because 0 is falsy in
  Python. It then falls through to the name index.
- A parsed id that is missing from the catalogue raises `KeyError`
  (`UnknownId`), not `NoSuchShowError`. Line 41 is outside every `try`. The
  routes catch only `NoSuchShowError` or `ValueError`.
- An alias whose target is the id 0 ends in an `AttributeError`
  (`NotAString`): the name lookup misses, and `.strip()` is then applied to an
  integer.
- Only `get_redirect_article` retries after an `IntegrityError`.
  `get_redirect_sound` lets the error reach its caller.
- `find_show` fails as soon as `recursion_depth >= 20`, before any lookup.
  From depth 0, at most 20 alias hops are followed before the error.

## Model

| member | source | states |
|---|---|---|
| `Text.LowerAll` | webserver/feed_server.py:56 | `str.lower()` keeps the length and lower-cases each character in place |
| `Text.StripSpec` | webserver/feed_server.py:34 | `str.strip()` returns a contiguous infix that neither starts nor ends with white space, and everything it drops at either end is white space |
| `Slug.RetainedIsAlnum` | webserver/feed_server.py:48 | under Unicode's classes, a character survives `[^\w\d]\|_` exactly when it is a letter or digit |
| `Slug.RemoveNonWord` | webserver/feed_server.py:48 | the substitution leaves no character that the pattern matches, and never lengthens the text |
| `Slug.ReadableSlug` | webserver/feed_server.py:55-56 | the slug holds only retained characters and is no longer than the name |
| `Slug.RemoveNonWordAppend` | webserver/feed_server.py:48 | removal is character by character and keeps order: it distributes over concatenation |
| `Slug.RemoveNonWordFixed` | webserver/feed_server.py:48 | the substitution changes nothing exactly when no character matches the pattern (both directions) |
| `Slug.ReadableSlugAppend` | webserver/feed_server.py:55-56 | the slug of a concatenation is the concatenation of the slugs |
| `Slug.ReadableSlugChar` | webserver/feed_server.py:55-56 | one character becomes its lower-case form if that is retained, and is deleted otherwise; with the previous row this determines the slug |
| `Slug.ReadableSlugIgnoresCase` | webserver/feed_server.py:55-56 | names that differ only in case have the same slug, when lower-casing is idempotent |
| `Slug.ReadableSlugIdempotent` | webserver/feed_server.py:55-56 | a slug is its own slug, when lower-casing is idempotent |
| `Slug.FeedSlugIsOwnSlug` | webserver/feed_server.py:51-56 | a show's feed slug is its own slug, so `/api/slug/` given that slug predicts the same feed URL |
| `FeedRoute.OutputFeed` | webserver/feed_server.py:65-76 | when resolution succeeds, the resolved show itself is served if the requested name equals its slug, and otherwise the response redirects to that slug; 404 exactly when resolution raises `NoSuchShowError`, a server error exactly when it raises anything else; a served show is in the catalogue |
| `FeedRoute.SlugIsServed` | webserver/feed_server.py:69-76 | requesting a show's feed slug serves that show, when the name index finds the show under its slug |
| `FeedRoute.RedirectLandsOnFeed` | webserver/feed_server.py:69-76 | when the name index finds the show under its slug, a name that resolves to that show is served or redirected once to the slug, which is then served: there is no redirect loop |
| `Resolver.FirstAlias` | webserver/feed_server.py:35-37 | the alias scan stops at the first entry, in iteration order, whose lower-cased alias equals the key, and reports no match only when no entry matches |
| `Resolver.FindShow` | webserver/feed_server.py:16-41 | at depth 20 or more it is the endless-loop error; a resolved show is always a show of the catalogue; a `KeyError` names an id absent from it |
| `Resolver.NumericIdFirst` | webserver/feed_server.py:20-27 | non-strict: a token that parses to a non-zero `n` resolves to `shows[n]`, or a `KeyError` when `n` is absent, without consulting names or aliases |
| `Resolver.NonNumericIgnoresStrict` | webserver/feed_server.py:21-27 | a token that does not parse, or parses to 0, resolves the same way in strict and non-strict mode |
| `Resolver.NameBeforeAlias` | webserver/feed_server.py:27-30 | with no usable id, a name found in the index is looked up in the catalogue and the alias table is not consulted |
| `Resolver.AliasFallback` | webserver/feed_server.py:31-40 | after a name miss, no matching alias gives `NoSuchShowError`, and the first matching alias is resolved non-strictly at depth + 1 |
| `Resolver.ZeroIdAlias` | webserver/feed_server.py:20-38 | the integer 0 is neither a usable id nor a name, so `.strip()` is applied to it: an alias whose first match targets the id 0 ends in `AttributeError` |
| `Resolver.AliasCycleEndsInEndlessLoop` | webserver/feed_server.py:13-19 | chasing an alias table that cycles back on itself ends in the endless-loop error, in either mode and from any depth |
| `Redirects.Insert` | webserver/feed_server.py:206-207 | an INSERT succeeds exactly when neither the original nor the proxy is already present; it then adds just that row and keeps proxies unique |
| `Redirects.Commit` | webserver/feed_server.py:197-198 | a concurrent request's insert only adds rows and keeps proxies unique |
| `Redirects.OriginalOf` | webserver/feed_server.py:151-152 | `SELECT original WHERE proxy=?` finds a row exactly when some row has that proxy, and that row is the only one with it |
| `Redirects.SelectOrInsert` | webserver/feed_server.py:168-180 | one get-or-create round only adds rows and keeps proxies unique; a returned code is the original's proxy; an error is an `IntegrityError` on an original that had no row |
| `Redirects.RetryArticle` | webserver/feed_server.py:183-200 | the retrying get-or-create has the same guarantees; it fails only when the supplied codes run out and the original still has no row |
| `Redirects.ExistingOriginalKeepsCode` | webserver/feed_server.py:172-176 | a known original returns its existing code and leaves the table unchanged, on both paths |
| `Redirects.GetOrCreateTwice` | webserver/feed_server.py:188-192 | asking again for an original that just got a code returns the same code and changes nothing |
| `Redirects.FreshCodeAddsOneRow` | webserver/feed_server.py:177-180 | a miss with a fresh code and no concurrent writer adds exactly the row `(original, code)` |
| `Redirects.CollidingCodeAddsNothing` | webserver/feed_server.py:193-195 | a drawn code that is already in use raises `IntegrityError` and adds no row |
| `Redirects.LostRaceSound` | webserver/feed_server.py:177-179 | when another request stores the same original between SELECT and INSERT, the sound path fails with `IntegrityError`, and only the other request's row is stored |
| `Redirects.LostRaceArticle` | webserver/feed_server.py:197-200 | in the same race the article path retries and returns the other request's code, so both requests agree on one code |
| `Redirects.ArticleTakesFirstFreeCode` | webserver/feed_server.py:193-200 | with no concurrent writers, the article path stores and returns the first supplied code that is not in use |
| `Redirects.ArticleAllCodesTaken` | webserver/feed_server.py:193-200 | with no concurrent writers and every supplied code in use, the article path gives up and the table is unchanged |
| `Redirects.CodeLeadsBack` | webserver/feed_server.py:149-165 | the code that get-or-create returns looks up to its original again, on both paths |
| `Redirects.DistinctOriginalsDistinctCodes` | webserver/feed_server.py:207 | two different originals never receive the same code |
| `Redirects.RedirectStore.constructor` | webserver/feed_server.py:203-207 | `init_db` on a fresh database creates both tables empty, with unique proxies |
| `Redirects.RedirectStore.GetOriginalSound` | webserver/feed_server.py:149-156 | returns the original whose sound row has the proxy code; 404 exactly when no row has it |
| `Redirects.RedirectStore.GetOriginalArticle` | webserver/feed_server.py:158-165 | the same lookup in the article table |
| `Redirects.RedirectStore.GetRedirectSound` | webserver/feed_server.py:168-180 | runs one get-or-create round on the sound table, keeps proxies unique, and leaves the article table untouched |
| `Redirects.RedirectStore.GetRedirectArticle` | webserver/feed_server.py:183-200 | retries the round on the article table with the next attempt until one succeeds or the attempts run out, and leaves the sound table untouched |
| `Scenarios.DailyNewsByName` | webserver/feed_server.py:27-30 | a show is found by its exact name in strict mode |
| `Scenarios.DailyNewsByAlias` | webserver/feed_server.py:31-38 | a padded, differently-cased legacy alias resolves to the show its id names |
| `Scenarios.SelfAliasStops` | webserver/feed_server.py:18-19 | a self-referential alias ends in the endless-loop error |
| `Scenarios.SlugDropsUnderscore` | webserver/feed_server.py:48 | the underscore is deleted even though `\w` matches it |
| `Scenarios.SoundRoundTrip` | webserver/feed_server.py:149-180 | get-or-create twice returns one code, and looking up that code gives back the URL |

## Left out

- Flask routing is not modelled: `url_for`, `redirect`, `abort`, `make_response`, the `before_request` canonical-URL redirect, the API and help pages, the episode and article routes, and the homepage redirect (lines 59-142). Only the serve-or-redirect decision of `output_feed` appears, as `FeedRoute.OutputFeed`.
- Stylesheet injection and cache headers (lines 79-86) are left out. They are string glue around generated XML.
- `PodcastFeedGenerator` is an external library: feed generation, `register_redirect_services` and the generator built at line 33. The catalogue stands in as two maps, and a fresh generator is assumed to read the same catalogue.
- SQLite connections and transactions are not modelled, nor is the empty `get_redirect_db_connection`. A failed INSERT adds nothing, which matches the rollback of the `with` block.
- `shortuuid.uuid()` is not modelled. Each round takes its code from the supplied `Attempt`.
- Concurrent requests are reduced to one interleaving point per round: the optional row that another request commits between this request's SELECT and its INSERT (`Attempt.rival`).
- `Redirects.RetryArticle`: retries are bounded by the finite sequence of attempts and end in `CodesExhausted`. The source sets no bound of its own; Python's recursion limit ends it with `RecursionError`.
- `Redirects.RedirectStore.GetRedirectArticle`: bounded by the attempts in the same way.
- The `get_redirect_*` functions return `BASE_URL + url_for(...)`. The model returns only the proxy code. The `show` and `episode` arguments serve only URL building and error messages, so they are dropped, as is the `show` argument of `get_original_*`.
- `init_db` appears only as the constructor, i.e. the first run on a fresh database. On an existing database `CREATE TABLE IF NOT EXISTS` changes nothing.
- Python's `int()` is not modelled exactly (whitespace, signs, underscores). It enters as `Env.parseInt`.
- Unicode classes and case mapping are not fixed. They enter as `CharModel`. Lower-casing is per character, so a full case mapping that changes the length (such as `'İ'.lower()`) is not modelled.
- `get_show_id_by_name` is a map from names. An integer token is assumed never to match a name.
- The text of the endless-loop error message is not modelled. The error records only the token.
