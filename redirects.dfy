/** The redirect store: the `sound` and `article` tables that map an
    original episode or article URL to a short proxy code, the lookups by
    proxy code (`get_original_sound`, `get_original_article`) and the
    get-or-create operations (`get_redirect_sound`, `get_redirect_article`).

    Each table has the schema `(original PRIMARY KEY, proxy UNIQUE)`, so a
    table is a map from original to proxy whose values are pairwise
    distinct. An INSERT that would break either constraint fails with an
    IntegrityError and adds nothing. */
module Redirects {
  import opened Wrappers

  /** One table: original URL to proxy code. */
  type Table = map<string, string>

  /** A row `(original, proxy)`. */
  datatype Row = Row(original: string, proxy: string)

  /** One round of get-or-create: the code `shortuuid.uuid()` draws, and the
      row (if any) that a concurrent request commits between this request's
      SELECT and its INSERT. */
  datatype Attempt = Attempt(code: string, rival: Option<Row>)

  datatype StoreError =
    | NotFound        // abort(404): no row has the requested proxy code
    | IntegrityError  // sqlite3.IntegrityError from the INSERT
    | CodesExhausted  // every supplied code was used up by retries

  /** What a get-or-create round returns and the table it leaves. */
  datatype Outcome = Outcome(result: Result<string, StoreError>, table: Table)

  /** The UNIQUE constraint on `proxy`. */
  ghost predicate ProxiesUnique(t: Table)
  {
    forall a, b :: a in t && b in t && a != b ==> t[a] != t[b]
  }

  /** Rows are only ever added: every row of `t` is in `u` unchanged. */
  ghost predicate Extends(t: Table, u: Table)
  {
    t.Keys <= u.Keys && forall o :: o in t ==> u[o] == t[o]
  }

  /** `INSERT INTO t (original, proxy) VALUES (?, ?)`: fails when the
      original is already a key or the proxy is already a code. */
  function Insert(t: Table, row: Row): (r: Option<Table>)
    ensures r.Some? <==> row.original !in t && row.proxy !in t.Values
    ensures r.Some? ==> Extends(t, r.value) && r.value.Keys == t.Keys + {row.original}
    ensures r.Some? ==> r.value[row.original] == row.proxy
    ensures r.Some? && ProxiesUnique(t) ==> ProxiesUnique(r.value)
  {
    if row.original in t || row.proxy in t.Values then None
    else Some(t[row.original := row.proxy])
  }

  /** The effect of a concurrent request's own INSERT: its row when that is
      accepted, nothing otherwise. */
  function Commit(t: Table, rival: Option<Row>): (u: Table)
    ensures Extends(t, u)
    ensures ProxiesUnique(t) ==> ProxiesUnique(u)
  {
    match rival
    case None => t
    case Some(row) =>
      match Insert(t, row)
      case Some(u) => u
      case None => t
  }

  /** `SELECT proxy FROM t WHERE original=?`. */
  function ProxyOf(t: Table, original: string): (r: Option<string>)
  {
    if original in t then Some(t[original]) else None
  }

  /** `SELECT original FROM t WHERE proxy=?`: the one original whose proxy is
      `proxy`, or `None` when no row has it. */
  function OriginalOf(t: Table, proxy: string): (r: Option<string>)
    requires ProxiesUnique(t)
    ensures r.Some? <==> proxy in t.Values
    ensures r.Some? ==> r.value in t && t[r.value] == proxy
    ensures r.Some? ==> forall o :: o in t && t[o] == proxy ==> o == r.value
  {
    if proxy in t.Values then
      var o :| o in t && t[o] == proxy; Some(o)
    else None
  }

  /** One round of get-or-create: SELECT the proxy of `original`; on a miss
      (after a concurrent request may have committed its row) INSERT
      `(original, a.code)`. A failed INSERT is an IntegrityError and adds no
      row of this request. */
  function SelectOrInsert(t: Table, original: string, a: Attempt): (o: Outcome)
    ensures Extends(t, o.table)
    ensures ProxiesUnique(t) ==> ProxiesUnique(o.table)
    ensures o.result.Ok? ==> original in o.table && o.table[original] == o.result.value
    ensures o.result.Err? ==> o.result.error == IntegrityError && original !in t
  {
    match ProxyOf(t, original)
    case Some(p) => Outcome(Ok(p), t)
    case None =>
      var t1 := Commit(t, a.rival);
      match Insert(t1, Row(original, a.code))
      case Some(t2) => Outcome(Ok(a.code), t2)
      case None => Outcome(Err(IntegrityError), t1)
  }

  /** `get_redirect_article`: SELECT-or-INSERT, starting over after an
      IntegrityError with the next attempt. The source retries without
      bound; here the supplied attempts bound the retries, and once they run
      out only the final SELECT is made. */
  function RetryArticle(t: Table, original: string, attempts: seq<Attempt>): (o: Outcome)
    ensures Extends(t, o.table)
    ensures ProxiesUnique(t) ==> ProxiesUnique(o.table)
    ensures o.result.Ok? ==> original in o.table && o.table[original] == o.result.value
    ensures o.result.Err? ==> o.result.error == CodesExhausted && original !in o.table
    decreases |attempts|
  {
    if attempts == [] then
      match ProxyOf(t, original)
      case Some(p) => Outcome(Ok(p), t)
      case None => Outcome(Err(CodesExhausted), t)
    else
      var o := SelectOrInsert(t, original, attempts[0]);
      if o.result.Ok? then o else RetryArticle(o.table, original, attempts[1..])
  }

  /** No rival committed in any attempt. */
  predicate Unraced(attempts: seq<Attempt>)
  {
    forall i :: 0 <= i < |attempts| ==> attempts[i].rival.None?
  }

  /** A known original returns its existing code and changes nothing, for
      either table. */
  lemma ExistingOriginalKeepsCode(t: Table, original: string, a: Attempt, attempts: seq<Attempt>)
    requires original in t
    ensures SelectOrInsert(t, original, a) == Outcome(Ok(t[original]), t)
    ensures RetryArticle(t, original, attempts) == Outcome(Ok(t[original]), t)
  {
  }

  /** Get-or-create is idempotent: asking again for an original that was
      just given a code returns that code and adds nothing. */
  lemma GetOrCreateTwice(t: Table, original: string, a1: Attempt, a2: Attempt,
                         attempts1: seq<Attempt>, attempts2: seq<Attempt>)
    ensures var o := SelectOrInsert(t, original, a1);
      o.result.Ok? ==> SelectOrInsert(o.table, original, a2) == o
    ensures var o := RetryArticle(t, original, attempts1);
      o.result.Ok? ==> RetryArticle(o.table, original, attempts2) == o
  {
  }

  /** A miss with a fresh code and no concurrent writer adds exactly the row
      `(original, code)`. */
  lemma FreshCodeAddsOneRow(t: Table, original: string, a: Attempt)
    requires original !in t && a.rival.None? && a.code !in t.Values
    ensures SelectOrInsert(t, original, a) == Outcome(Ok(a.code), t[original := a.code])
  {
  }

  /** A drawn code that is already in use is an IntegrityError and adds no
      row. */
  lemma CollidingCodeAddsNothing(t: Table, original: string, a: Attempt)
    requires original !in t && a.rival.None? && a.code in t.Values
    ensures SelectOrInsert(t, original, a) == Outcome(Err(IntegrityError), t)
  {
  }

  /** Lost race: a concurrent request stores a row for the same original
      between SELECT and INSERT. A single round (the sound path) surfaces the
      IntegrityError, with the other request's row in the table ... */
  lemma LostRaceSound(t: Table, original: string, p: string, code: string)
    requires original !in t && p !in t.Values
    ensures SelectOrInsert(t, original, Attempt(code, Some(Row(original, p))))
         == Outcome(Err(IntegrityError), t[original := p])
  {
  }

  /** ... while the article path retries and returns the other request's
      code, so both requests agree on one code. */
  lemma LostRaceArticle(t: Table, original: string, p: string, attempts: seq<Attempt>)
    requires |attempts| > 0 && attempts[0].rival == Some(Row(original, p))
    requires original !in t && p !in t.Values
    ensures RetryArticle(t, original, attempts) == Outcome(Ok(p), t[original := p])
  {
  }

  /** Without concurrent writers the article path returns the first supplied
      code not already in use, as the one new row. */
  lemma {:induction false} ArticleTakesFirstFreeCode(t: Table, original: string, attempts: seq<Attempt>, k: nat)
    requires Unraced(attempts) && original !in t
    requires k < |attempts| && attempts[k].code !in t.Values
    requires forall j :: 0 <= j < k ==> attempts[j].code in t.Values
    ensures RetryArticle(t, original, attempts)
         == Outcome(Ok(attempts[k].code), t[original := attempts[k].code])
  {
    if k > 0 {
      CollidingCodeAddsNothing(t, original, attempts[0]);
      ArticleTakesFirstFreeCode(t, original, attempts[1..], k - 1);
    }
  }

  /** Without concurrent writers, when every supplied code is in use the
      article path gives up and the table is unchanged. */
  lemma {:induction false} ArticleAllCodesTaken(t: Table, original: string, attempts: seq<Attempt>)
    requires Unraced(attempts) && original !in t
    requires forall j :: 0 <= j < |attempts| ==> attempts[j].code in t.Values
    ensures RetryArticle(t, original, attempts) == Outcome(Err(CodesExhausted), t)
  {
    if attempts != [] {
      CollidingCodeAddsNothing(t, original, attempts[0]);
      ArticleAllCodesTaken(t, original, attempts[1..]);
    }
  }

  /** Round trip: the code get-or-create returns leads back to its original. */
  lemma CodeLeadsBack(t: Table, original: string, a: Attempt, attempts: seq<Attempt>)
    requires ProxiesUnique(t)
    ensures var o := SelectOrInsert(t, original, a);
      o.result.Ok? ==> OriginalOf(o.table, o.result.value) == Some(original)
    ensures var o := RetryArticle(t, original, attempts);
      o.result.Ok? ==> OriginalOf(o.table, o.result.value) == Some(original)
  {
  }

  /** Two successive rounds for distinct originals never return the same
      code. For any history, `ProxiesUnique`, kept by `RedirectStore.Valid`,
      states the same: no code is stored for two originals. */
  lemma DistinctOriginalsDistinctCodes(t: Table, x: string, y: string, a: Attempt, b: Attempt)
    requires ProxiesUnique(t) && x != y
    ensures var o1 := SelectOrInsert(t, x, a);
            var o2 := SelectOrInsert(o1.table, y, b);
      o1.result.Ok? && o2.result.Ok? ==> o1.result.value != o2.result.value
  {
  }

  /** The redirect database: the `sound` and `article` tables, updated in
      place. */
  class RedirectStore {
    var sound: Table
    var article: Table

    /** The UNIQUE constraint on `proxy` in both tables. */
    ghost predicate Valid()
      reads this
    {
      ProxiesUnique(sound) && ProxiesUnique(article)
    }

    /** `init_db`, run on a fresh database: both tables exist and are
        empty. */
    constructor ()
      ensures Valid()
      ensures sound == map[] && article == map[]
    {
      sound := map[];
      article := map[];
    }

    /** `get_original_sound`: the original URL behind an episode's proxy
        code, or a 404 when no row has that code. */
    function GetOriginalSound(proxy: string): (r: Result<string, StoreError>)
      reads this
      requires Valid()
      ensures r.Ok? <==> proxy in sound.Values
      ensures r.Ok? ==> r.value in sound && sound[r.value] == proxy
      ensures r.Err? ==> r.error == NotFound
    {
      match OriginalOf(sound, proxy)
      case Some(o) => Ok(o)
      case None => Err(NotFound)
    }

    /** `get_original_article`: the same lookup in the `article` table. */
    function GetOriginalArticle(proxy: string): (r: Result<string, StoreError>)
      reads this
      requires Valid()
      ensures r.Ok? <==> proxy in article.Values
      ensures r.Ok? ==> r.value in article && article[r.value] == proxy
      ensures r.Err? ==> r.error == NotFound
    {
      match OriginalOf(article, proxy)
      case Some(o) => Ok(o)
      case None => Err(NotFound)
    }

    /** `get_redirect_sound`: the proxy code for an episode's sound URL,
        created on first use. One round only: an IntegrityError from the
        INSERT reaches the caller. The `article` table is not touched. */
    method GetRedirectSound(original: string, a: Attempt) returns (r: Result<string, StoreError>)
      requires Valid()
      modifies this
      ensures Valid()
      ensures article == old(article)
      ensures Outcome(r, sound) == SelectOrInsert(old(sound), original, a)
    {
      var hit := ProxyOf(sound, original);
      if hit.Some? {
        return Ok(hit.value);
      }
      // Another request may commit its own row before our INSERT.
      sound := Commit(sound, a.rival);
      var inserted := Insert(sound, Row(original, a.code));
      if inserted.Some? {
        sound := inserted.value;
        r := Ok(a.code);
      } else {
        r := Err(IntegrityError);
      }
    }

    /** `get_redirect_article`: the proxy code for an article URL, created on
        first use; on an IntegrityError it starts over from the SELECT with
        the next attempt. The `sound` table is not touched. */
    method GetRedirectArticle(original: string, attempts: seq<Attempt>) returns (r: Result<string, StoreError>)
      requires Valid()
      modifies this
      ensures Valid()
      ensures sound == old(sound)
      ensures Outcome(r, article) == RetryArticle(old(article), original, attempts)
    {
      var rest := attempts;
      while rest != []
        invariant Valid() && sound == old(sound)
        invariant RetryArticle(article, original, rest) == RetryArticle(old(article), original, attempts)
        decreases |rest|
      {
        var hit := ProxyOf(article, original);
        if hit.Some? {
          return Ok(hit.value);
        }
        // Another request may commit its own row before our INSERT.
        article := Commit(article, rest[0].rival);
        var inserted := Insert(article, Row(original, rest[0].code));
        if inserted.Some? {
          article := inserted.value;
          return Ok(rest[0].code);
        }
        rest := rest[1..];
      }
      var hit := ProxyOf(article, original);
      r := if hit.Some? then Ok(hit.value) else Err(CodesExhausted);
    }
  }
}
