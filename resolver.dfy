/** The show resolver, `find_show`: turns the show token of a request into a
    show of the catalogue, trying a numeric id, then the show's name, then the
    legacy alias table, with alias chasing bounded by a fixed depth. */
module Resolver {
  import opened Wrappers
  import opened Text
  import opened Shows

  /** `MAX_RECURSION_DEPTH`. */
  const MaxRecursionDepth: nat := 20

  /** What `find_show` is called with: a request path segment, or (when an
      alias is followed) the show id the alias table maps to. */
  datatype Token = Name(s: string) | Id(n: int)

  /** The exceptions `find_show` can raise. */
  datatype ResolveError =
    | EndlessLoop(token: Token)  // RuntimeError: alias chasing reached the depth bound
    | NoSuchShow                 // NoSuchShowError: no id, name or alias matched
    | UnknownId(id: int)         // KeyError: an id missing from `show_source.shows`
    | NotAString                 // AttributeError: `.strip()` applied to an integer id

  /** Everything `find_show` reads: the catalogue, `settings.SHOW_CUSTOM_URL`
      as its items in iteration order, Python's `int()` on strings (`None`
      for a ValueError), and the character classes. */
  datatype Env = Env(
    catalogue: Catalogue,
    aliases: seq<(string, Token)>,
    parseInt: string -> Option<int>,
    chars: CharModel)

  /** `int(show)`: an integer id passes through unchanged. */
  function ParseToken(env: Env, token: Token): Option<int>
  {
    match token
    case Name(s) => env.parseInt(s)
    case Id(n) => Some(n)
  }

  /** `gen.get_show_id_by_name(show)`; `None` for a KeyError or a
      NoSuchShowError. The name index holds show names only, so an integer
      never matches. */
  function LookupName(env: Env, token: Token): Option<int>
  {
    match token
    case Name(s) => if s in env.catalogue.byName then Some(env.catalogue.byName[s]) else None
    case Id(_) => None
  }

  /** `gen.show_source.shows[show_id]`, which raises KeyError for an unknown
      id. */
  function LookupId(env: Env, id: int): (r: Result<Show, ResolveError>)
  {
    if id in env.catalogue.shows then Ok(env.catalogue.shows[id]) else Err(UnknownId(id))
  }

  /** The key an alias is compared with: `show.strip().lower()`. */
  function AliasKey(env: Env, s: string): string
  {
    LowerAll(env.chars, Strip(env.chars, s))
  }

  /** Whether alias entry `i`, lower-cased, equals `key`. */
  predicate AliasMatches(env: Env, i: nat, key: string)
    requires i < |env.aliases|
  {
    LowerAll(env.chars, env.aliases[i].0) == key
  }

  /** The scan over `SHOW_CUSTOM_URL.items()` from entry `from` on: the index
      of the first entry whose lower-cased alias equals `key`, or `None` when
      no entry matches. */
  function FirstAlias(env: Env, key: string, from: nat): (r: Option<nat>)
    requires from <= |env.aliases|
    ensures r.Some? ==> from <= r.value < |env.aliases| && AliasMatches(env, r.value, key)
    ensures r.Some? ==> forall j :: from <= j < r.value ==> !AliasMatches(env, j, key)
    ensures r.None? ==> forall j :: from <= j < |env.aliases| ==> !AliasMatches(env, j, key)
    decreases |env.aliases| - from
  {
    if from == |env.aliases| then None
    else if AliasMatches(env, from, key) then Some(from)
    else FirstAlias(env, key, from + 1)
  }

  /** Whether a non-strict lookup of `token` finds a usable id of its own:
      `int()` succeeds and gives a non-zero value (0 is falsy in Python and
      counts as no id). */
  predicate HasNumericId(env: Env, token: Token)
  {
    var p := ParseToken(env, token); p.Some? && p.value != 0
  }

  /** The alias scan for a token whose name is unknown: the target of the
      first alias whose lower-cased key equals the trimmed, lower-cased token;
      NoSuchShowError when none does; an AttributeError when the token is an
      integer, which has no `strip`. */
  function AliasTarget(env: Env, token: Token): (r: Result<Token, ResolveError>)
  {
    match token
    case Id(_) => Err(NotAString)
    case Name(s) =>
      match FirstAlias(env, AliasKey(env, s), 0)
      case None => Err(NoSuchShow)
      case Some(i) => Ok(env.aliases[i].1)
  }

  /** `find_show(gen, show, strict, recursion_depth)`.

      Past the depth bound it fails before any lookup. Otherwise, when not
      strict, a usable id is looked up directly. Failing that the name index
      is tried, and failing that the alias table, whose target is resolved
      non-strictly one level deeper. An id found by either route must be in
      the catalogue. */
  function FindShow(env: Env, token: Token, strict: bool, depth: nat): (r: Result<Show, ResolveError>)
    ensures depth >= MaxRecursionDepth ==> r == Err(EndlessLoop(token))
    ensures r.Ok? ==> r.value in env.catalogue.shows.Values
    ensures r.Err? && r.error.UnknownId? ==> r.error.id !in env.catalogue.shows
    decreases MaxRecursionDepth - depth
  {
    if depth >= MaxRecursionDepth then Err(EndlessLoop(token))
    else if !strict && HasNumericId(env, token) then LookupId(env, ParseToken(env, token).value)
    else
      match LookupName(env, token)
      case Some(id) => LookupId(env, id)
      case None =>
        match AliasTarget(env, token)
        case Ok(next) => FindShow(env, next, false, depth + 1)
        case Err(e) => Err(e)
  }

  /** Non-strict: a non-zero id is looked up directly, without consulting the
      name index or the alias table, and a missing id is a KeyError. */
  lemma NumericIdFirst(env: Env, token: Token, depth: nat)
    requires depth < MaxRecursionDepth && HasNumericId(env, token)
    ensures var n := ParseToken(env, token).value;
      FindShow(env, token, false, depth)
        == if n in env.catalogue.shows then Ok(env.catalogue.shows[n]) else Err(UnknownId(n))
  {
  }

  /** A token that does not parse, or parses to 0, is resolved the same way
      in both modes. */
  lemma NonNumericIgnoresStrict(env: Env, token: Token, depth: nat)
    requires !HasNumericId(env, token)
    ensures FindShow(env, token, false, depth) == FindShow(env, token, true, depth)
  {
  }

  /** Strict mode, or no usable id: a name in the index wins over the alias
      table. */
  lemma NameBeforeAlias(env: Env, token: Token, strict: bool, depth: nat)
    requires depth < MaxRecursionDepth
    requires strict || !HasNumericId(env, token)
    requires LookupName(env, token).Some?
    ensures FindShow(env, token, strict, depth) == LookupId(env, LookupName(env, token).value)
  {
  }

  /** When the name is unknown, the trimmed, lower-cased text is compared with
      each lower-cased alias in order: the first match is resolved
      non-strictly one level deeper, and no match is NoSuchShowError. */
  lemma AliasFallback(env: Env, s: string, strict: bool, depth: nat)
    requires depth < MaxRecursionDepth
    requires strict || !HasNumericId(env, Name(s))
    requires LookupName(env, Name(s)).None?
    ensures var key := AliasKey(env, s);
      && ((forall j :: 0 <= j < |env.aliases| ==> !AliasMatches(env, j, key))
          ==> FindShow(env, Name(s), strict, depth) == Err(NoSuchShow))
      && forall i :: 0 <= i < |env.aliases| && AliasMatches(env, i, key)
           && (forall j :: 0 <= j < i ==> !AliasMatches(env, j, key))
           ==> FindShow(env, Name(s), strict, depth) == FindShow(env, env.aliases[i].1, false, depth + 1)
  {
    var key := AliasKey(env, s);
    var first := FirstAlias(env, key, 0);
    if first.Some? {
      var k := first.value;
      forall i | 0 <= i < |env.aliases| && AliasMatches(env, i, key)
           && (forall j :: 0 <= j < i ==> !AliasMatches(env, j, key))
        ensures i == k
      {
      }
    }
  }

  /** The integer 0 is not a usable id and is not in the name index, so the
      alias scan applies `.strip()` to it: an AttributeError. An alias whose
      target is the id 0 therefore ends in that error. */
  lemma ZeroIdAlias(env: Env, s: string, strict: bool, depth: nat)
    requires depth + 1 < MaxRecursionDepth
    requires strict || !HasNumericId(env, Name(s))
    requires LookupName(env, Name(s)).None?
    requires FirstAlias(env, AliasKey(env, s), 0).Some?
    requires env.aliases[FirstAlias(env, AliasKey(env, s), 0).value].1 == Id(0)
    ensures FindShow(env, Id(0), strict, depth + 1) == Err(NotAString)
    ensures FindShow(env, Name(s), strict, depth) == Err(NotAString)
  {
  }

  /** The alias `s` leads to another text of `S`: it is neither a usable id
      nor a show name, and its first matching alias maps to a text in `S`. */
  predicate AliasStepsWithin(env: Env, s: string, S: set<string>)
  {
    && !HasNumericId(env, Name(s))
    && LookupName(env, Name(s)).None?
    && var next := AliasTarget(env, Name(s));
       next.Ok? && next.value.Name? && next.value.s in S
  }

  /** A misconfigured alias table that cycles back on itself: from every text
      of `S` the alias scan leads back into `S`. */
  ghost predicate AliasCycle(env: Env, S: set<string>)
  {
    forall s :: s in S ==> AliasStepsWithin(env, s, S)
  }

  /** Alias chasing round a cycle stops with the endless-loop error instead
      of running forever, in either mode and from any depth. */
  lemma {:induction false} AliasCycleEndsInEndlessLoop(env: Env, S: set<string>, s: string, strict: bool, depth: nat)
    requires AliasCycle(env, S) && s in S
    ensures FindShow(env, Name(s), strict, depth).Err?
    ensures FindShow(env, Name(s), strict, depth).error.EndlessLoop?
    decreases MaxRecursionDepth - depth
  {
    if depth < MaxRecursionDepth {
      assert AliasStepsWithin(env, s, S);
      var next := AliasTarget(env, Name(s)).value.s;
      assert FindShow(env, Name(s), strict, depth) == FindShow(env, Name(next), false, depth + 1);
      AliasCycleEndsInEndlessLoop(env, S, next, false, depth + 1);
    }
  }
}
