/** Worked cases of the three components under an ASCII character model. */
module Scenarios {
  import opened Wrappers
  import opened Text
  import opened Shows
  import opened Slug
  import opened Resolver
  import opened Redirects

  /** ASCII case folding and character classes. */
  const Ascii: CharModel := CharModel(
    c => if 'A' <= c <= 'Z' then (c as int + 32) as char else c,
    c => 'a' <= c <= 'z' || 'A' <= c <= 'Z' || '0' <= c <= '9',
    c => '0' <= c <= '9',
    c => c == ' ' || c == '\t' || c == '\n')

  const DailyNews: Show := Show(1, "Daily News")

  /** A catalogue with one show, a legacy alias for it, and `int()` that
      accepts no text. */
  const Station: Env := Env(
    Catalogue(map["Daily News" := 1], map[1 := DailyNews]),
    [("Old", Id(1))],
    s => None,
    Ascii)

  /** By its name, in strict mode. */
  lemma DailyNewsByName()
    ensures FindShow(Station, Name("Daily News"), true, 0) == Ok(DailyNews)
  {
  }

  /** `" old".strip().lower()` is `"old"`, the lower-cased alias. */
  lemma PaddedAliasKey()
    ensures AliasKey(Station, " old") == "old"
    ensures AliasMatches(Station, 0, "old")
  {
    assert SkipSpaces(Ascii, " old", 0) == 1;
    assert SkipSpacesBack(Ascii, " old", 1, 4) == 4;
    assert Strip(Ascii, " old") == "old";
  }

  /** By a padded, differently-cased legacy alias: its id is then looked up
      one level deeper. */
  lemma DailyNewsByAlias()
    ensures FindShow(Station, Name(" old"), false, 0) == Ok(DailyNews)
  {
    PaddedAliasKey();
    AliasFallback(Station, " old", false, 0);
    NumericIdFirst(Station, Id(1), 1);
  }

  /** Get-or-create twice, then the lookup by code. */
  lemma SoundRoundTrip()
    ensures var o1 := SelectOrInsert(map[], "http://x/1.mp3", Attempt("C", None));
            var o2 := SelectOrInsert(o1.table, "http://x/1.mp3", Attempt("D", None));
      && o1.result == Ok("C") && o2 == o1
      && OriginalOf(o2.table, "C") == Some("http://x/1.mp3")
  {
  }

  /** An alias table whose only entry maps `"a"` to the text `"a"`, with an
      empty catalogue: the misconfiguration the depth bound guards against. */
  const Looping: Env := Env(Catalogue(map[], map[]), [("a", Name("a"))], s => None, Ascii)

  /** `{"a"}` is a cycle of that table. */
  lemma SelfAliasIsCycle()
    ensures AliasCycle(Looping, {"a"})
  {
  }

  /** Chasing the self-referential alias stops with the endless-loop error. */
  lemma SelfAliasStops()
    ensures FindShow(Looping, Name("a"), false, 0).Err?
    ensures FindShow(Looping, Name("a"), false, 0).error.EndlessLoop?
  {
    SelfAliasIsCycle();
    AliasCycleEndsInEndlessLoop(Looping, {"a"}, "a", false, 0);
  }

  /** The underscore goes although `\w` matches it, and so does
      punctuation. */
  lemma SlugDropsUnderscore()
    ensures ReadableSlug(Ascii, "A_b!") == "ab"
  {
  }
}
