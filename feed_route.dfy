/** The decision `output_feed` makes for `GET /<show_name>`: resolve the name
    strictly, answer 404 for an unknown show, redirect to the show's feed
    slug when the name is not that slug, and serve the feed otherwise. */
module FeedRoute {
  import opened Wrappers
  import opened Shows
  import opened Slug
  import opened Resolver

  /** What the route answers. Feed generation itself is outside the model:
      `Serve` names the show whose feed is generated. */
  datatype Response =
    | Serve(show: Show)
    | RedirectTo(slug: string)           // redirect(url_for_feed(show))
    | NotFound                           // abort(404) on NoSuchShowError
    | ServerError(error: ResolveError)   // any other exception of find_show

  /** `output_feed(show_name)`, up to the response body. */
  function OutputFeed(env: Env, showName: string): (r: Response)
    ensures r.Serve? ==> showName == FeedSlug(env.chars, r.show) && r.show in env.catalogue.shows.Values
    ensures r.RedirectTo? ==>
      (r.slug != showName
       && exists show :: FindShow(env, Name(showName), true, 0) == Ok(show) && r.slug == FeedSlug(env.chars, show))
    ensures r.NotFound? <==> FindShow(env, Name(showName), true, 0) == Err(NoSuchShow)
    ensures r.ServerError? <==>
      (var res := FindShow(env, Name(showName), true, 0); res.Err? && res.error != NoSuchShow)
    ensures var res := FindShow(env, Name(showName), true, 0);
      res.Ok? ==>
        r == (if showName == FeedSlug(env.chars, res.value) then Serve(res.value)
              else RedirectTo(FeedSlug(env.chars, res.value)))
  {
    match FindShow(env, Name(showName), true, 0)
    case Err(NoSuchShow) => NotFound
    case Err(e) => ServerError(e)
    case Ok(show) =>
      var slug := FeedSlug(env.chars, show);
      if showName == slug then Serve(show) else RedirectTo(slug)
  }

  /** The catalogue lists `show` under its id, and its name index finds that
      id under the show's feed slug. */
  ghost predicate FoundBySlug(env: Env, show: Show)
  {
    && show.showId in env.catalogue.shows
    && env.catalogue.shows[show.showId] == show
    && FeedSlug(env.chars, show) in env.catalogue.byName
    && env.catalogue.byName[FeedSlug(env.chars, show)] == show.showId
  }

  /** Requesting a show's feed slug serves that show's feed. */
  lemma SlugIsServed(env: Env, show: Show)
    requires FoundBySlug(env, show)
    ensures OutputFeed(env, FeedSlug(env.chars, show)) == Serve(show)
  {
  }

  /** No redirect loop: a name that resolves to a show is either served
      directly or redirected once to the show's slug, which is then served. */
  lemma RedirectLandsOnFeed(env: Env, showName: string, show: Show)
    requires FindShow(env, Name(showName), true, 0) == Ok(show)
    requires FoundBySlug(env, show)
    ensures var slug := FeedSlug(env.chars, show);
      || (showName == slug && OutputFeed(env, showName) == Serve(show))
      || (showName != slug && OutputFeed(env, showName) == RedirectTo(slug)
          && OutputFeed(env, slug) == Serve(show))
  {
    SlugIsServed(env, show);
  }
}
