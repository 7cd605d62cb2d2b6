/** The show catalogue, owned by the external feed generator and only read
    here. */
module Shows {

  /** A podcast series: a stable id and a display title. */
  datatype Show = Show(showId: int, title: string)

  /** The two lookups the service makes into the generator:
      `get_show_id_by_name` (`byName`) and `show_source.shows` (`shows`). */
  datatype Catalogue = Catalogue(byName: map<string, int>, shows: map<int, Show>)
}
