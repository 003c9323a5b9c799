/**
 * The state of the `App` component of src/App.jsx and its handlers, each
 * taken as one atomic transition. The playlists only ever come from a
 * completed fetch, so their ids stay distinct.
 */
module Controller {
  import opened Wrappers
  import opened Dedup
  import opened Catalog
  import opened View
  import opened Callback

  class App {
    var token: string
    var playlists: seq<Playlist>
    var sortBy: SortKey
    var sortAscending: bool
    var loading: bool
    var currentPage: nat
    var searchQuery: string

    ghost predicate Valid()
      reads this
    {
      Distinct(playlists, PlaylistId)
    }

    /** The initial state; `stored` is what local storage holds under the token key. */
    constructor (stored: Option<string>)
      ensures Valid()
      ensures token == stored.GetOr("") && playlists == []
      ensures sortBy == Tracks && !sortAscending && !loading
      ensures currentPage == 0 && searchQuery == ""
    {
      token := stored.GetOr("");
      playlists := [];
      sortBy := Tracks;
      sortAscending := false;
      loading := false;
      currentPage := 0;
      searchQuery := "";
    }

    /**
     * What is rendered from the state: the filtered list is the stable
     * sort of the playlists whose name matches, and the page shown is the
     * current slice of at most 20 of them.
     */
    function CurrentView(): (v: ViewResult)
      reads this
      requires Valid()
      ensures v.filtered == Sort(FilterByName(playlists, searchQuery), sortBy, sortAscending)
      ensures v.totalPages == TotalPages(|v.filtered|)
      ensures v.displayed == PageOf(v.filtered, currentPage) && |v.displayed| <= ItemsPerPage
    {
      DeriveOfDistinct(playlists, sortBy, sortAscending, searchQuery, currentPage);
      Derive(playlists, sortBy, sortAscending, searchQuery, currentPage)
    }

    /**
     * `fetchPlaylists`: the playlists are replaced only when every request
     * and the normalisation succeed; `loading` ends false either way.
     */
    method FetchPlaylists(replies: seq<Reply>)
      requires Valid()
      modifies this
      ensures Valid()
      ensures playlists == FetchResult(replies).GetOr(old(playlists))
      ensures !loading
      ensures token == old(token) && sortBy == old(sortBy) && sortAscending == old(sortAscending)
      ensures currentPage == old(currentPage) && searchQuery == old(searchQuery)
    {
      loading := true;
      var all := FetchAllPages(replies);
      if all.Some? {
        var unique := RemoveDuplicatesWithMap(all.value, RawId);
        var normalized := NormalizeAll(unique);
        if normalized.Some? {
          FetchResultDistinct(replies);
          playlists := normalized.value;
        }
      }
      loading := false;
    }

    /** The effect run on mount and whenever `token` changes: with a token, fetch and return to page 0. */
    method TokenEffect(replies: seq<Reply>)
      requires Valid()
      modifies this
      ensures Valid()
      ensures token != "" ==> && playlists == FetchResult(replies).GetOr(old(playlists))
                              && !loading && currentPage == 0
      ensures token == "" ==> playlists == old(playlists) && loading == old(loading) && currentPage == old(currentPage)
      ensures token == old(token) && sortBy == old(sortBy) && sortAscending == old(sortAscending)
      ensures searchQuery == old(searchQuery)
    {
      if token != "" {
        FetchPlaylists(replies);
        currentPage := 0;
      }
    }

    /** `setToken` from the callback route, followed by the effect when the token changed. */
    method ReceiveToken(t: string, replies: seq<Reply>)
      requires Valid()
      modifies this
      ensures Valid()
      ensures token == t
      ensures t != old(token) && t != "" ==> && playlists == FetchResult(replies).GetOr(old(playlists))
                                             && !loading && currentPage == 0
      ensures !(t != old(token) && t != "") ==> && playlists == old(playlists) && loading == old(loading)
                                                && currentPage == old(currentPage)
      ensures sortBy == old(sortBy) && sortAscending == old(sortAscending) && searchQuery == old(searchQuery)
    {
      var changed := t != token;
      token := t;
      if changed {
        TokenEffect(replies);
      }
    }

    /**
     * The callback route: a token found in the URL fragment is stored (and
     * triggers the effect when it differs from the current one); without
     * one, or with the token already held, nothing else changes.
     */
    method HandleCallback(hash: string, replies: seq<Reply>)
      requires Valid()
      modifies this
      ensures Valid()
      ensures ExtractToken(hash).None? ==> token == old(token)
      ensures !(ExtractToken(hash).Some? && ExtractToken(hash).value != old(token)) ==>
                && playlists == old(playlists) && loading == old(loading) && currentPage == old(currentPage)
      ensures ExtractToken(hash).Some? ==> token == ExtractToken(hash).value
      ensures ExtractToken(hash).Some? && ExtractToken(hash).value != old(token) ==>
                && playlists == FetchResult(replies).GetOr(old(playlists)) && !loading && currentPage == 0
      ensures sortBy == old(sortBy) && sortAscending == old(sortAscending) && searchQuery == old(searchQuery)
    {
      var found := ExtractToken(hash);
      if found.Some? {
        ReceiveToken(found.value, replies);
      }
    }

    /** The logout button: only the token is cleared; the playlists stay in the state. */
    method Logout()
      requires Valid()
      modifies this
      ensures Valid()
      ensures token == ""
      ensures playlists == old(playlists) && loading == old(loading) && currentPage == old(currentPage)
      ensures sortBy == old(sortBy) && sortAscending == old(sortAscending) && searchQuery == old(searchQuery)
    {
      token := "";
    }

    /** `toggleSortOrder`: flip the direction and go back to the first page. */
    method ToggleSortOrder()
      requires Valid()
      modifies this
      ensures Valid()
      ensures sortAscending == !old(sortAscending) && currentPage == 0
      ensures token == old(token) && playlists == old(playlists) && loading == old(loading)
      ensures sortBy == old(sortBy) && searchQuery == old(searchQuery)
    {
      sortAscending := !sortAscending;
      currentPage := 0;
    }

    /** The "sort by track count" button. */
    method SortByTracks()
      requires Valid()
      modifies this
      ensures Valid()
      ensures sortBy == Tracks && currentPage == 0
      ensures token == old(token) && playlists == old(playlists) && loading == old(loading)
      ensures sortAscending == old(sortAscending) && searchQuery == old(searchQuery)
    {
      sortBy := Tracks;
      currentPage := 0;
    }

    /** The search box's `onChange`: store the text and go back to the first page. */
    method EditSearch(text: string)
      requires Valid()
      modifies this
      ensures Valid()
      ensures searchQuery == text && currentPage == 0
      ensures token == old(token) && playlists == old(playlists) && loading == old(loading)
      ensures sortBy == old(sortBy) && sortAscending == old(sortAscending)
    {
      searchQuery := text;
      currentPage := 0;
    }

    /** `onPageChange` from the paginator: the requested page is taken as it is. */
    method ChangePage(page: nat)
      requires Valid()
      modifies this
      ensures Valid()
      ensures currentPage == page
      ensures token == old(token) && playlists == old(playlists) && loading == old(loading)
      ensures sortBy == old(sortBy) && sortAscending == old(sortAscending) && searchQuery == old(searchQuery)
    {
      currentPage := page;
    }
  }
}
