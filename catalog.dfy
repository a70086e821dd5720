/** The demo's catalog hook (`useCatalog`): a list of catalog sources, the
    index of the selected one, the icons of the selected category with a
    per-slug cache, and a case-insensitive search over those icons. The
    hook's state is an object here; each fetch is applied at once with its
    outcome given as an argument. */
module Catalog {
  import opened Text
  import opened Types

  datatype CatalogSource = CatalogSource(id: string, name: string, url: string)

  datatype CatalogCategory = CatalogCategory(slug: string, displayName: string, count: int, file: string)

  datatype CatalogIcon = CatalogIcon(
    name: string, displayName: string, url: string,
    codepoint: Option<string>, license: Option<string>)

  datatype CatalogIndex = CatalogIndex(
    provider: string, totalIcons: int,
    license: Option<string>, attribution: Option<string>, repository: Option<string>,
    categories: seq<CatalogCategory>)

  datatype CategoryFile = CategoryFile(category: string, count: int, license: Option<string>, icons: seq<CatalogIcon>)

  /** How a fetch ends: the parsed body, a response that is not `ok`, or
      another exception, with its message when it is an `Error`. */
  datatype Fetched<T> = Loaded(data: T) | NotOk(statusText: string) | Failed(message: Option<string>)

  /** The message the hook stores for a failed fetch. */
  function FetchError<T>(f: Fetched<T>, what: string): (r: string)
    requires !f.Loaded?
    ensures f.NotOk? ==> r == "Failed to fetch " + what + ": " + f.statusText
    ensures f.Failed? && f.message.None? ==> r == "Unknown error"
  {
    match f
    case NotOk(statusText) => "Failed to fetch " + what + ": " + statusText
    case Failed(message) => message.GetOr("Unknown error")
  }

  /** `url.substring(0, url.lastIndexOf("/") + 1)`: the directory part of a
      URL, slash included, or nothing when it has no slash. */
  function BaseUrl(url: string): (r: string)
    ensures StartsWith(url, r)
    ensures '/' !in url ==> r == ""
    ensures '/' in url ==> |r| > 0 && r[|r| - 1] == '/'
    ensures '/' !in url[|r|..]
  {
    var k := LastIndexOf(url, '/');
    var tail := url[k + 1..];
    assert '/' !in tail by {
      forall j | 0 <= j < |tail|
        ensures tail[j] != '/'
      {
        assert tail[j] == url[k + 1 + j];
      }
    }
    url[..k + 1]
  }

  lemma BaseUrlIdempotent(url: string)
    ensures BaseUrl(BaseUrl(url)) == BaseUrl(url)
  {
    var b := BaseUrl(url);
    if '/' in url {
      assert b[|b| - 1] == '/';
      var k := LastIndexOf(b, '/');
      assert k == |b| - 1;
      assert b[..k + 1] == b;
    } else {
      assert b == "";
    }
  }

  /** The search test of `filteredIcons`. */
  predicate IconMatches(icon: CatalogIcon, query: string) {
    var q := ToLower(query);
    Contains(ToLower(icon.displayName), q) || Contains(ToLower(icon.name), q)
  }

  /** `filteredIcons`: every icon for an empty query, otherwise the
      matching icons in their order. */
  function FilteredIcons(icons: seq<CatalogIcon>, query: string): (r: seq<CatalogIcon>)
    ensures query == "" ==> r == icons
    ensures forall icon :: icon in r <==> icon in icons && (query == "" || IconMatches(icon, query))
    ensures |r| <= |icons|
  {
    if |icons| == 0 then []
    else (if query == "" || IconMatches(icons[0], query) then [icons[0]] else []) + FilteredIcons(icons[1..], query)
  }

  /** The empty-query shortcut agrees with the test itself: the empty
      string occurs in every name. */
  lemma EmptyQueryMatchesAll(icon: CatalogIcon)
    ensures IconMatches(icon, "")
  {
    assert ToLower("") == "";
    assert StartsWith(ToLower(icon.displayName), "");
  }

  /** Filtering keeps order: it works piece by piece. */
  lemma {:induction false} FilteredIconsAppend(a: seq<CatalogIcon>, b: seq<CatalogIcon>, query: string)
    ensures FilteredIcons(a + b, query) == FilteredIcons(a, query) + FilteredIcons(b, query)
    decreases |a|
  {
    if |a| == 0 {
      assert a + b == b;
    } else {
      assert (a + b)[1..] == a[1..] + b;
      FilteredIconsAppend(a[1..], b, query);
    }
  }

  /** Searching again with the same query changes nothing. */
  lemma {:induction false} FilteredIconsIdempotent(icons: seq<CatalogIcon>, query: string)
    ensures FilteredIcons(FilteredIcons(icons, query), query) == FilteredIcons(icons, query)
    decreases |icons|
  {
    if |icons| > 0 {
      FilteredIconsIdempotent(icons[1..], query);
      var head := if query == "" || IconMatches(icons[0], query) then [icons[0]] else [];
      FilteredIconsAppend(head, FilteredIcons(icons[1..], query), query);
      if head != [] {
        assert head[1..] == [];
      }
    }
  }

  predicate HasId(sources: seq<CatalogSource>, id: string) {
    exists i :: 0 <= i < |sources| && sources[i].id == id
  }

  /** `sources.filter((s) => s.id !== id)`. */
  function WithoutId(sources: seq<CatalogSource>, id: string): (r: seq<CatalogSource>)
    ensures !HasId(r, id)
    ensures forall s :: s in r <==> s in sources && s.id != id
    ensures !HasId(sources, id) ==> r == sources
  {
    if |sources| == 0 then []
    else
      var rest := WithoutId(sources[1..], id);
      assert HasId(sources[1..], id) ==> HasId(sources, id) by {
        if HasId(sources[1..], id) {
          var i :| 0 <= i < |sources[1..]| && sources[1..][i].id == id;
          assert sources[i + 1].id == id;
        }
      }
      if sources[0].id == id then rest
      else
        HeadTail(sources);
        [sources[0]] + rest
  }

  /** `sources.find((s) => s.id === id)`: the first source with that id. */
  function FindSource(sources: seq<CatalogSource>, id: string): (r: Option<CatalogSource>)
    ensures r.None? <==> !HasId(sources, id)
    ensures r.Some? ==> r.value in sources && r.value.id == id
    ensures r.Some? ==> exists i :: (0 <= i < |sources| && sources[i] == r.value
      && forall j :: 0 <= j < i ==> sources[j].id != id)
  {
    if |sources| == 0 then None
    else if sources[0].id == id then Some(sources[0])
    else
      var r := FindSource(sources[1..], id);
      assert HasId(sources, id) ==> HasId(sources[1..], id) by {
        if HasId(sources, id) {
          var i :| 0 <= i < |sources| && sources[i].id == id;
          assert sources[1..][i - 1].id == id;
        }
      }
      if r.Some? then
        var i :| 0 <= i < |sources[1..]| && sources[1..][i] == r.value
          && forall j :: 0 <= j < i ==> sources[1..][j].id != id;
        assert sources[i + 1] == r.value;
        assert forall j :: 1 <= j < i + 1 ==> sources[j].id == sources[1..][j - 1].id;
        r
      else r
  }

  /** `categories.find((c) => c.slug === slug)`. */
  function FindCategory(categories: seq<CatalogCategory>, slug: string): (r: Option<CatalogCategory>)
    ensures r.None? <==> forall c :: c in categories ==> c.slug != slug
    ensures r.Some? ==> r.value in categories && r.value.slug == slug
    ensures |categories| > 0 && categories[0].slug == slug ==> r == Some(categories[0])
  {
    if |categories| == 0 then None
    else if categories[0].slug == slug then Some(categories[0])
    else
      assert forall c :: c in categories && c != categories[0] ==> c in categories[1..];
      FindCategory(categories[1..], slug)
  }

  /** `addSource`: a source whose id is known is ignored, any other goes at
      the end. */
  function AddedSource(sources: seq<CatalogSource>, source: CatalogSource): (r: seq<CatalogSource>)
    ensures HasId(sources, source.id) ==> r == sources
    ensures !HasId(sources, source.id) ==> r == sources + [source]
  {
    if HasId(sources, source.id) then sources else sources + [source]
  }

  predicate DistinctIds(sources: seq<CatalogSource>) {
    forall i, j :: 0 <= i < j < |sources| ==> sources[i].id != sources[j].id
  }

  /** Adding the same source twice is adding it once. */
  lemma AddSourceIdempotent(sources: seq<CatalogSource>, source: CatalogSource)
    ensures AddedSource(AddedSource(sources, source), source) == AddedSource(sources, source)
    ensures HasId(AddedSource(sources, source), source.id)
  {
    if !HasId(sources, source.id) {
      var r := sources + [source];
      assert r[|sources|].id == source.id;
    }
  }

  /** A list built only through `addSource` and `removeSource` never holds
      two sources with one id. */
  lemma AddSourceKeepsDistinct(sources: seq<CatalogSource>, source: CatalogSource)
    requires DistinctIds(sources)
    ensures DistinctIds(AddedSource(sources, source))
  {
    if !HasId(sources, source.id) {
      var r := sources + [source];
      forall i, j | 0 <= i < j < |r|
        ensures r[i].id != r[j].id
      {
        if j == |sources| {
          assert r[i] == sources[i];
        }
      }
    }
  }

  lemma {:induction false} WithoutIdKeepsDistinct(sources: seq<CatalogSource>, id: string)
    requires DistinctIds(sources)
    ensures DistinctIds(WithoutId(sources, id))
    decreases |sources|
  {
    if |sources| > 0 {
      DistinctIdsTail(sources);
      WithoutIdKeepsDistinct(sources[1..], id);
      if sources[0].id != id {
        ConsKeepsDistinct(sources[0], WithoutId(sources[1..], id));
      }
    }
  }

  /** The tail of a list with distinct ids has distinct ids, none of them the head's. */
  lemma DistinctIdsTail(sources: seq<CatalogSource>)
    requires DistinctIds(sources) && |sources| > 0
    ensures DistinctIds(sources[1..])
    ensures forall s :: s in sources[1..] ==> s.id != sources[0].id
  {
    var tail := sources[1..];
    forall i, j | 0 <= i < j < |tail|
      ensures tail[i].id != tail[j].id
    {
      assert tail[i] == sources[i + 1] && tail[j] == sources[j + 1];
    }
    forall s | s in tail
      ensures s.id != sources[0].id
    {
      var k :| 0 <= k < |tail| && tail[k] == s;
      assert tail[k] == sources[k + 1];
    }
  }

  /** A source whose id is new in front of a list with distinct ids. */
  lemma ConsKeepsDistinct(x: CatalogSource, w: seq<CatalogSource>)
    requires DistinctIds(w) && forall s :: s in w ==> s.id != x.id
    ensures DistinctIds([x] + w)
  {
    var r := [x] + w;
    forall i, j | 0 <= i < j < |r|
      ensures r[i].id != r[j].id
    {
      assert r[j] == w[j - 1];
      if i > 0 {
        assert r[i] == w[i - 1];
      }
    }
  }

  /** The hook's state. */
  class CatalogState {
    var sources: seq<CatalogSource>
    var selectedSourceId: Option<string>
    var catalogIndex: Option<CatalogIndex>
    var loadingIndex: bool
    var loadingIcons: bool
    var error: Option<string>
    var selectedCategory: Option<string>
    var icons: seq<CatalogIcon>
    var searchQuery: string
    /** `baseUrlRef`. */
    var baseUrl: string
    /** `categoryCache`: the icons of each category loaded since the last
        index load, by slug. */
    var categoryCache: map<string, seq<CatalogIcon>>

    /** The initial state: `initialSources ?? []`, nothing selected. */
    constructor(initialSources: Option<seq<CatalogSource>>)
      ensures sources == initialSources.GetOr([])
      ensures selectedSourceId.None? && catalogIndex.None? && selectedCategory.None?
      ensures icons == [] && searchQuery == "" && baseUrl == "" && categoryCache == map[]
      ensures !loadingIndex && !loadingIcons && error.None?
    {
      sources := initialSources.GetOr([]);
      selectedSourceId := None;
      catalogIndex := None;
      loadingIndex := false;
      loadingIcons := false;
      error := None;
      selectedCategory := None;
      icons := [];
      searchQuery := "";
      baseUrl := "";
      categoryCache := map[];
    }

    /** `filteredIcons`, computed from the current icons and query. */
    function Filtered(): (r: seq<CatalogIcon>)
      reads this
      ensures forall icon :: icon in r ==> icon in icons
    {
      FilteredIcons(icons, searchQuery)
    }

    method AddSource(source: CatalogSource)
      modifies this
      ensures sources == AddedSource(old(sources), source)
      ensures selectedSourceId == old(selectedSourceId) && catalogIndex == old(catalogIndex)
      ensures icons == old(icons) && categoryCache == old(categoryCache)
    {
      sources := AddedSource(sources, source);
    }

    /** `removeSource`: every source with that id goes; the index and icons
        are dropped only when it was the selected source. */
    method RemoveSource(id: string)
      modifies this
      ensures sources == WithoutId(old(sources), id)
      ensures old(selectedSourceId) == Some(id) ==>
        selectedSourceId.None? && catalogIndex.None? && icons == []
      ensures old(selectedSourceId) != Some(id) ==>
        selectedSourceId == old(selectedSourceId) && catalogIndex == old(catalogIndex) && icons == old(icons)
      ensures categoryCache == old(categoryCache) && selectedCategory == old(selectedCategory)
      ensures baseUrl == old(baseUrl) && error == old(error)
    {
      sources := WithoutId(sources, id);
      if selectedSourceId == Some(id) {
        selectedSourceId := None;
        catalogIndex := None;
        icons := [];
      }
    }

    /** `loadIndex(url)`: the icons and the cache are cleared; a loaded
        index is kept with its base URL, and its first category becomes
        the selected one; a failure drops the index and keeps the message. */
    method LoadIndex(url: string, response: Fetched<CatalogIndex>)
      modifies this
      ensures icons == [] && categoryCache == map[] && !loadingIndex
      ensures response.Loaded? ==> catalogIndex == Some(response.data) && baseUrl == BaseUrl(url) && error.None?
      ensures response.Loaded? && |response.data.categories| > 0 ==>
        selectedCategory == Some(response.data.categories[0].slug)
      ensures response.Loaded? && |response.data.categories| == 0 ==> selectedCategory == old(selectedCategory)
      ensures !response.Loaded? ==>
        catalogIndex.None? && error == Some(FetchError(response, "catalog index"))
        && baseUrl == old(baseUrl) && selectedCategory == old(selectedCategory)
      ensures sources == old(sources) && selectedSourceId == old(selectedSourceId)
      ensures loadingIcons == old(loadingIcons) && searchQuery == old(searchQuery)
    {
      loadingIndex := true;
      error := None;
      icons := [];
      categoryCache := map[];
      match response {
        case Loaded(data) =>
          catalogIndex := Some(data);
          baseUrl := BaseUrl(url);
          if |data.categories| > 0 {
            selectedCategory := Some(data.categories[0].slug);
          }
        case _ =>
          error := Some(FetchError(response, "catalog index"));
          catalogIndex := None;
      }
      loadingIndex := false;
    }

    /** `loadCategoryIcons(category)`: a cached slug is served from the
        cache with no request; otherwise the category file next to the
        index is requested (its URL is returned) and, when it loads, cached. */
    method LoadCategoryIcons(category: CatalogCategory, response: Fetched<CategoryFile>)
      returns (requested: Option<string>)
      modifies this
      ensures category.slug in old(categoryCache) ==>
        requested.None? && icons == old(categoryCache)[category.slug]
        && categoryCache == old(categoryCache) && error == old(error) && loadingIcons == old(loadingIcons)
      ensures category.slug !in old(categoryCache) ==>
        requested == Some(old(baseUrl) + category.file) && !loadingIcons
      ensures category.slug !in old(categoryCache) && response.Loaded? ==>
        icons == response.data.icons && error.None?
        && categoryCache == old(categoryCache)[category.slug := response.data.icons]
      ensures category.slug !in old(categoryCache) && !response.Loaded? ==>
        icons == [] && error == Some(FetchError(response, "category"))
        && categoryCache == old(categoryCache)
      ensures sources == old(sources) && selectedSourceId == old(selectedSourceId)
      ensures catalogIndex == old(catalogIndex) && selectedCategory == old(selectedCategory)
      ensures baseUrl == old(baseUrl) && loadingIndex == old(loadingIndex) && searchQuery == old(searchQuery)
    {
      if category.slug in categoryCache {
        icons := categoryCache[category.slug];
        return None;
      }
      loadingIcons := true;
      error := None;
      var url := baseUrl + category.file;
      requested := Some(url);
      match response {
        case Loaded(data) =>
          categoryCache := categoryCache[category.slug := data.icons];
          icons := data.icons;
        case _ =>
          error := Some(FetchError(response, "category"));
          icons := [];
      }
      loadingIcons := false;
    }

    /** The effect that runs when the index or the selected category
        changes: the selected category's icons are loaded when both are
        set and the index lists that slug. */
    method CategoryEffect(response: Fetched<CategoryFile>) returns (requested: Option<string>)
      modifies this
      ensures EffectCategory(old(catalogIndex), old(selectedCategory)).None? ==>
        requested.None? && icons == old(icons) && categoryCache == old(categoryCache)
      ensures EffectCategory(old(catalogIndex), old(selectedCategory)).Some? ==>
        var c := EffectCategory(old(catalogIndex), old(selectedCategory)).value;
        (c.slug in old(categoryCache) ==> requested.None? && icons == old(categoryCache)[c.slug])
        && (c.slug !in old(categoryCache) ==> requested == Some(old(baseUrl) + c.file))
        && (c.slug !in old(categoryCache) && response.Loaded? ==>
              icons == response.data.icons && categoryCache == old(categoryCache)[c.slug := response.data.icons])
      ensures sources == old(sources) && selectedSourceId == old(selectedSourceId)
      ensures catalogIndex == old(catalogIndex) && selectedCategory == old(selectedCategory)
      ensures baseUrl == old(baseUrl)
    {
      requested := None;
      if catalogIndex.None? || selectedCategory.None? || selectedCategory == Some("") {
        return;
      }
      var category := FindCategory(catalogIndex.value.categories, selectedCategory.value);
      if category.Some? {
        requested := LoadCategoryIcons(category.value, response);
      }
    }

    /** `selectSource(id)`: an unknown id changes nothing; a known one is
        selected and its index loaded. */
    method SelectSource(id: string, response: Fetched<CatalogIndex>) returns (requested: Option<string>)
      modifies this
      ensures !HasId(old(sources), id) ==>
        requested.None? && selectedSourceId == old(selectedSourceId) && catalogIndex == old(catalogIndex)
        && icons == old(icons) && categoryCache == old(categoryCache) && error == old(error)
        && selectedCategory == old(selectedCategory) && baseUrl == old(baseUrl)
        && loadingIndex == old(loadingIndex)
      ensures HasId(old(sources), id) ==>
        selectedSourceId == Some(id) && requested == Some(FindSource(old(sources), id).value.url)
        && categoryCache == map[] && icons == []
      ensures HasId(old(sources), id) && response.Loaded? ==>
        catalogIndex == Some(response.data) && baseUrl == BaseUrl(requested.value)
      ensures sources == old(sources)
    {
      var source := FindSource(sources, id);
      requested := None;
      if source.Some? {
        selectedSourceId := Some(id);
        requested := Some(source.value.url);
        LoadIndex(source.value.url, response);
      }
    }

    /** `loadFromUrl(url)`: no source is selected, and the index is loaded. */
    method LoadFromUrl(url: string, response: Fetched<CatalogIndex>)
      modifies this
      ensures selectedSourceId.None? && icons == [] && categoryCache == map[]
      ensures response.Loaded? ==> catalogIndex == Some(response.data) && baseUrl == BaseUrl(url)
      ensures sources == old(sources)
    {
      selectedSourceId := None;
      LoadIndex(url, response);
    }

    /** `selectCategory(slug)`: only the selected category changes; the
        effect then loads its icons. */
    method SelectCategory(slug: string)
      modifies this
      ensures selectedCategory == Some(slug)
      ensures sources == old(sources) && selectedSourceId == old(selectedSourceId)
      ensures catalogIndex == old(catalogIndex) && icons == old(icons) && categoryCache == old(categoryCache)
      ensures searchQuery == old(searchQuery) && baseUrl == old(baseUrl) && error == old(error)
    {
      selectedCategory := Some(slug);
    }

    /** `setSearchQuery(q)`: only the query changes. */
    method SetSearchQuery(q: string)
      modifies this
      ensures searchQuery == q
      ensures sources == old(sources) && selectedSourceId == old(selectedSourceId)
      ensures catalogIndex == old(catalogIndex) && icons == old(icons) && categoryCache == old(categoryCache)
      ensures selectedCategory == old(selectedCategory) && baseUrl == old(baseUrl) && error == old(error)
    {
      searchQuery := q;
    }

    /** The effect that selects the first source when there are sources,
        none is selected (`null` or the empty id) and no index is loaded. */
    method InitialSourceEffect(response: Fetched<CatalogIndex>) returns (requested: Option<string>)
      modifies this
      ensures !(|old(sources)| > 0 && !Truthy(old(selectedSourceId)) && old(catalogIndex).None?) ==>
        requested.None? && selectedSourceId == old(selectedSourceId) && catalogIndex == old(catalogIndex)
        && icons == old(icons) && categoryCache == old(categoryCache)
      ensures |old(sources)| > 0 && !Truthy(old(selectedSourceId)) && old(catalogIndex).None? ==>
        selectedSourceId == Some(old(sources)[0].id) && requested == Some(old(sources)[0].url)
      ensures sources == old(sources)
    {
      requested := None;
      if |sources| > 0 && !Truthy(selectedSourceId) && catalogIndex.None? {
        requested := SelectSource(sources[0].id, response);
      }
    }
  }

  /** The category whose icons the effect loads: the selected slug, when it
      is a non-empty string the loaded index lists. */
  function EffectCategory(index: Option<CatalogIndex>, selected: Option<string>): (r: Option<CatalogCategory>)
    ensures r.Some? ==> (index.Some? && selected.Some? && r.value in index.value.categories
      && r.value.slug == selected.value != "")
    ensures (index.Some? && selected.Some? && selected.value != ""
      && (exists c :: c in index.value.categories && c.slug == selected.value)) ==> r.Some?
  {
    if index.None? || selected.None? || selected.value == "" then None
    else FindCategory(index.value.categories, selected.value)
  }

  /** After an index loads, its first category is fetched: the cache was
      just cleared, so the effect always requests it. */
  method FirstCategoryIsFetched(url: string, index: CatalogIndex, file: Fetched<CategoryFile>)
    requires |index.categories| > 0 && index.categories[0].slug != ""
  {
    var state := new CatalogState(None);
    state.LoadIndex(url, Loaded(index));
    var first := index.categories[0];
    assert EffectCategory(state.catalogIndex, state.selectedCategory) == Some(first);
    var requested := state.CategoryEffect(file);
    assert requested == Some(BaseUrl(url) + first.file);
    if file.Loaded? {
      var again := state.CategoryEffect(file);
      assert again.None?;
      assert state.icons == file.data.icons;
    }
  }
}
