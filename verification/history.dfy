/**
  The history hook: the list of generated thumbnails (newest first, capped),
  the selected id and the filters shown for the selection.
 */
module History {
  import opened Wrappers
  import opened Types
  import Catalog
  import Lists

  datatype HistoryState = HistoryState(
    history: seq<HistoryItem>,
    selectedId: Option<string>,
    currentFilters: Filters)

  /** JavaScript truthiness of a `string | null`: null and "" are falsy. */
  predicate Truthy(s: Option<string>) {
    s.Some? && s.value != ""
  }

  /** Some item of `h` carries `id`. */
  predicate HasId(h: seq<HistoryItem>, id: string) {
    exists i | 0 <= i < |h| :: h[i].id == id
  }

  /** `h.find(i => i.id === id)`: the first item with that id. */
  function FindById(h: seq<HistoryItem>, id: string): (r: Option<HistoryItem>)
    ensures r.None? <==> !HasId(h, id)
    ensures r.Some? ==> r.value in h && r.value.id == id
    ensures h != [] && h[0].id == id ==> r == Some(h[0])
  {
    if h == [] then None
    else if h[0].id == id then Some(h[0])
    else
      var rest := FindById(h[1..], id);
      assert forall i | 1 <= i < |h| :: h[i] == h[1..][i - 1];
      rest
  }

  /** `item?.filters || DEFAULT_FILTERS`. */
  function FiltersOf(item: Option<HistoryItem>): Filters {
    if item.Some? && item.value.filters.Some? then item.value.filters.value else Catalog.DefaultFilters
  }

  /** `useState(() => history[0]?.id ?? null)` with filters at their defaults. */
  function Initial(h: seq<HistoryItem>): (st: HistoryState)
    ensures st.history == h && st.currentFilters == Catalog.DefaultFilters
    ensures st.selectedId.Some? <==> h != []
    ensures h != [] ==> st.selectedId.value == h[0].id
  {
    HistoryState(h, if h == [] then None else Some(h[0].id), Catalog.DefaultFilters)
  }

  /** `setSelectedId(id)`: filters follow only a truthy id. */
  function SetSelectedId(st: HistoryState, id: Option<string>): (r: HistoryState)
    ensures r.selectedId == id && r.history == st.history
    ensures Truthy(id) ==> r.currentFilters == FiltersOf(FindById(st.history, id.value))
    ensures !Truthy(id) ==> r.currentFilters == st.currentFilters
  {
    var filters := if Truthy(id) then FiltersOf(FindById(st.history, id.value)) else st.currentFilters;
    st.(selectedId := id, currentFilters := filters)
  }

  /** `addHistoryItem(item)`. */
  function AddHistoryItem(st: HistoryState, item: HistoryItem): (r: HistoryState)
    ensures |r.history| <= Catalog.MaxHistoryItems
    ensures |r.history| == if |st.history| < Catalog.MaxHistoryItems then |st.history| + 1 else Catalog.MaxHistoryItems
    ensures r.history[0] == item
    ensures forall i :: 1 <= i < |r.history| ==> r.history[i] == st.history[i - 1]
    ensures r.selectedId == Some(item.id)
    ensures r.currentFilters == FiltersOf(Some(item))
  {
    HistoryState(
      Lists.PrependCapped(item, st.history, Catalog.MaxHistoryItems),
      Some(item.id),
      FiltersOf(Some(item)))
  }

  /** The items of `h` that do not carry `id`, in order. */
  function Without(h: seq<HistoryItem>, id: string): (r: seq<HistoryItem>)
    ensures forall i :: 0 <= i < |r| ==> r[i].id != id
  {
    Lists.Filter(h, (item: HistoryItem) => item.id != id)
  }

  /** `removeHistoryItem(id)`. */
  function RemoveHistoryItem(st: HistoryState, id: string): (r: HistoryState)
    ensures r.history == Without(st.history, id)
    ensures st.selectedId != Some(id) ==> r.selectedId == st.selectedId && r.currentFilters == st.currentFilters
    ensures st.selectedId == Some(id) && r.history == [] ==>
      r.selectedId.None? && r.currentFilters == st.currentFilters
    ensures st.selectedId == Some(id) && r.history != [] ==> r.selectedId == Some(r.history[0].id)
    ensures st.selectedId == Some(id) && r.history != [] && r.history[0].id != "" ==>
      r.currentFilters == FiltersOf(Some(r.history[0]))
  {
    var updated := Without(st.history, id);
    if st.selectedId != Some(id) then st.(history := updated)
    else
      var next := if updated == [] then None else Some(updated[0].id);
      var filters := if Truthy(next) then FiltersOf(FindById(updated, next.value)) else st.currentFilters;
      HistoryState(updated, next, filters)
  }

  /** Removal keeps exactly the items with other ids, in their order. */
  lemma RemoveKeepsOthers(st: HistoryState, id: string, item: HistoryItem)
    ensures var h' := RemoveHistoryItem(st, id).history;
      && Lists.IsSubsequence(h', st.history)
      && (item in h' <==> item in st.history && item.id != id)
      && !HasId(h', id)
  {
    Lists.FilterIsSubsequence(st.history, (it: HistoryItem) => it.id != id);
    Lists.FilterMembership(st.history, (it: HistoryItem) => it.id != id, item);
  }

  /** The fields an update may set; `None` leaves the field as it is. */
  datatype HistoryPatch = HistoryPatch(
    videoUrl: Option<string>,
    analysis: Option<AnalysisResult>,
    metadata: Option<MetadataResult>,
    filters: Option<Filters>)

  /** `{ ...item, ...updates }`. */
  function ApplyPatch(item: HistoryItem, p: HistoryPatch): (r: HistoryItem)
    ensures r.id == item.id && r.imageUrl == item.imageUrl && r.prompt == item.prompt
    ensures r.videoUrl == (if p.videoUrl.Some? then p.videoUrl else item.videoUrl)
    ensures r.analysis == (if p.analysis.Some? then p.analysis else item.analysis)
    ensures r.metadata == (if p.metadata.Some? then p.metadata else item.metadata)
    ensures r.filters == (if p.filters.Some? then p.filters else item.filters)
  {
    item.(
      videoUrl := if p.videoUrl.Some? then p.videoUrl else item.videoUrl,
      analysis := if p.analysis.Some? then p.analysis else item.analysis,
      metadata := if p.metadata.Some? then p.metadata else item.metadata,
      filters := if p.filters.Some? then p.filters else item.filters)
  }

  /** `history.map(item => item.id === id ? f(item) : item)`. */
  function MapId(h: seq<HistoryItem>, id: string, f: HistoryItem -> HistoryItem): (r: seq<HistoryItem>)
    ensures |r| == |h|
    ensures forall i :: 0 <= i < |h| && h[i].id != id ==> r[i] == h[i]
    ensures forall i :: 0 <= i < |h| && h[i].id == id ==> r[i] == f(h[i])
  {
    Lists.MapWhere(h, (item: HistoryItem) => item.id == id, f)
  }

  /** `history.map(item => item.id === id ? { ...item, ...updates } : item)`. */
  function PatchId(h: seq<HistoryItem>, id: string, p: HistoryPatch): (r: seq<HistoryItem>)
    ensures |r| == |h|
    ensures forall i :: 0 <= i < |h| && h[i].id != id ==> r[i] == h[i]
    ensures forall i :: 0 <= i < |h| && h[i].id == id ==> r[i] == ApplyPatch(h[i], p)
  {
    MapId(h, id, (item: HistoryItem) => ApplyPatch(item, p))
  }

  /** `updateHistoryItem(id, updates)`. */
  function UpdateHistoryItem(st: HistoryState, id: string, p: HistoryPatch): (r: HistoryState)
    ensures |r.history| == |st.history|
    ensures forall i :: 0 <= i < |st.history| ==> r.history[i].id == st.history[i].id
    ensures forall i :: 0 <= i < |st.history| && st.history[i].id != id ==> r.history[i] == st.history[i]
    ensures forall i :: 0 <= i < |st.history| && st.history[i].id == id ==>
      r.history[i] == ApplyPatch(st.history[i], p)
    ensures r.selectedId == st.selectedId && r.currentFilters == st.currentFilters
  {
    st.(history := PatchId(st.history, id, p))
  }

  /** `Partial<ImageFilter>`. */
  datatype FilterPatch = FilterPatch(brightness: Option<int>, contrast: Option<int>, saturation: Option<int>)

  /** `{ ...prev, ...filters }`. */
  function MergeFilters(f: Filters, p: FilterPatch): (r: Filters)
    ensures r.brightness == p.brightness.GetOr(f.brightness)
    ensures r.contrast == p.contrast.GetOr(f.contrast)
    ensures r.saturation == p.saturation.GetOr(f.saturation)
  {
    Filters(p.brightness.GetOr(f.brightness), p.contrast.GetOr(f.contrast), p.saturation.GetOr(f.saturation))
  }

  /** Writing the filters `f` onto every item with the selected id, when that id is truthy. */
  function WriteFilters(st: HistoryState, f: Filters): (h: seq<HistoryItem>)
    ensures |h| == |st.history|
    ensures forall i :: 0 <= i < |h| ==> h[i].id == st.history[i].id
    ensures forall i :: 0 <= i < |h| ==>
      if Truthy(st.selectedId) && st.history[i].id == st.selectedId.value
      then h[i] == st.history[i].(filters := Some(f))
      else h[i] == st.history[i]
  {
    if Truthy(st.selectedId) then MapId(st.history, st.selectedId.value, (item: HistoryItem) => item.(filters := Some(f)))
    else st.history
  }

  /** `updateFilters(partial)`. */
  function UpdateFilters(st: HistoryState, p: FilterPatch): (r: HistoryState)
    ensures r.currentFilters == MergeFilters(st.currentFilters, p)
    ensures r.history == WriteFilters(st, r.currentFilters)
    ensures r.selectedId == st.selectedId
  {
    var updated := MergeFilters(st.currentFilters, p);
    HistoryState(WriteFilters(st, updated), st.selectedId, updated)
  }

  /** An empty patch leaves the filters where they were. */
  lemma EmptyFilterPatchKeepsFilters(st: HistoryState)
    ensures UpdateFilters(st, FilterPatch(None, None, None)).currentFilters == st.currentFilters
  {
  }

  /** `resetFilters()`. */
  function ResetFilters(st: HistoryState): (r: HistoryState)
    ensures r.currentFilters == Catalog.DefaultFilters
    ensures r.history == WriteFilters(st, Catalog.DefaultFilters)
    ensures r.selectedId == st.selectedId
  {
    HistoryState(WriteFilters(st, Catalog.DefaultFilters), st.selectedId, Catalog.DefaultFilters)
  }

  /** `clearHistory()`. */
  function ClearHistory(st: HistoryState): (r: HistoryState)
    ensures r.history == [] && r.selectedId.None? && r.currentFilters == Catalog.DefaultFilters
  {
    HistoryState([], None, Catalog.DefaultFilters)
  }

  /** The selection is either empty or the id of an item in the list. */
  predicate SelectionValid(st: HistoryState) {
    st.selectedId.None? || HasId(st.history, st.selectedId.value)
  }

  /** Every history operation except an explicit `setSelectedId` keeps the
      selection pointing at an item that exists. */
  lemma SelectionStaysValid(st: HistoryState, item: HistoryItem, id: string, p: HistoryPatch, fp: FilterPatch)
    requires SelectionValid(st)
    ensures SelectionValid(AddHistoryItem(st, item))
    ensures SelectionValid(RemoveHistoryItem(st, id))
    ensures SelectionValid(UpdateHistoryItem(st, id, p))
    ensures SelectionValid(UpdateFilters(st, fp))
    ensures SelectionValid(ResetFilters(st))
    ensures SelectionValid(ClearHistory(st))
    ensures SelectionValid(Initial(st.history))
  {
    var r := RemoveHistoryItem(st, id);
    if st.selectedId.Some? && st.selectedId != Some(id) {
      var sel := st.selectedId.value;
      var k :| 0 <= k < |st.history| && st.history[k].id == sel;
      Lists.FilterMembership(st.history, (it: HistoryItem) => it.id != id, st.history[k]);
      var j :| 0 <= j < |r.history| && r.history[j] == st.history[k];
    }
    var u := UpdateHistoryItem(st, id, p);
    if st.selectedId.Some? {
      var k :| 0 <= k < |st.history| && st.history[k].id == st.selectedId.value;
      assert u.history[k].id == st.selectedId.value;
      var uf := UpdateFilters(st, fp);
      assert uf.history[k].id == st.selectedId.value;
      var rf := ResetFilters(st);
      assert rf.history[k].id == st.selectedId.value;
    }
    assert AddHistoryItem(st, item).history[0].id == item.id;
  }
}
