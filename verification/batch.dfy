/**
  The batch-operations hook: a set of selected history ids, a selection-mode
  flag, and the batch delete that splits the history into the selected items
  and the rest.
 */
module Batch {
  import opened Types
  import Lists
  import History

  datatype BatchState = BatchState(selectedIds: set<string>, selectionMode: bool)

  /** `new Set(history.map(item => item.id))`. */
  function SelectAllItems(h: seq<HistoryItem>): (ids: set<string>)
    ensures forall id :: id in ids <==> History.HasId(h, id)
  {
    if h == [] then {}
    else
      var rest := SelectAllItems(h[1..]);
      assert forall id :: History.HasId(h, id) <==> id == h[0].id || History.HasId(h[1..], id) by {
        forall id ensures History.HasId(h, id) <==> id == h[0].id || History.HasId(h[1..], id) {
          if History.HasId(h, id) && id != h[0].id {
            var k :| 0 <= k < |h| && h[k].id == id;
            assert h[1..][k - 1].id == id;
          }
          if History.HasId(h[1..], id) {
            var k :| 0 <= k < |h[1..]| && h[1..][k].id == id;
            assert h[k + 1].id == id;
          }
        }
      }
      {h[0].id} + rest
  }

  /** `selectedIds.size`, `hasSelection` and `selectAll`. */
  function SelectedCount(st: BatchState): nat { |st.selectedIds| }

  predicate HasSelection(st: BatchState) { SelectedCount(st) > 0 }

  predicate SelectAllFlag(h: seq<HistoryItem>, st: BatchState) {
    |h| > 0 && SelectedCount(st) == |h|
  }

  /** `toggleSelectionMode()`: leaving selection mode clears the selection. */
  function ToggleSelectionMode(st: BatchState): (r: BatchState)
    ensures r.selectionMode == !st.selectionMode
    ensures st.selectionMode ==> r.selectedIds == {}
    ensures !st.selectionMode ==> r.selectedIds == st.selectedIds
  {
    if st.selectionMode then BatchState({}, false) else st.(selectionMode := true)
  }

  /** `toggleSelect(id)`. */
  function ToggleSelect(st: BatchState, id: string): (r: BatchState)
    ensures id in r.selectedIds <==> id !in st.selectedIds
    ensures r.selectedIds - {id} == st.selectedIds - {id}
    ensures r.selectionMode == st.selectionMode
  {
    if id in st.selectedIds then st.(selectedIds := st.selectedIds - {id})
    else st.(selectedIds := st.selectedIds + {id})
  }

  /** Toggling moves the selected count by exactly one, so `hasSelection`
      holds after selecting an id, and after deselecting one exactly when
      another remains. */
  lemma ToggleCounts(st: BatchState, id: string)
    ensures id in st.selectedIds ==>
      SelectedCount(ToggleSelect(st, id)) == SelectedCount(st) - 1
    ensures id !in st.selectedIds ==>
      SelectedCount(ToggleSelect(st, id)) == SelectedCount(st) + 1 && HasSelection(ToggleSelect(st, id))
    ensures id in st.selectedIds ==>
      (HasSelection(ToggleSelect(st, id)) <==> st.selectedIds != {id})
  {
    var r := ToggleSelect(st, id);
    if id in st.selectedIds {
      assert r.selectedIds == st.selectedIds - {id};
      assert st.selectedIds == r.selectedIds + {id};
      if r.selectedIds == {} {
        assert st.selectedIds == {id};
      }
    } else {
      assert r.selectedIds == st.selectedIds + {id};
    }
  }

  /** Toggling the same id twice gives back the selection. */
  lemma ToggleTwice(st: BatchState, id: string)
    ensures ToggleSelect(ToggleSelect(st, id), id) == st
  {
    var r := ToggleSelect(ToggleSelect(st, id), id);
    assert r.selectedIds == st.selectedIds by {
      forall x ensures x in r.selectedIds <==> x in st.selectedIds {
        if x != id {
          assert x in r.selectedIds - {id} <==> x in st.selectedIds - {id};
        }
      }
    }
  }

  /** `deselectAll()`. */
  function DeselectAll(st: BatchState): (r: BatchState)
    ensures !HasSelection(r) && r.selectionMode == st.selectionMode
  {
    st.(selectedIds := {})
  }

  /** `invertSelection()`: walks the history and collects every id that was
      not selected. */
  method InvertSelection(h: seq<HistoryItem>, prev: set<string>) returns (next: set<string>)
    ensures forall id :: id in next <==> History.HasId(h, id) && id !in prev
    ensures next == SelectAllItems(h) - prev
  {
    next := {};
    var i := 0;
    while i < |h|
      invariant 0 <= i <= |h|
      invariant forall id :: id in next <==> History.HasId(h[..i], id) && id !in prev
    {
      if h[i].id !in prev {
        next := next + {h[i].id};
      }
      assert forall id :: History.HasId(h[..i + 1], id) <==> History.HasId(h[..i], id) || id == h[i].id by {
        forall id ensures History.HasId(h[..i + 1], id) <==> History.HasId(h[..i], id) || id == h[i].id {
          if History.HasId(h[..i + 1], id) && id != h[i].id {
            var k :| 0 <= k < i + 1 && h[..i + 1][k].id == id;
            assert h[..i][k].id == id;
          }
          if History.HasId(h[..i], id) {
            var k :| 0 <= k < i && h[..i][k].id == id;
            assert h[..i + 1][k].id == id;
          }
          assert h[..i + 1][i] == h[i];
        }
      }
      i := i + 1;
    }
    assert h[..i] == h;
  }

  /** Inverting twice keeps exactly the selected ids that are in the history. */
  lemma InvertTwice(h: seq<HistoryItem>, sel: set<string>)
    ensures SelectAllItems(h) - (SelectAllItems(h) - sel) == SelectAllItems(h) * sel
    ensures (SelectAllItems(h) - sel) * sel == {}
  {
  }

  /** No two history items share an id. */
  predicate DistinctIds(h: seq<HistoryItem>) {
    forall i, j :: 0 <= i < j < |h| ==> h[i].id != h[j].id
  }

  /** An item whose id comes back later makes the ids repeat. */
  lemma RepeatedHeadNotDistinct(h: seq<HistoryItem>)
    requires h != [] && h[0].id in SelectAllItems(h[1..])
    ensures !DistinctIds(h)
  {
    var k :| 0 <= k < |h[1..]| && h[1..][k].id == h[0].id;
    assert h[k + 1].id == h[0].id;
  }

  /** With a fresh head id, the ids are distinct exactly when the tail's are. */
  lemma FreshHeadDistinct(h: seq<HistoryItem>)
    requires h != [] && h[0].id !in SelectAllItems(h[1..])
    ensures DistinctIds(h) <==> DistinctIds(h[1..])
  {
    var t := h[1..];
    if DistinctIds(t) {
      forall i, j | 0 <= i < j < |h| ensures h[i].id != h[j].id {
        assert h[j] == t[j - 1];
        if i > 0 {
          assert h[i] == t[i - 1];
        } else {
          assert t[j - 1].id in SelectAllItems(t);
        }
      }
    }
    if DistinctIds(h) {
      forall i, j | 0 <= i < j < |t| ensures t[i].id != t[j].id {
        assert t[i] == h[i + 1] && t[j] == h[j + 1];
      }
    }
  }

  /** There are at most as many ids as items, and exactly as many when no
      id repeats. */
  lemma {:induction false} IdCount(h: seq<HistoryItem>)
    ensures |SelectAllItems(h)| <= |h|
    ensures |SelectAllItems(h)| == |h| <==> DistinctIds(h)
    decreases |h|
  {
    if h != [] {
      var rest := SelectAllItems(h[1..]);
      IdCount(h[1..]);
      assert SelectAllItems(h) == {h[0].id} + rest;
      if h[0].id in rest {
        assert {h[0].id} + rest == rest;
        RepeatedHeadNotDistinct(h);
      } else {
        assert |{h[0].id} + rest| == |rest| + 1;
        FreshHeadDistinct(h);
      }
    }
  }

  /** Right after "select all", the header's select-all flag is on exactly
      when the history is non-empty and no id repeats. */
  lemma SelectAllFlagAfterSelectAll(h: seq<HistoryItem>, mode: bool)
    ensures SelectAllFlag(h, BatchState(SelectAllItems(h), mode)) <==> h != [] && DistinctIds(h)
  {
    IdCount(h);
  }

  datatype Deleted = Deleted(deleted: seq<HistoryItem>, remaining: seq<HistoryItem>, state: BatchState)

  /** `batchDelete()`: the selected items (returned for undo), the remaining
      history handed to `onHistoryChange`, and the cleared selection. */
  function BatchDelete(h: seq<HistoryItem>, st: BatchState): (r: Deleted)
    ensures forall i :: 0 <= i < |r.deleted| ==> r.deleted[i].id in st.selectedIds
    ensures forall i :: 0 <= i < |r.remaining| ==> r.remaining[i].id !in st.selectedIds
    ensures r.state == BatchState({}, false)
  {
    var sel := st.selectedIds;
    Deleted(
      Lists.Filter(h, (item: HistoryItem) => item.id in sel),
      Lists.Filter(h, (item: HistoryItem) => item.id !in sel),
      BatchState({}, false))
  }

  /** Batch delete partitions the history: both parts keep history order,
      no item lands in both, and together they are the whole history. */
  lemma BatchDeletePartitions(h: seq<HistoryItem>, st: BatchState)
    ensures var r := BatchDelete(h, st);
      && Lists.IsSubsequence(r.deleted, h)
      && Lists.IsSubsequence(r.remaining, h)
      && multiset(r.deleted) + multiset(r.remaining) == multiset(h)
      && (forall x :: x in r.deleted ==> x !in r.remaining)
  {
    var sel := st.selectedIds;
    var keep := (item: HistoryItem) => item.id in sel;
    var drop := (item: HistoryItem) => item.id !in sel;
    Lists.FilterIsSubsequence(h, keep);
    Lists.FilterIsSubsequence(h, drop);
    Lists.FilterPartition(h, keep, drop);
  }
}
