/**
 * The score grid and its edit operations (`add_item`, `delete_item`,
 * `update_item_name`, `update_data_structure`). The source edits one global
 * session object in place; here each operation is a pure transition from one
 * `State` to the next.
 */
module Grid {
  import opened Wrappers
  import opened Strings
  import opened TimeAxis

  /** The record kept for one (item, time point): `{'得分': score, '说明': note}`. */
  datatype Entry = Entry(score: real, note: string)

  /** What the backfill inserts for a missing (item, time point): score 70.0, empty note. */
  const DefaultEntry: Entry := Entry(70.0, "")

  /** Time point label to entry, for one item. */
  type ItemData = map<string, Entry>

  /** Item name to its entries. */
  type Data = map<string, ItemData>

  /** The `time_config` session value. */
  datatype TimeConfig = TimeConfig(start: Date, end: Date, granularity: string)

  /** The session state the edit operations read and write. */
  datatype State = State(items: seq<string>, data: Data, timeConfig: TimeConfig)

  /** The exception Python raises for an index outside the list. */
  datatype EditError = IndexError

  /** `data.get(k, {})`. */
  function Get(data: Data, k: string): ItemData {
    if k in data then data[k] else map[]
  }

  function SetOf(xs: seq<string>): set<string> {
    set x | x in xs
  }

  predicate Distinct(xs: seq<string>) {
    forall i, j :: 0 <= i < j < |xs| ==> xs[i] != xs[j]
  }

  /** Every listed item has a map, holding an entry for every listed time point. */
  predicate Covered(data: Data, items: seq<string>, tps: seq<string>) {
    && (forall k :: k in items ==> k in data)
    && (forall k, tp :: k in items && tp in tps ==> k in data && tp in data[k])
  }

  /** The time points the state's configuration generates. */
  function Axis(s: State): seq<string> {
    TimePoints(s.timeConfig.start, s.timeConfig.end, s.timeConfig.granularity)
  }

  /** Python's list index: `i` counts from the front, a negative `i` from the back. */
  function PyIndex(n: nat, i: int): (r: Option<nat>)
    ensures r.Some? <==> -(n as int) <= i < n
    ensures r.Some? ==> r.value < n && (r.value as int - i) % n == 0
  {
    if 0 <= i < n then Some(i) else if -(n as int) <= i < 0 then Some(i + n) else None
  }

  // ----- update_data_structure -----

  /** The inner loop of the backfill: give one item's map every missing time point. */
  function FillItem(m: ItemData, tps: seq<string>): (r: ItemData)
    ensures r.Keys == m.Keys + SetOf(tps)
    ensures forall tp :: tp in m ==> r[tp] == m[tp]
    ensures forall tp :: tp in r && tp !in m ==> r[tp] == DefaultEntry
    decreases |tps|
  {
    if |tps| == 0 then m
    else
      var m' := if tps[0] in m then m else m[tps[0] := DefaultEntry];
      FillItem(m', tps[1..])
  }

  /**
   * The outer loop of the backfill. Filling an item twice is the same as filling
   * it once, so the loop's result does not depend on the order (or repetition)
   * of the listed items and is written here as one map.
   */
  function Backfill(data: Data, items: seq<string>, tps: seq<string>): (r: Data)
    ensures r.Keys == data.Keys + SetOf(items)
    ensures Covered(r, items, tps)
    ensures forall k :: k in data && k !in items ==> r[k] == data[k]
    ensures forall k, tp :: k in data && tp in data[k] ==> k in r && tp in r[k] && r[k][tp] == data[k][tp]
    ensures forall k, tp :: k in r && tp in r[k] && !(k in data && tp in data[k]) ==>
              tp in tps && r[k][tp] == DefaultEntry
  {
    FillAll(data, items, tps)
  }

  /** The backfill's result, key by key: a listed item gets its filled map, any other key keeps its map. */
  function FillAll(data: Data, items: seq<string>, tps: seq<string>): Data {
    map k | k in data.Keys + SetOf(items) :: if k in items then FillItem(Get(data, k), tps) else data[k]
  }

  /**
   * The outer loop as the source runs it, one item after the other: the item's
   * map is created if missing and then filled.
   */
  function BackfillLoop(data: Data, items: seq<string>, tps: seq<string>): Data
    decreases |items|
  {
    if |items| == 0 then data
    else
      var d := BackfillLoop(data, items[..|items| - 1], tps);
      var item := items[|items| - 1];
      d[item := FillItem(Get(d, item), tps)]
  }

  /** One more iteration of the outer loop: handling `item` after `init` updates only `item`'s map. */
  lemma BackfillStep(data: Data, init: seq<string>, item: string, tps: seq<string>)
    ensures var d := FillAll(data, init, tps);
            FillAll(data, init + [item], tps) == d[item := FillItem(Get(d, item), tps)]
  {
    var items := init + [item];
    var d := FillAll(data, init, tps);
    var r := FillAll(data, items, tps);
    var step := d[item := FillItem(Get(d, item), tps)];
    BackfillStepKeys(data, init, item, tps);
    forall k | k in r
      ensures step[k] == r[k]
    {
      BackfillStepAt(data, init, item, tps, k);
    }
  }

  /** The keys after one more iteration: the earlier keys and `item`. */
  lemma BackfillStepKeys(data: Data, init: seq<string>, item: string, tps: seq<string>)
    ensures var d := FillAll(data, init, tps);
            FillAll(data, init + [item], tps).Keys == d.Keys + {item}
  {
    assert SetOf(init + [item]) == SetOf(init) + {item};
  }

  /** The value at one key after one more iteration. */
  lemma BackfillStepAt(data: Data, init: seq<string>, item: string, tps: seq<string>, k: string)
    requires k in FillAll(data, init + [item], tps)
    ensures var d := FillAll(data, init, tps);
            k in d.Keys + {item} &&
            FillAll(data, init + [item], tps)[k] == d[item := FillItem(Get(d, item), tps)][k]
  {
    var items := init + [item];
    var d := FillAll(data, init, tps);
    if k == item {
      if item in init {
        FillCovered(FillItem(Get(data, item), tps), tps);
      } else {
        assert Get(d, item) == Get(data, item);
      }
    } else {
      assert k in items <==> k in init;
    }
  }

  /** Running the outer loop item by item gives the map `Backfill` writes in one step. */
  lemma {:induction false} BackfillLoopIsBackfill(data: Data, items: seq<string>, tps: seq<string>)
    ensures BackfillLoop(data, items, tps) == Backfill(data, items, tps)
    decreases |items|
  {
    if |items| == 0 {
      assert FillAll(data, items, tps) == data;
    } else {
      var init := items[..|items| - 1];
      BackfillLoopIsBackfill(data, init, tps);
      assert items == init + [items[|items| - 1]];
      BackfillStep(data, init, items[|items| - 1], tps);
    }
  }

  /**
   * `update_data_structure`: every listed item gets every generated time point,
   * new ones with the default entry. Nothing is removed: entries of time points
   * outside the axis and maps of unlisted items are kept as they are.
   */
  function Reconcile(s: State): (r: State)
    ensures r.items == s.items && r.timeConfig == s.timeConfig
    ensures Covered(r.data, r.items, Axis(s))
    ensures r.data.Keys == s.data.Keys + SetOf(s.items)
    ensures forall k :: k in s.data && k !in s.items ==> r.data[k] == s.data[k]
    ensures forall k, tp :: k in s.data && tp in s.data[k] ==>
              k in r.data && tp in r.data[k] && r.data[k][tp] == s.data[k][tp]
    ensures forall k, tp :: k in r.data && tp in r.data[k] && !(k in s.data && tp in s.data[k]) ==>
              tp in Axis(s) && r.data[k][tp] == DefaultEntry
  {
    s.(data := Backfill(s.data, s.items, Axis(s)))
  }

  /** Filling a map that already has every time point leaves it as it is. */
  lemma FillCovered(m: ItemData, tps: seq<string>)
    requires SetOf(tps) <= m.Keys
    ensures FillItem(m, tps) == m
  {
    assert FillItem(m, tps).Keys == m.Keys;
  }

  /** A state already covering its axis is left exactly as it is. */
  lemma ReconcileFixesCovered(s: State)
    requires Covered(s.data, s.items, Axis(s))
    ensures Reconcile(s) == s
  {
    var r := Reconcile(s);
    assert r.data.Keys == s.data.Keys;
    forall k | k in s.data
      ensures r.data[k] == s.data[k]
    {
      if k in s.items {
        FillCovered(s.data[k], Axis(s));
      }
    }
  }

  /** Reconciling twice changes nothing more than reconciling once. */
  lemma ReconcileIdempotent(s: State)
    ensures Reconcile(Reconcile(s)) == Reconcile(s)
  {
    ReconcileFixesCovered(Reconcile(s));
  }

  // ----- add_item -----

  /** The name `add_item` gives the `n+1`-th item: `f"题项{n + 1}"`. */
  function NewItemName(n: nat): string {
    "题项" + IntString(n + 1)
  }

  /**
   * `add_item`: append `题项{n+1}`, reset its map to `{}` (discarding whatever an
   * item of that name held), then backfill.
   */
  function AddItem(s: State): (r: State)
    ensures r.items == s.items + [NewItemName(|s.items|)]
    ensures r.timeConfig == s.timeConfig
    ensures Covered(r.data, r.items, Axis(s))
    ensures var name := NewItemName(|s.items|);
            && name in r.data
            && r.data[name].Keys == SetOf(Axis(s))
            && forall tp :: tp in r.data[name] ==> r.data[name][tp] == DefaultEntry
  {
    var name := NewItemName(|s.items|);
    Reconcile(State(s.items + [name], s.data[name := map[]], s.timeConfig))
  }

  /** Adding an item keeps every other item's entries. */
  lemma AddItemKeeps(s: State)
    ensures forall k, tp :: k in s.data && k != NewItemName(|s.items|) && tp in s.data[k] ==>
              k in AddItem(s).data && tp in AddItem(s).data[k] && AddItem(s).data[k][tp] == s.data[k][tp]
  {
    var name := NewItemName(|s.items|);
    var added := State(s.items + [name], s.data[name := map[]], s.timeConfig);
    assert AddItem(s) == Reconcile(added);
  }

  /** After adding an item the maps are those of before plus one per listed item. */
  lemma AddItemKeys(s: State)
    ensures AddItem(s).data.Keys == s.data.Keys + SetOf(AddItem(s).items)
  {
    var name := NewItemName(|s.items|);
    var added := State(s.items + [name], s.data[name := map[]], s.timeConfig);
    assert AddItem(s) == Reconcile(added);
    assert name in SetOf(added.items);
  }

  /**
   * Adding an item changes nothing else: a map of an unlisted item is kept as it
   * is, and every entry the add creates is the default one, on the axis.
   */
  lemma AddItemOnlyAdds(s: State)
    ensures forall k :: k in s.data && k !in s.items && k != NewItemName(|s.items|) ==>
              k in AddItem(s).data && AddItem(s).data[k] == s.data[k]
    ensures forall k, tp ::
              (k in AddItem(s).data && tp in AddItem(s).data[k] &&
               !(k in s.data && k != NewItemName(|s.items|) && tp in s.data[k])) ==>
              tp in Axis(s) && AddItem(s).data[k][tp] == DefaultEntry
  {
    var name := NewItemName(|s.items|);
    var added := State(s.items + [name], s.data[name := map[]], s.timeConfig);
    assert AddItem(s) == Reconcile(added);
    assert Axis(added) == Axis(s);
    forall k | k in s.data && k !in s.items && k != name
      ensures k in AddItem(s).data && AddItem(s).data[k] == s.data[k]
    {
      assert k in added.data && k !in added.items;
    }
  }

  // ----- delete_item -----

  /** `delete_item(index)`: pop the list position, and drop that name's map if there is one. */
  function DeleteItem(s: State, index: int): (r: Result<State, EditError>)
    ensures r.Success? <==> -|s.items| <= index < |s.items|
    ensures r.Success? ==>
              var i := PyIndex(|s.items|, index).value;
              && r.value.items == s.items[..i] + s.items[i + 1..]
              && r.value.timeConfig == s.timeConfig
              && r.value.data.Keys == s.data.Keys - {s.items[i]}
              && forall k :: k in r.value.data ==> r.value.data[k] == s.data[k]
  {
    match PyIndex(|s.items|, index)
    case None => Failure(IndexError)
    case Some(i) =>
      var item := s.items[i];
      Success(State(s.items[..i] + s.items[i + 1..], s.data - {item}, s.timeConfig))
  }

  /** Without repeats, the item removed from the list is not among those left. */
  lemma RemovedNotLeft(items: seq<string>, i: nat)
    requires Distinct(items) && i < |items|
    ensures items[i] !in items[..i] + items[i + 1..]
    ensures forall k :: k in items[..i] + items[i + 1..] ==> k in items
  {
    var rest := items[..i] + items[i + 1..];
    forall j | 0 <= j < |rest|
      ensures rest[j] != items[i] && rest[j] in items
    {
      if j < i {
        assert rest[j] == items[j];
      } else {
        assert rest[j] == items[j + 1];
      }
    }
  }

  /** With distinct items, deleting one keeps every remaining item covered. */
  lemma DeleteKeepsCoverage(s: State, index: int, tps: seq<string>)
    requires Distinct(s.items) && Covered(s.data, s.items, tps)
    requires -|s.items| <= index < |s.items|
    ensures Covered(DeleteItem(s, index).value.data, DeleteItem(s, index).value.items, tps)
  {
    var i := PyIndex(|s.items|, index).value;
    var r := DeleteItem(s, index).value;
    RemovedNotLeft(s.items, i);
    assert r.data == s.data - {s.items[i]};
  }

  /** A name listed twice loses its data when one copy is deleted, though the other copy stays listed. */
  lemma DeleteDuplicateDropsData(s: State, index: int)
    requires -|s.items| <= index < |s.items|
    requires var i := PyIndex(|s.items|, index).value;
             exists j :: 0 <= j < |s.items| && j != i && s.items[j] == s.items[i]
    ensures var i := PyIndex(|s.items|, index).value;
            s.items[i] in DeleteItem(s, index).value.items && s.items[i] !in DeleteItem(s, index).value.data
  {
    var i := PyIndex(|s.items|, index).value;
    var j :| 0 <= j < |s.items| && j != i && s.items[j] == s.items[i];
    var r := DeleteItem(s, index).value;
    if j < i {
      assert r.items[j] == s.items[j];
    } else {
      assert r.items[j - 1] == s.items[j];
    }
  }

  // ----- update_item_name -----

  /**
   * `update_item_name(index, new_name)`: write the new name into the list and,
   * if the old name has a map, move that map to the new name (replacing any map
   * already there) and remove the old key.
   */
  function RenameItem(s: State, index: int, newName: string): (r: Result<State, EditError>)
    ensures r.Success? <==> -|s.items| <= index < |s.items|
    ensures r.Success? ==>
              var i := PyIndex(|s.items|, index).value;
              var oldName := s.items[i];
              && r.value.items == s.items[i := newName]
              && r.value.timeConfig == s.timeConfig
              && (oldName !in s.data ==> r.value.data == s.data)
              && (oldName in s.data ==>
                    && r.value.data.Keys == s.data.Keys - {oldName} + {newName}
                    && r.value.data[newName] == s.data[oldName]
                    && forall k :: k in r.value.data && k != newName ==> r.value.data[k] == s.data[k])
  {
    match PyIndex(|s.items|, index)
    case None => Failure(IndexError)
    case Some(i) =>
      var oldName := s.items[i];
      var data := if oldName in s.data then (s.data - {oldName})[newName := s.data[oldName]] else s.data;
      Success(State(s.items[i := newName], data, s.timeConfig))
  }

  /** Renaming back undoes a rename, provided the new name held no map that the first rename overwrote. */
  lemma RenameBack(s: State, i: nat, newName: string)
    requires i < |s.items|
    requires newName == s.items[i] || newName !in s.data
    ensures RenameItem(RenameItem(s, i, newName).value, i, s.items[i]) == Success(s)
  {
    var r := RenameItem(s, i, newName).value;
    var back := RenameItem(r, i, s.items[i]).value;
    assert back.items == s.items;
    if s.items[i] in s.data {
      assert back.data.Keys == s.data.Keys;
      forall k | k in s.data
        ensures back.data[k] == s.data[k]
      {
      }
    } else {
      assert r.items[i] == newName && newName !in r.data;
      assert back.data == s.data;
    }
    assert back == s;
  }

  /** With distinct items, a rename keeps every listed item covered. */
  lemma RenameKeepsCoverage(s: State, index: int, newName: string, tps: seq<string>)
    requires Distinct(s.items) && Covered(s.data, s.items, tps)
    requires -|s.items| <= index < |s.items|
    ensures Covered(RenameItem(s, index, newName).value.data, RenameItem(s, index, newName).value.items, tps)
  {
    var i := PyIndex(|s.items|, index).value;
    var r := RenameItem(s, index, newName).value;
    forall k, tp | k in r.items && tp in tps
      ensures k in r.data && tp in r.data[k]
    {
      var j :| 0 <= j < |r.items| && r.items[j] == k;
      if j != i {
        assert k == s.items[j] && k != s.items[i];
      }
    }
  }
}
