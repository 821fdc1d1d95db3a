// Graph slots and dependency rows (supervisor-macros/src/lib.rs:2060-2118,
// 2710-2803): every node and pool member gets an index, and a dependency is
// the index of the named node, or of the named pool's floor member.
module Layout {
  import opened Machine
  import opened Tokens

  // A dependency with the text of its `#[cfg]`s.
  datatype Dep = Dep(name: string, cfg: string)

  datatype Item =
    | Executor(name: string)
    | Node(name: string, executor: Option<string>, deps: seq<Dep>)
    | Pool(name: string, members: nat, executor: Option<string>, deps: seq<Dep>)

  // What the build of the macro and the emission of an item's own definition
  // have to say: is the `pool` feature on, can this item be emitted?
  datatype Emission = Emission(pools: bool, emits: Item -> bool)

  datatype Slot = Slot(owner: string, member: nat, deps: seq<Dep>)

  datatype Entry = Entry(index: u8, cfg: string)

  datatype Tables = Tables(slots: seq<Slot>, rows: seq<seq<Entry>>)

  datatype Error =
    | UnknownExecutor | NoPoolFeature | NotEmitted
    | DuplicateName | TooManySlots | UnknownDependency | DuplicateDependency

  datatype Result<T> = Ok(value: T) | Err(error: Error)

  // ----------------------------------------------------------- specification

  function Size(item: Item): nat {
    match item
    case Executor(_) => 0
    case Node(_, _, _) => 1
    case Pool(_, members, _, _) => members
  }

  function SlotsOf(item: Item): seq<Slot> {
    if item.Executor? then [] else seq(Size(item), j requires 0 <= j < Size(item) => Slot(item.name, j, item.deps))
  }

  function AllSlots(items: seq<Item>): seq<Slot> {
    if items == [] then [] else AllSlots(items[..|items| - 1]) + SlotsOf(items[|items| - 1])
  }

  // Where item k's range of slots begins.
  function Start(items: seq<Item>, k: nat): nat
    requires k <= |items|
  {
    |AllSlots(items[..k])|
  }

  predicate Named(items: seq<Item>, k: nat, name: string) {
    k < |items| && !items[k].Executor? && items[k].name == name
  }

  predicate DistinctNames(items: seq<Item>) {
    forall j, k :: 0 <= j < k < |items| && !items[j].Executor? && !items[k].Executor? ==> items[j].name != items[k].name
  }

  type Names = map<string, nat>

  ghost predicate Indexes(names: Names, items: seq<Item>) {
    && (forall k :: 0 <= k < |items| && !items[k].Executor? ==>
          items[k].name in names && names[items[k].name] == Start(items, k))
    && (forall n :: n in names ==> exists k :: Named(items, k, n))
  }

  predicate Known(names: Names, deps: seq<Dep>) {
    forall m :: 0 <= m < |deps| ==> deps[m].name in names
  }

  function Row(names: Names, deps: seq<Dep>): seq<Entry>
    requires Known(names, deps)
  {
    seq(|deps|, m requires 0 <= m < |deps| => Entry(AsU8(names[deps[m].name]), deps[m].cfg))
  }

  predicate NoRepeat(row: seq<Entry>) {
    forall j, k :: 0 <= j < k < |row| ==> row[j] != row[k]
  }

  predicate GoodRow(names: Names, deps: seq<Dep>) {
    Known(names, deps) && NoRepeat(Row(names, deps))
  }

  function Executors(items: seq<Item>): set<string> {
    set k | 0 <= k < |items| && items[k].Executor? :: items[k].name
  }

  // Is an item's definition emitted at all?
  predicate Placeable(item: Item, executors: set<string>, e: Emission) {
    item.Executor?
    || ((item.executor.Some? ==> item.executor.value in executors) && (item.Pool? ==> e.pools) && e.emits(item))
  }

  predicate AllPlaceable(items: seq<Item>, e: Emission) {
    forall k :: 0 <= k < |items| ==> Placeable(items[k], Executors(items), e)
  }

  // -------------------------------------------------------------- the loops

  // supervisor-macros/src/lib.rs:2070-2118
  method SlotTables(slots: seq<Slot>, names: Names) returns (r: Result<seq<seq<Entry>>>)
    ensures r.Ok? <==> forall s :: 0 <= s < |slots| ==> GoodRow(names, slots[s].deps)
    ensures r.Ok? ==> |r.value| == |slots| && forall s :: 0 <= s < |slots| ==>
                Known(names, slots[s].deps) && r.value[s] == Row(names, slots[s].deps)
  {
    var rows: seq<seq<Entry>> := [];
    for s := 0 to |slots|
      invariant |rows| == s
      invariant forall t :: 0 <= t < s ==> GoodRow(names, slots[t].deps) && rows[t] == Row(names, slots[t].deps)
    {
      var row := DepRow(slots[s].deps, names);
      if row.Err? {
        return Err(row.error);
      }
      rows := rows + [row.value];
    }
    r := Ok(rows);
  }

  method DepRow(deps: seq<Dep>, names: Names) returns (r: Result<seq<Entry>>)
    ensures r.Ok? <==> GoodRow(names, deps)
    ensures r.Ok? ==> r.value == Row(names, deps)
  {
    var row: seq<Entry> := [];
    for m := 0 to |deps|
      invariant |row| == m && NoRepeat(row)
      invariant forall j :: 0 <= j < m ==>
                  deps[j].name in names && row[j] == Entry(AsU8(names[deps[j].name]), deps[j].cfg)
    {
      if deps[m].name !in names {
        return Err(UnknownDependency);
      }
      var e := Entry(AsU8(names[deps[m].name]), deps[m].cfg);
      if e in row {
        assert Known(names, deps) ==>
            Row(names, deps)[m] == e && forall j :: 0 <= j < m ==> Row(names, deps)[j] == row[j];
        return Err(DuplicateDependency);
      }
      row := row + [e];
    }
    r := Ok(row);
  }

  lemma {:induction false} AllSlotsSplit(items: seq<Item>, k: nat)
    requires k < |items|
    ensures AllSlots(items[..k + 1]) == AllSlots(items[..k]) + SlotsOf(items[k])
    ensures Start(items, k + 1) == Start(items, k) + Size(items[k])
  {
    assert items[..k + 1][..k] == items[..k];
  }

  lemma {:induction false} PrefixOfSlots(items: seq<Item>, k: nat)
    requires k <= |items|
    ensures AllSlots(items[..k]) <= AllSlots(items)
    decreases |items| - k
  {
    if k < |items| {
      AllSlotsSplit(items, k);
      PrefixOfSlots(items, k + 1);
    } else {
      assert items[..k] == items;
    }
  }

  lemma StartOfPrefix(items: seq<Item>, i: nat, k: nat)
    requires k <= i <= |items|
    ensures Start(items[..i], k) == Start(items, k)
  {
    assert items[..i][..k] == items[..k];
  }

  lemma IndexesNext(names: Names, items: seq<Item>, i: nat)
    requires i < |items| && Indexes(names, items[..i])
    ensures items[i].Executor? ==> Indexes(names, items[..i + 1])
    ensures !items[i].Executor? && items[i].name !in names ==>
              Indexes(names[items[i].name := Start(items, i)], items[..i + 1])
  {
    hide Start, Named;
    var was, next := items[..i], items[..i + 1];
    var after := if items[i].Executor? then names else names[items[i].name := Start(items, i)];
    if items[i].Executor? || items[i].name !in names {
      forall k | 0 <= k < |next| && !next[k].Executor?
        ensures next[k].name in after && after[next[k].name] == Start(next, k)
      {
        StartOfPrefix(items, i + 1, k);
        if k < i {
          StartOfPrefix(items, i, k);
          assert was[k] == next[k];
        }
      }
      forall n | n in after
        ensures exists k :: Named(next, k, n)
      {
        if n in names {
          var k :| Named(was, k, n);
          StaysNamed(items, i, k, n);
        } else {
          NamedAt(next, i);
        }
      }
    }
  }

  lemma StaysNamed(items: seq<Item>, i: nat, k: nat, n: string)
    requires i < |items| && Named(items[..i], k, n)
    ensures Named(items[..i + 1], k, n)
  {
  }

  lemma NamedAt(items: seq<Item>, k: nat)
    requires k < |items| && !items[k].Executor?
    ensures Named(items, k, items[k].name)
  {
  }

  lemma NamesKnown(names: Names, items: seq<Item>, name: string)
    requires Indexes(names, items)
    ensures name in names <==> exists k :: Named(items, k, name)
  {
  }

  lemma DistinctNext(names: Names, items: seq<Item>, i: nat)
    requires i < |items| && Indexes(names, items[..i]) && DistinctNames(items[..i])
    ensures items[i].Executor? || items[i].name !in names ==> DistinctNames(items[..i + 1])
    ensures !items[i].Executor? && items[i].name in names ==> !DistinctNames(items)
  {
    var was, next := items[..i], items[..i + 1];
    if items[i].Executor? {
      DistinctGrows(items, i);
    } else {
      NamesKnown(names, was, items[i].name);
      hide Indexes, DistinctNames, Start;
      if items[i].name in names {
        var k :| Named(was, k, items[i].name);
        SameNameTwice(items, k, i);
      } else {
        forall k | 0 <= k < i && !items[k].Executor?
          ensures items[k].name != items[i].name
        {
          assert was[k] == items[k];
          NamedAt(was, k);
        }
        DistinctGrows(items, i);
      }
    }
  }

  lemma SameNameTwice(items: seq<Item>, j: nat, k: nat)
    requires j < k < |items| && !items[j].Executor? && !items[k].Executor? && items[j].name == items[k].name
    ensures !DistinctNames(items)
  {
  }

  lemma DistinctGrows(items: seq<Item>, i: nat)
    requires i < |items| && DistinctNames(items[..i])
    requires !items[i].Executor? ==> forall k :: 0 <= k < i && !items[k].Executor? ==> items[k].name != items[i].name
    ensures DistinctNames(items[..i + 1])
  {
    var was, next := items[..i], items[..i + 1];
    forall j, k | 0 <= j < k < |next| && !next[j].Executor? && !next[k].Executor?
      ensures next[j].name != next[k].name
    {
      if k < i {
        assert was[j] == next[j] && was[k] == next[k];
      }
    }
  }

  lemma NothingPlaced()
    ensures AllSlots([]) == [] && Indexes(map[], []) && DistinctNames([])
  {
  }

  lemma NoSlots(item: Item)
    ensures item.Executor? ==> SlotsOf(item) == []
  {
  }

  // supervisor-macros/src/lib.rs:2710-2803
  method Expand(items: seq<Item>, e: Emission) returns (r: Result<Tables>, ghost names: Names)
    ensures DistinctNames(items) && AllPlaceable(items, e) ==> Indexes(names, items)
    ensures r.Ok? <==>
            && DistinctNames(items) && AllPlaceable(items, e)
            && |AllSlots(items)| <= 256
            && (forall s :: 0 <= s < |AllSlots(items)| ==> GoodRow(names, AllSlots(items)[s].deps))
    ensures r.Ok? ==> r.value.slots == AllSlots(items) && |r.value.rows| == |AllSlots(items)|
    ensures r.Ok? ==> forall s :: 0 <= s < |AllSlots(items)| ==> r.value.rows[s] == Row(names, AllSlots(items)[s].deps)
  {
    hide Indexes, DistinctNames, AllSlots, SlotsOf, GoodRow, Row, Executors;
    var executors := Executors(items);
    var slots: seq<Slot> := [];
    var table: Names := map[];
    assert items[..0] == [];
    NothingPlaced();
    for i := 0 to |items|
      invariant slots == AllSlots(items[..i])
      invariant Indexes(table, items[..i]) && DistinctNames(items[..i])
      invariant forall k :: 0 <= k < i ==> Placeable(items[k], executors, e)
    {
      IndexesNext(table, items, i);
      DistinctNext(table, items, i);
      AllSlotsSplit(items, i);
      NoSlots(items[i]);
      var item := items[i];
      if !item.Executor? {
        if item.Pool? && !e.pools {
          return Err(NoPoolFeature), table;
        }
        if item.executor.Some? && item.executor.value !in executors {
          return Err(UnknownExecutor), table;
        }
        if item.Pool? && !e.emits(item) {
          return Err(NotEmitted), table;
        }
        if item.name in table {
          return Err(DuplicateName), table;
        }
        if !e.emits(item) {
          return Err(NotEmitted), table;
        }
        table := table[item.name := |slots|];
        slots := slots + SlotsOf(item);
      }
    }
    assert items[..|items|] == items;
    names := table;
    if |slots| > 256 {
      return Err(TooManySlots), table;
    }
    var rows := SlotTables(slots, table);
    if rows.Err? {
      return Err(rows.error), table;
    }
    r := Ok(Tables(slots, rows.value));
  }

  // ---------------------------------------------------------------- results

  // Every node and pool can be placed exactly when the executor it names, if
  // any, is declared, its definition can be emitted, and a pool has its feature.
  lemma PlacedExactly(items: seq<Item>, e: Emission)
    ensures AllPlaceable(items, e)
            <==> forall k :: 0 <= k < |items| && !items[k].Executor? ==>
                   && (items[k].executor.Some? ==>
                         exists x :: 0 <= x < |items| && items[x] == Executor(items[k].executor.value))
                   && (items[k].Pool? ==> e.pools)
                   && e.emits(items[k])
  {
    forall k | 0 <= k < |items| && !items[k].Executor? && items[k].executor.Some?
      ensures items[k].executor.value in Executors(items)
              <==> exists x :: 0 <= x < |items| && items[x] == Executor(items[k].executor.value)
    {
    }
    hide Executors;
  }

  // Items tile the slots: item k's members stand at Start(k), Start(k)+1, ...
  lemma ItemsTile(items: seq<Item>, k: nat, j: nat)
    requires k < |items| && j < Size(items[k])
    ensures Start(items, k) + j < |AllSlots(items)|
    ensures AllSlots(items)[Start(items, k) + j] == Slot(items[k].name, j, items[k].deps)
    ensures k + 1 < |items| ==> Start(items, k + 1) == Start(items, k) + Size(items[k])
  {
    AllSlotsSplit(items, k);
    PrefixOfSlots(items, k + 1);
    var before, upto := AllSlots(items[..k]), AllSlots(items[..k + 1]);
    assert upto[|before| + j] == SlotsOf(items[k])[j];
    assert AllSlots(items)[Start(items, k) + j] == upto[Start(items, k) + j];
  }

  // ... and every slot is one item's member.
  lemma {:induction false} SlotHasItem(items: seq<Item>, s: nat, n: nat) returns (k: nat, j: nat)
    requires n <= |items| && s < |AllSlots(items[..n])|
    ensures k < n && j < Size(items[k]) && s == Start(items, k) + j
    decreases n
  {
    assert n != 0;
    AllSlotsSplit(items, n - 1);
    if s < Start(items, n - 1) {
      k, j := SlotHasItem(items, s, n - 1);
    } else {
      k, j := n - 1, s - Start(items, n - 1);
    }
  }

  lemma OwnerHasSlot(items: seq<Item>, s: nat, k: nat)
    requires DistinctNames(items) && s < |AllSlots(items)|
    requires k < |items| && !items[k].Executor? && AllSlots(items)[s].owner == items[k].name
    ensures Size(items[k]) > 0
  {
    hide AllSlots, Start, DistinctNames, SlotsOf;
    assert items[..|items|] == items;
    var t, j := SlotHasItem(items, s, |items|);
    ItemsTile(items, t, j);
    UniqueName(items, t, k);
  }

  lemma UniqueName(items: seq<Item>, t: nat, k: nat)
    requires DistinctNames(items) && t < |items| && k < |items|
    requires !items[t].Executor? && !items[k].Executor? && items[t].name == items[k].name
    ensures t == k
  {
  }

  // Does this index denote the first slot of the named node or pool?
  predicate Denotes(slots: seq<Slot>, index: u8, name: string) {
    index as nat < |slots| && slots[index as nat].owner == name && slots[index as nat].member == 0
  }

  // A dependency's index denotes the named item, untruncated, exactly when
  // that item has a slot: always for a node, for a pool when it has members.
  lemma DepIndexExactly(items: seq<Item>, names: Names, k: nat)
    requires DistinctNames(items) && Indexes(names, items) && |AllSlots(items)| <= 256
    requires k < |items| && !items[k].Executor?
    ensures items[k].name in names
    ensures Denotes(AllSlots(items), AsU8(names[items[k].name]), items[k].name) <==> Size(items[k]) > 0
    ensures Size(items[k]) > 0 ==> AsU8(names[items[k].name]) as nat == Start(items, k)
  {
    assert names[items[k].name] == Start(items, k);
    hide Indexes, AllSlots, Start, AsU8, DistinctNames;
    var slots, index := AllSlots(items), AsU8(names[items[k].name]);
    if Size(items[k]) > 0 {
      ItemsTile(items, k, 0);
      AsU8Exactly(Start(items, k));
    }
    if Denotes(slots, index, items[k].name) {
      OwnerHasSlot(items, index as nat, k);
    }
  }

  // In an accepted graph every row entry denotes its dependency exactly when
  // that dependency has a slot, and no row repeats an (index, cfg) pair.
  lemma RowsAreRight(items: seq<Item>, names: Names, deps: seq<Dep>, m: nat) returns (k: nat)
    requires DistinctNames(items) && Indexes(names, items) && |AllSlots(items)| <= 256
    requires GoodRow(names, deps) && m < |deps|
    ensures Named(items, k, deps[m].name)
    ensures Denotes(AllSlots(items), Row(names, deps)[m].index, deps[m].name) <==> Size(items[k]) > 0
    ensures forall j :: 0 <= j < |deps| && j != m ==> Row(names, deps)[j] != Row(names, deps)[m]
  {
    assert deps[m].name in names;
    k :| Named(items, k, deps[m].name);
    DepIndexExactly(items, names, k);
    hide Indexes, AllSlots, Start, AsU8, DistinctNames, Denotes;
  }

  // An empty pool's dependents depend on whatever comes next.
  lemma EmptyPoolMisdirects(names: Names)
    requires Indexes(names, [Pool("P", 0, None, []), Node("A", None, [Dep("P", "")])])
    ensures "P" in names && "A" in names && names["P"] == names["A"] == 0
    ensures GoodRow(names, [Dep("P", "")]) && Row(names, [Dep("P", "")]) == [Entry(0, "")]
  {
    var items := [Pool("P", 0, None, []), Node("A", None, [Dep("P", "")])];
    assert items[0].name == "P" && items[1].name == "A";
    assert items[..0] == [] && items[..1] == [items[0]];
    assert items[..1][..0] == [];
    assert Start(items, 0) == 0 && Start(items, 1) == 0;
  }
}
