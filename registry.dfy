/**
 * The command registry of elbie.ts: every module contributes a table of
 * commands, and `Object.assign` folds the tables, in load order, into one
 * flat `commandList`. A JavaScript object is modelled as an insertion-ordered
 * map: its keys in their insertion order, and the value of each key.
 */
module Registry {
  import opened Wrappers
  import opened Strings

  /** An opaque reference to a module's handler function. */
  type HandlerId = nat

  /** A registration entry `{ key: handler, desc?: string }`. */
  datatype Entry = Entry(key: HandlerId, desc: Option<string>)

  /** A JavaScript object: its own keys in iteration order, and what each key maps to. */
  datatype OrderedMap = OrderedMap(order: seq<string>, entries: map<string, Entry>)

  /** No key occurs twice: each key is new with respect to the keys before it. */
  predicate Distinct(keys: seq<string>)
    decreases |keys|
  {
    keys == [] || (keys[|keys| - 1] !in keys[..|keys| - 1] && Distinct(keys[..|keys| - 1]))
  }

  /** Every prefix of a list of distinct keys is distinct. */
  lemma {:induction false} DistinctPrefix(keys: seq<string>, n: nat)
    requires Distinct(keys) && n <= |keys|
    ensures Distinct(keys[..n])
    decreases |keys| - n
  {
    if n < |keys| {
      DistinctPrefix(keys, n + 1);
      assert keys[..n + 1][..n] == keys[..n];
    } else {
      assert keys[..n] == keys;
    }
  }

  /** The set of the listed keys. */
  function KeySet(keys: seq<string>): set<string>
    decreases |keys|
  {
    if keys == [] then {} else KeySet(keys[..|keys| - 1]) + {keys[|keys| - 1]}
  }

  lemma {:induction false} KeySetMembers(keys: seq<string>)
    ensures forall k :: k in KeySet(keys) <==> k in keys
    decreases |keys|
  {
    if keys != [] {
      KeySetMembers(keys[..|keys| - 1]);
      assert keys == keys[..|keys| - 1] + [keys[|keys| - 1]];
    }
  }

  /** Every key is listed once, and exactly the listed keys have values. */
  predicate WellFormed(m: OrderedMap) {
    Distinct(m.order) && m.entries.Keys == KeySet(m.order)
  }

  /** In a well-formed table, a key has a value exactly when it is listed. */
  lemma Listed(t: Table, k: string)
    ensures k in t.entries <==> k in t.order
  {
    KeySetMembers(t.order);
  }

  type Table = m: OrderedMap | WellFormed(m) witness OrderedMap([], map[])

  /** The empty object literal `{}`. */
  const Empty: Table := OrderedMap([], map[])

  /** A bot module: its name, its description and its command table. */
  datatype BotModule = BotModule(name: string, desc: string, commands: Table)

  /** `t[k] = e`: an existing key keeps its position and takes the new entry; a new key is appended. */
  function Put(t: Table, k: string, e: Entry): (r: Table)
    ensures r.entries == t.entries[k := e]
    ensures r.order == t.order + (if k in t.entries then [] else [k])
  {
    if k in t.entries then OrderedMap(t.order, t.entries[k := e])
    else
      assert (t.order + [k])[..|t.order|] == t.order;
      Listed(t, k);
      OrderedMap(t.order + [k], t.entries[k := e])
  }

  /** The keys of `keys` that `seen` does not hold, in the order of `keys`. */
  function Unseen(keys: seq<string>, seen: map<string, Entry>): seq<string>
    decreases |keys|
  {
    if keys == [] then []
    else
      var last := keys[|keys| - 1];
      Unseen(keys[..|keys| - 1], seen) + (if last in seen then [] else [last])
  }

  /** The entry of the `i`-th listed key. */
  function ValueAt(t: Table, i: nat): Entry
    requires i < |t.order|
  {
    Listed(t, t.order[i]);
    t.entries[t.order[i]]
  }

  /** The entries of the first `n` keys of `source`, as `Object.assign` has copied them so far. */
  function Prefix(source: Table, n: nat): map<string, Entry>
    requires n <= |source.order|
    decreases n
  {
    if n == 0 then map[]
    else Prefix(source, n - 1)[source.order[n - 1] := ValueAt(source, n - 1)]
  }

  /** The first `n` keys of `source` are exactly the keys copied so far, with their source entries. */
  lemma {:induction false} PrefixContents(source: Table, n: nat)
    requires n <= |source.order|
    ensures forall k :: k in Prefix(source, n) <==> k in source.order[..n]
    ensures forall k :: k in Prefix(source, n) ==> k in source.entries && Prefix(source, n)[k] == source.entries[k]
    decreases n
  {
    if n > 0 {
      PrefixContents(source, n - 1);
      assert source.order[..n] == source.order[..n - 1] + [source.order[n - 1]];
      Listed(source, source.order[n - 1]);
    }
  }

  /** The first `n` steps of `Object.assign(target, source)`. */
  function AssignKeys(target: Table, source: Table, n: nat): (r: Table)
    requires n <= |source.order|
    ensures r.entries == target.entries + Prefix(source, n)
    ensures r.order == target.order + Unseen(source.order[..n], target.entries)
    decreases n
  {
    if n == 0 then
      assert source.order[..0] == [];
      target
    else
      var before := AssignKeys(target, source, n - 1);
      AssignStepEntries(target, source, n, before);
      AssignStepOrder(target, source, n, before);
      Put(before, source.order[n - 1], ValueAt(source, n - 1))
  }

  /** The `n`-th source key is not among the keys copied before it, since an object's keys are distinct. */
  lemma NextKeyIsNew(source: Table, n: nat)
    requires 0 < n <= |source.order|
    ensures source.order[n - 1] !in Prefix(source, n - 1)
  {
    PrefixContents(source, n - 1);
    DistinctPrefix(source.order, n);
    assert source.order[..n][..n - 1] == source.order[..n - 1];
  }

  /** One step of `Object.assign` on the values: the `n`-th source entry is copied over. */
  lemma AssignStepEntries(target: Table, source: Table, n: nat, before: Table)
    requires 0 < n <= |source.order|
    requires before.entries == target.entries + Prefix(source, n - 1)
    ensures Put(before, source.order[n - 1], ValueAt(source, n - 1)).entries == target.entries + Prefix(source, n)
  {
    var k := source.order[n - 1];
    var v := ValueAt(source, n - 1);
    var copied := Prefix(source, n - 1);
    assert (target.entries + copied)[k := v] == target.entries + copied[k := v];
  }

  /** Appending a key to `keys` appends it to the unseen keys unless `seen` holds it. */
  lemma UnseenSnoc(keys: seq<string>, k: string, seen: map<string, Entry>)
    ensures Unseen(keys + [k], seen) == Unseen(keys, seen) + (if k in seen then [] else [k])
  {
    assert (keys + [k])[..|keys|] == keys;
  }

  /** The key order after copying `k`, given the order before it, on plain sequences. */
  lemma OrderStep(targetOrder: seq<string>, seen: map<string, Entry>, keys: seq<string>, k: string,
                  beforeOrder: seq<string>, present: bool)
    requires beforeOrder == targetOrder + Unseen(keys, seen)
    requires present <==> k in seen
    ensures beforeOrder + (if present then [] else [k]) == targetOrder + Unseen(keys + [k], seen)
  {
    UnseenSnoc(keys, k, seen);
    AppendAssociative(targetOrder, Unseen(keys, seen), if present then [] else [k]);
  }

  /** The `n`-th source key is in the partly assigned target exactly when it was in the target to begin with. */
  lemma NewKeyStaysNew(target: Table, source: Table, n: nat, before: Table)
    requires 0 < n <= |source.order|
    requires before.entries == target.entries + Prefix(source, n - 1)
    ensures source.order[n - 1] in before.entries <==> source.order[n - 1] in target.entries
  {
    NextKeyIsNew(source, n);
  }

  /** One step of `Object.assign` on the keys: the `n`-th source key is appended unless the target had it. */
  lemma AssignStepOrder(target: Table, source: Table, n: nat, before: Table)
    requires 0 < n <= |source.order|
    requires before.entries == target.entries + Prefix(source, n - 1)
    requires before.order == target.order + Unseen(source.order[..n - 1], target.entries)
    ensures Put(before, source.order[n - 1], ValueAt(source, n - 1)).order
            == target.order + Unseen(source.order[..n], target.entries)
  {
    var k := source.order[n - 1];
    NewKeyStaysNew(target, source, n, before);
    assert source.order[..n] == source.order[..n - 1] + [k];
    OrderStep(target.order, target.entries, source.order[..n - 1], k, before.order, k in before.entries);
  }

  /**
   * `Object.assign(target, source)`: the source's keys override the target's,
   * the target's keys keep their positions, and the source's new keys follow
   * in the source's order.
   */
  function Assign(target: Table, source: Table): (r: Table)
    ensures r.entries == target.entries + source.entries
    ensures r.order == target.order + Unseen(source.order, target.entries)
  {
    assert source.order[..|source.order|] == source.order;
    PrefixContents(source, |source.order|);
    KeySetMembers(source.order);
    assert Prefix(source, |source.order|) == source.entries;
    AssignKeys(target, source, |source.order|)
  }

  /** The command list after the first modules' tables have been assigned, in load order. */
  function Build(modules: seq<BotModule>): (r: Table)
    ensures modules != [] ==> modules[|modules| - 1].commands.entries.Keys <= r.entries.Keys
    decreases |modules|
  {
    if modules == [] then Empty
    else Assign(Build(modules[..|modules| - 1]), modules[|modules| - 1].commands)
  }

  /** The loop of elbie.ts: `Object.assign(commandList, botmodule.commands)` for each module. */
  method BuildCommandList(modules: seq<BotModule>) returns (commandList: Table)
    ensures commandList == Build(modules)
  {
    commandList := Empty;
    var i := 0;
    while i < |modules|
      invariant 0 <= i <= |modules|
      invariant commandList == Build(modules[..i])
    {
      assert modules[..i + 1][..i] == modules[..i];
      commandList := Assign(commandList, modules[i].commands);
      i := i + 1;
    }
    assert modules[..i] == modules;
  }

  /** The registry's values alone: the modules' command maps united in load order, later ones overriding. */
  function Merged(modules: seq<BotModule>): map<string, Entry>
    decreases |modules|
  {
    if modules == [] then map[]
    else Merged(modules[..|modules| - 1]) + modules[|modules| - 1].commands.entries
  }

  /** The built table holds exactly the merged values. */
  lemma {:induction false} BuildEntriesAreMerged(modules: seq<BotModule>)
    ensures Build(modules).entries == Merged(modules)
    decreases |modules|
  {
    if modules != [] {
      BuildEntriesAreMerged(modules[..|modules| - 1]);
    }
  }

  /** Every merged name was defined by some module. */
  lemma {:induction false} MergedNamesAreDefined(modules: seq<BotModule>, name: string)
    requires name in Merged(modules)
    ensures exists j :: 0 <= j < |modules| && name in modules[j].commands.entries
    decreases |modules|
  {
    var last := |modules| - 1;
    var init := modules[..last];
    if name !in modules[last].commands.entries {
      MergedNamesAreDefined(init, name);
      var j :| 0 <= j < |init| && name in init[j].commands.entries;
      assert modules[j] == init[j];
    }
  }

  /** A name maps to the entry of the last module, in load order, that defines it. */
  lemma {:induction false} MergedLastWriterWins(modules: seq<BotModule>, name: string, j: nat)
    requires j < |modules| && name in modules[j].commands.entries
    requires forall later :: j < later < |modules| ==> name !in modules[later].commands.entries
    ensures name in Merged(modules) && Merged(modules)[name] == modules[j].commands.entries[name]
    decreases |modules|
  {
    var last := |modules| - 1;
    var init := modules[..last];
    if j < last {
      assert name !in modules[last].commands.entries;
      assert init[j] == modules[j];
      forall later | j < later < |init| ensures name !in init[later].commands.entries {
        assert init[later] == modules[later];
      }
      MergedLastWriterWins(init, name, j);
    }
  }

  /** Every name some module defines is merged. */
  lemma {:induction false} MergedHasDefinedNames(modules: seq<BotModule>, name: string, j: nat)
    requires j < |modules| && name in modules[j].commands.entries
    ensures name in Merged(modules)
    decreases |modules|
  {
    var last := |modules| - 1;
    if j < last {
      var init := modules[..last];
      assert init[j] == modules[j];
      MergedHasDefinedNames(init, name, j);
    }
  }

  /** The registry's names are exactly the union of the names the modules define. */
  lemma BuildKeys(modules: seq<BotModule>, name: string)
    ensures name in Build(modules).entries <==>
            exists j :: 0 <= j < |modules| && name in modules[j].commands.entries
  {
    BuildEntriesAreMerged(modules);
    if name in Merged(modules) {
      MergedNamesAreDefined(modules, name);
    }
    if exists j :: 0 <= j < |modules| && name in modules[j].commands.entries {
      var j :| 0 <= j < |modules| && name in modules[j].commands.entries;
      MergedHasDefinedNames(modules, name, j);
    }
  }

  /** A name maps to the entry of the last module, in load order, that defines it; earlier definitions are overwritten. */
  lemma BuildLastWriterWins(modules: seq<BotModule>, name: string, j: nat)
    requires j < |modules| && name in modules[j].commands.entries
    requires forall later :: j < later < |modules| ==> name !in modules[later].commands.entries
    ensures name in Build(modules).entries
    ensures Build(modules).entries[name] == modules[j].commands.entries[name]
  {
    BuildEntriesAreMerged(modules);
    MergedLastWriterWins(modules, name, j);
  }

  /** The registry's listing order: each module appends the names not merged before it. */
  function Names(modules: seq<BotModule>): seq<string>
    decreases |modules|
  {
    if modules == [] then []
    else
      var init := modules[..|modules| - 1];
      Names(init) + Unseen(modules[|modules| - 1].commands.order, Merged(init))
  }

  /** The built table lists its names in that order. */
  lemma {:induction false} BuildOrderIsNames(modules: seq<BotModule>)
    ensures Build(modules).order == Names(modules)
    decreases |modules|
  {
    if modules != [] {
      var init := modules[..|modules| - 1];
      BuildOrderIsNames(init);
      BuildEntriesAreMerged(init);
    }
  }

  lemma PrefixOfAppend(a: seq<string>, b: seq<string>, c: seq<string>)
    requires a <= b
    ensures a <= b + c
  {
    assert (b + c)[..|b|] == b;
  }

  /** Loading more modules only appends to the listing order. */
  lemma {:induction false} NamesGrow(modules: seq<BotModule>, i: nat)
    requires i <= |modules|
    ensures Names(modules[..i]) <= Names(modules)
    decreases |modules|
  {
    if i == |modules| {
      assert modules[..i] == modules;
    } else {
      var init := modules[..|modules| - 1];
      NamesGrow(init, i);
      assert init[..i] == modules[..i];
      PrefixOfAppend(Names(modules[..i]), Names(init), Unseen(modules[|modules| - 1].commands.order, Merged(init)));
    }
  }

  /** A name registered once keeps its position while later modules are loaded. */
  lemma BuildKeepsPositions(modules: seq<BotModule>, i: nat)
    requires i <= |modules|
    ensures Build(modules[..i]).order <= Build(modules).order
  {
    BuildOrderIsNames(modules);
    BuildOrderIsNames(modules[..i]);
    NamesGrow(modules, i);
  }
}
