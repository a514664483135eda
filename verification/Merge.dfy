/** Merging the evaluated configuration of a resource into its values
    (terraform/plan.go). */
module Merge {
  import opened Wrappers

  // JSON as decoded by Go. Scalars are never looked into.
  datatype Val = Null | Scalar(text: string) | Obj(fields: Fields) | Arr(items: seq<Val>)

  type Fields = map<string, Val>

  function NonNull(m: Fields): (r: Fields)
    ensures forall k :: k in r <==> k in m && m[k] != Null
    ensures forall k | k in r :: r[k] == m[k]
  {
    map k | k in m && m[k] != Null :: m[k]
  }

  // ----- what the merge of one value is -----

  // The block of the resource, completed from the configuration.
  function Filled(block: Fields, config: Fields): Fields {
    NonNull(config) + block
  }

  // None: a type assertion or an index fails, and the program crashes.
  function ItemStep(current: Val, config: seq<Val>, i: nat): Option<Val>
    requires i < |config|
  {
    if !config[i].Obj? then Some(Arr(config))
    else if current.Arr? && i < |current.items| && current.items[i].Obj? then
      Some(Arr(current.items[i := Obj(Filled(current.items[i].fields, config[i].fields))]))
    else None
  }

  function ItemsUpTo(value: Val, config: seq<Val>, n: nat): Option<Val>
    requires n <= |config|
  {
    if n == 0 then Some(value) else
      match ItemsUpTo(value, config, n - 1)
      case None => None
      case Some(current) => ItemStep(current, config, n - 1)
  }

  function MergeValue(value: Val, config: Val): Option<Val> {
    match config
    case Obj(fields) =>
      if NonNull(fields) == map[] then Some(value)
      else if value.Obj? then Some(Obj(value.fields + NonNull(fields)))
      else None
    case Arr(items) => ItemsUpTo(value, items, |items|)
    // The value of the resource is kept: it may belong to the prior state.
    case _ => Some(value)
  }

  function MergeAt(values: Fields, config: Fields, k: string): Option<Val>
    requires k in config
  {
    if k !in values then Some(config[k]) else MergeValue(values[k], config[k])
  }

  // No key of the configuration crashes.
  predicate Mergeable(values: Fields, config: Fields) {
    forall k | k in NonNull(config) :: MergeAt(values, config, k).Some?
  }

  // The merge, key by key.
  function Merged(values: Fields, config: Fields): Fields
    requires Mergeable(values, config)
  {
    map k | k in values.Keys + NonNull(config).Keys ::
      if k in NonNull(config) then MergeAt(values, config, k).value else values[k]
  }

  // ----- the loops -----

  lemma NonNullNext(fields: Fields, rest: set<string>, k: string)
    requires k in rest && rest <= fields.Keys
    ensures NonNull(fields - (rest - {k})) ==
            if fields[k] != Null then NonNull(fields - rest)[k := fields[k]] else NonNull(fields - rest)
  {
  }

  // Sets the non-nil entries of a configuration map, in any order.
  method SetEntries(value: Val, fields: Fields) returns (ok: bool, result: Val)
    ensures ok == MergeValue(value, Obj(fields)).Some?
    ensures ok ==> result == MergeValue(value, Obj(fields)).value
  {
    var entries: Fields := if value.Obj? then value.fields else map[];
    var rest := fields.Keys;
    while rest != {}
      invariant rest <= fields.Keys
      invariant value.Obj? ==> entries == value.fields + NonNull(fields - rest)
      invariant !value.Obj? ==> NonNull(fields - rest) == map[]
    {
      var k :| k in rest;
      NonNullNext(fields, rest, k);
      if fields[k] != Null {
        if !value.Obj? {
          assert k in NonNull(fields);
          return false, value;
        }
        entries := entries[k := fields[k]];
      }
      rest := rest - {k};
    }
    assert fields - {} == fields;
    if value.Obj? {
      assert NonNull(fields) == map[] ==> entries == value.fields;
      return true, Obj(entries);
    }
    return true, value;
  }

  lemma FilledNext(block: Fields, config: Fields, rest: set<string>, k: string)
    requires k in rest && rest <= config.Keys
    ensures var was := Filled(block, config - rest);
            Filled(block, config - (rest - {k})) ==
            if config[k] != Null && k !in was then was[k := config[k]] else was
  {
    NonNullNext(config, rest, k);
  }

  // Completes one block, in any order.
  method FillBlock(block: Fields, config: Fields) returns (result: Fields)
    ensures result == Filled(block, config)
  {
    result := block;
    var rest := config.Keys;
    while rest != {}
      invariant rest <= config.Keys
      invariant result == Filled(block, config - rest)
    {
      var k :| k in rest;
      FilledNext(block, config, rest, k);
      if config[k] != Null && k !in result {
        result := result[k := config[k]];
      }
      rest := rest - {k};
    }
    assert config - {} == config;
  }

  // Merges a list of blocks; an item that is no block replaces the whole list.
  method MergeItems(value: Val, items: seq<Val>) returns (ok: bool, result: Val)
    ensures ok == ItemsUpTo(value, items, |items|).Some?
    ensures ok ==> result == ItemsUpTo(value, items, |items|).value
  {
    result := value;
    for i := 0 to |items|
      invariant ItemsUpTo(value, items, i) == Some(result)
    {
      if !items[i].Obj? {
        result := Arr(items);
        continue;
      }
      if !(result.Arr? && i < |result.items| && result.items[i].Obj?) {
        ItemsStuck(value, items, i + 1, |items|);
        return false, result;
      }
      var block := FillBlock(result.items[i].fields, items[i].fields);
      result := Arr(result.items[i := Obj(block)]);
    }
    ok := true;
  }

  lemma {:induction false} ItemsStuck(value: Val, items: seq<Val>, m: nat, n: nat)
    requires m <= n <= |items| && ItemsUpTo(value, items, m).None?
    ensures ItemsUpTo(value, items, n).None?
    decreases n
  {
    if m < n {
      ItemsStuck(value, items, m, n - 1);
    }
  }

  method MergeOne(value: Val, config: Val) returns (ok: bool, merged: Val)
    ensures ok == MergeValue(value, config).Some?
    ensures ok ==> merged == MergeValue(value, config).value
  {
    match config
    case Obj(fields) =>
      ok, merged := SetEntries(value, fields);
    case Arr(items) =>
      ok, merged := MergeItems(value, items);
    case _ =>
      ok, merged := true, value;
  }

  /** The merge loop of extractModuleQueries: the result does not depend on the
      order in which the keys are visited, and it crashes exactly when some key does. */
  method MergeInto(values: Fields, config: Fields) returns (ok: bool, result: Fields)
    ensures ok == Mergeable(values, config)
    ensures ok ==> result == Merged(values, config)
  {
    result := values;
    var rest := config.Keys;
    while rest != {}
      invariant rest <= config.Keys
      invariant forall k | k in NonNull(config) && k !in rest :: MergeAt(values, config, k).Some?
      invariant result.Keys == values.Keys + (NonNull(config).Keys - rest)
      invariant forall k | k in result ::
                  result[k] == if k in NonNull(config) && k !in rest then MergeAt(values, config, k).value else values[k]
    {
      var k :| k in rest;
      rest := rest - {k};
      var v := config[k];
      if v == Null {
        continue;
      }
      assert k in NonNull(config);
      if k !in result {
        result := result[k := v];
        continue;
      }
      var merged;
      ok, merged := MergeOne(values[k], v);
      assert MergeAt(values, config, k) == MergeValue(values[k], v);
      if !ok {
        return;
      }
      result := result[k := merged];
    }
    ok := true;
  }

  // ----- lists of blocks -----

  ghost predicate AllBlocks(items: seq<Val>) {
    forall i | 0 <= i < |items| :: items[i].Obj?
  }

  // The resource has a block for each of the first n blocks of the configuration.
  ghost predicate HasBlocks(value: Val, n: nat) {
    n == 0 || (value.Arr? && n <= |value.items| && forall i | 0 <= i < n :: value.items[i].Obj?)
  }

  lemma FillSelf(m: Fields)
    ensures Filled(m, m) == m
  {
  }

  /** A list of blocks crashes exactly when the resource lacks a block at some
      position; otherwise each block is completed and the others are kept. */
  lemma {:induction false} BlocksExactly(value: Val, items: seq<Val>, n: nat)
    requires n <= |items| && forall i | 0 <= i < n :: items[i].Obj?
    ensures ItemsUpTo(value, items, n).Some? <==> HasBlocks(value, n)
    ensures ItemsUpTo(value, items, n).Some? && n > 0 ==>
              var r := ItemsUpTo(value, items, n).value;
              && r.Arr? && |r.items| == |value.items|
              && forall i | 0 <= i < |r.items| ::
                   r.items[i] == if i < n then Obj(Filled(value.items[i].fields, items[i].fields)) else value.items[i]
    ensures n == 0 ==> ItemsUpTo(value, items, n) == Some(value)
  {
    if n > 0 {
      BlocksExactly(value, items, n - 1);
    }
  }

  /** A list with an item that is no block replaces the value of the resource,
      unless a block before that item crashes. */
  lemma {:induction false} MixedExactly(value: Val, items: seq<Val>, first: nat, n: nat)
    requires first < n <= |items|
    requires !items[first].Obj? && forall i | 0 <= i < first :: items[i].Obj?
    ensures ItemsUpTo(value, items, n) == if HasBlocks(value, first) then Some(Arr(items)) else None
  {
    if n == first + 1 {
      BlocksExactly(value, items, first);
    } else {
      MixedExactly(value, items, first, n - 1);
      if items[n - 1].Obj? {
        FillSelf(items[n - 1].fields);
        assert items[n - 1 := items[n - 1]] == items;
      }
    }
  }

  lemma FirstPlain(items: seq<Val>) returns (first: nat)
    requires !AllBlocks(items)
    ensures first < |items| && !items[first].Obj? && forall i | 0 <= i < first :: items[i].Obj?
  {
    first := 0;
    while items[first].Obj?
      invariant first < |items| && forall i | 0 <= i < first :: items[i].Obj?
      invariant exists i | first <= i < |items| :: !items[i].Obj?
      decreases |items| - first
    {
      first := first + 1;
    }
  }

  // ----- laws of the merge -----

  lemma BlocksTwice(value: Val, items: seq<Val>)
    requires AllBlocks(items) && MergeValue(value, Arr(items)).Some?
    ensures MergeValue(MergeValue(value, Arr(items)).value, Arr(items)) == MergeValue(value, Arr(items))
  {
    var n := |items|;
    BlocksExactly(value, items, n);
    if n > 0 {
      var once := MergeValue(value, Arr(items)).value;
      BlocksExactly(once, items, n);
      var twice := MergeValue(once, Arr(items)).value;
      forall i | 0 <= i < |twice.items| ensures twice.items[i] == once.items[i] {
        if i < n {
          FilledTwice(value.items[i].fields, items[i].fields);
        }
      }
      assert twice.items == once.items;
    }
  }

  lemma FilledTwice(block: Fields, config: Fields)
    ensures Filled(Filled(block, config), config) == Filled(block, config)
  {
  }

  lemma ValueTwice(value: Val, config: Val)
    requires MergeValue(value, config).Some?
    ensures MergeValue(MergeValue(value, config).value, config) == MergeValue(value, config)
  {
    match config
    case Obj(fields) =>
      if value.Obj? {
        var n := NonNull(fields);
        assert (value.fields + n) + n == value.fields + n;
      }
    case Arr(items) =>
      if AllBlocks(items) {
        BlocksTwice(value, items);
      } else {
        var first := FirstPlain(items);
        MixedExactly(value, items, first, |items|);
        MixedExactly(Arr(items), items, first, |items|);
      }
    case _ =>
  }

  lemma ConfigOnItself(config: Val)
    ensures MergeValue(config, config) == Some(config)
  {
    match config
    case Obj(fields) =>
      assert fields + NonNull(fields) == fields;
    case Arr(items) =>
      if AllBlocks(items) {
        BlocksExactly(config, items, |items|);
        if items != [] {
          var r := MergeValue(config, config).value;
          forall i | 0 <= i < |items| ensures r.items[i] == items[i] {
            FillSelf(items[i].fields);
          }
          assert r.items == items;
        }
      } else {
        var first := FirstPlain(items);
        MixedExactly(config, items, first, |items|);
      }
    case _ =>
  }

  /** Merging the same configuration again changes nothing, whatever the shapes. */
  lemma MergeIdempotent(values: Fields, config: Fields)
    requires Mergeable(values, config)
    ensures Mergeable(Merged(values, config), config)
    ensures Merged(Merged(values, config), config) == Merged(values, config)
  {
    var once := Merged(values, config);
    forall k | k in NonNull(config) ensures MergeAt(once, config, k) == Some(once[k]) {
      if k in values {
        ValueTwice(values[k], config[k]);
      } else {
        ConfigOnItself(config[k]);
      }
    }
  }

  /** The keys after the merge are the old ones and the non-nil ones of the
      configuration; keys the configuration does not set keep their value. */
  lemma MergeKeys(values: Fields, config: Fields)
    requires Mergeable(values, config)
    ensures Merged(values, config).Keys == values.Keys + NonNull(config).Keys
    ensures forall k | k in values && k !in NonNull(config) :: Merged(values, config)[k] == values[k]
    ensures forall k | k !in values && k in NonNull(config) :: Merged(values, config)[k] == config[k]
  {
  }

  /** Where both sides have a value: a scalar of the resource wins, the non-nil
      entries of a configuration map win, and the blocks of a list only gain the
      non-nil entries they miss. */
  lemma MergePrecedence(values: Fields, config: Fields, k: string)
    requires Mergeable(values, config) && k in values && k in NonNull(config)
    ensures config[k].Scalar? ==> Merged(values, config)[k] == values[k]
    ensures config[k].Obj? && NonNull(config[k].fields) != map[] ==>
              && values[k].Obj? && Merged(values, config)[k].Obj?
              && var m := Merged(values, config)[k].fields;
              && m.Keys == values[k].fields.Keys + NonNull(config[k].fields).Keys
              && (forall e | e in m :: m[e] == if e in NonNull(config[k].fields) then config[k].fields[e] else values[k].fields[e])
    ensures config[k].Arr? && config[k].items != [] && AllBlocks(config[k].items) ==>
              && values[k].Arr? && Merged(values, config)[k].Arr?
              && |config[k].items| <= |values[k].items| == |Merged(values, config)[k].items|
              && forall i | 0 <= i < |config[k].items| ::
                   && values[k].items[i].Obj? && Merged(values, config)[k].items[i].Obj?
                   && BlockGains(values[k].items[i].fields, config[k].items[i].fields, Merged(values, config)[k].items[i].fields)
  {
    if config[k].Arr? && AllBlocks(config[k].items) {
      BlocksExactly(values[k], config[k].items, |config[k].items|);
    }
  }

  // `after` is `before` plus the entries of `config` that are not nil and were missing.
  ghost predicate BlockGains(before: Fields, config: Fields, after: Fields) {
    && (forall e | e in before :: e in after && after[e] == before[e])
    && (forall e | e !in before :: e in after <==> e in config && config[e] != Null)
    && (forall e | e !in before && e in after :: after[e] == config[e])
  }

  /** The merge crashes exactly when the shapes clash: a map meets no map, or a
      block, before any item that is no block, meets no block. */
  lemma CrashExactly(values: Fields, config: Fields)
    ensures Mergeable(values, config) <==> forall k | k in values && k in NonNull(config) :: Compatible(values[k], config[k])
  {
    forall k | k in values && k in NonNull(config)
      ensures MergeValue(values[k], config[k]).Some? <==> Compatible(values[k], config[k])
    {
      CompatibleExactly(values[k], config[k]);
    }
  }

  // Item i and all before it are blocks.
  ghost predicate Leading(items: seq<Val>, i: nat)
    requires i < |items|
  {
    forall j | 0 <= j <= i :: items[j].Obj?
  }

  ghost predicate Compatible(value: Val, config: Val) {
    match config
    case Obj(fields) => value.Obj? || forall e | e in fields :: fields[e] == Null
    case Arr(items) =>
      forall i | 0 <= i < |items| && Leading(items, i) ::
        value.Arr? && i < |value.items| && value.items[i].Obj?
    case _ => true
  }

  lemma CompatibleExactly(value: Val, config: Val)
    ensures MergeValue(value, config).Some? <==> Compatible(value, config)
  {
    match config
    case Obj(fields) =>
      assert NonNull(fields) == map[] <==> forall e | e in fields :: fields[e] == Null by {
        if e :| e in fields && fields[e] != Null {
          assert e in NonNull(fields);
        }
      }
    case Arr(items) =>
      var n := |items|;
      if AllBlocks(items) {
        BlocksExactly(value, items, n);
      } else {
        n := FirstPlain(items);
        MixedExactly(value, items, n, |items|);
      }
      LeadingBlocks(value, items, n);
    case _ =>
  }

  lemma LeadingBlocks(value: Val, items: seq<Val>, n: nat)
    requires n <= |items| && (forall i | 0 <= i < n :: items[i].Obj?) && (n < |items| ==> !items[n].Obj?)
    ensures HasBlocks(value, n) <==> Compatible(value, Arr(items))
  {
    if Compatible(value, Arr(items)) && n > 0 {
      forall i | 0 <= i < n ensures value.Arr? && i < |value.items| && value.items[i].Obj? {
        assert Leading(items, i);
      }
      assert Leading(items, n - 1);
      assert value.Arr? && n - 1 < |value.items|;
    }
  }
}
