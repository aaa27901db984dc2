/** The catalogue object: provider tables are merged in, then the list of entries
    and the alias table are built from them (src/api/model_merge.py:214-264 and
    447-502). */
module Catalogue {
  import opened Options
  import opened ModelMerge
  import opened PublicIds
  import opened AliasTable

  // --------------------------------------------------------------- listing

  /** A finished entry still describes the merged entry of its key. */
  ghost predicate Describes(e: Entry, grouped: Grouped) {
    && e.WellFormed() && e.aliasOf == None && e.key in grouped
    && e.rawIds == grouped[e.key].rawIds && e.providers == grouped[e.key].providers
  }

  ghost predicate Listed(entries: seq<Entry>, key: string) {
    exists i :: 0 <= i < |entries| && entries[i].key == key
  }

  /** One finished entry for each of some keys of the merged entries. */
  ghost predicate ListsKeys(entries: seq<Entry>, grouped: Grouped, keys: set<string>) {
    && (forall i :: 0 <= i < |entries| ==> Describes(entries[i], grouped) && entries[i].key in keys)
    && (forall i, j :: 0 <= i < j < |entries| ==> entries[i].key != entries[j].key)
    && (forall key :: key in keys ==> Listed(entries, key))
  }

  ghost predicate Lists(entries: seq<Entry>, grouped: Grouped) { ListsKeys(entries, grouped, grouped.Keys) }

  lemma ListOneMore(entries: seq<Entry>, grouped: Grouped, keys: set<string>, e: Entry)
    requires ListsKeys(entries, grouped, keys) && Describes(e, grouped) && e.key !in keys
    ensures ListsKeys(entries + [e], grouped, keys + {e.key})
  {
    var all := entries + [e];
    forall key | key in keys + {e.key} ensures Listed(all, key) {
      if key == e.key {
        assert all[|entries|].key == key;
      } else {
        assert Listed(entries, key);
        var i :| 0 <= i < |entries| && entries[i].key == key;
        assert all[i].key == key;
      }
    }
  }

  /** Every listed entry is the merged entry of its key. */
  ghost predicate AsMerged(listed: seq<Entry>, grouped: Grouped) {
    forall i :: 0 <= i < |listed| ==> listed[i].key in grouped && listed[i] == grouped[listed[i].key]
  }

  lemma ListNext(naming: Naming, log: seq<Placement>, listed: seq<Entry>, done: set<string>, key: string)
    requires ListsKeys(listed, MergeAll(naming, log), done) && AsMerged(listed, MergeAll(naming, log))
    requires key in MergeAll(naming, log) && key !in done
    ensures ListsKeys(listed + [MergeAll(naming, log)[key]], MergeAll(naming, log), done + {key})
    ensures AsMerged(listed + [MergeAll(naming, log)[key]], MergeAll(naming, log))
  {
    MergedDescribes(naming, log, key);
    ListOneMore(listed, MergeAll(naming, log), done, MergeAll(naming, log)[key]);
  }

  lemma SameShapeLists(before: seq<Entry>, after: seq<Entry>, grouped: Grouped)
    requires Lists(before, grouped) && |after| == |before|
    requires forall i :: 0 <= i < |before| ==> after[i] == before[i].(id := after[i].id, meta := after[i].meta)
    ensures Lists(after, grouped)
  {
    forall i | 0 <= i < |after| ensures Describes(after[i], grouped) {
      assert Describes(before[i], grouped);
    }
    forall key | key in grouped ensures Listed(after, key) {
      assert Listed(before, key);
      var i :| 0 <= i < |before| && before[i].key == key;
      assert after[i].key == key;
    }
  }

  /** The finished catalogue before custom aliases. */
  ghost predicate Finished(naming: Naming, entries: seq<Entry>, grouped: Grouped) {
    AllWellFormed(entries) && Lists(entries, grouped) && DistinctIds(naming, entries)
  }

  /** The raw id was listed by the provider itself. */
  ghost predicate OwnModel(log: seq<Placement>, p: string, raw: string) {
    exists i :: 0 <= i < |log| && log[i].provider == p && log[i].model.id == raw
  }

  lemma DescribedRawIsOwn(naming: Naming, log: seq<Placement>, e: Entry, p: string)
    requires Describes(e, MergeAll(naming, log)) && p in e.providers
    ensures OwnModel(log, p, e.rawIds[p])
  {
    assert p in e.rawIds;
    var i := RawIdIsPlaced(naming, log, e, p);
  }

  // ------------------------------------------------------------- reachability

  /** Each provider was merged once, from a table that lists an id once. */
  ghost predicate EachOnce(log: seq<Placement>) {
    forall i, j :: 0 <= i < j < |log| ==> log[i].provider != log[j].provider || log[i].model.id != log[j].model.id
  }

  lemma RawIdIsPlaced(naming: Naming, log: seq<Placement>, e: Entry, p: string) returns (i: nat)
    requires Describes(e, MergeAll(naming, log)) && p in e.rawIds
    ensures i < |log| && log[i].key == e.key && log[i].provider == p && log[i].model.id == e.rawIds[p]
  {
    MergeAllIsMerge(naming, log);
    assert IsEntryOf(MergeAll(naming, log)[e.key], log, e.key);
    assert AgreesOn(MergeAll(naming, log)[e.key], log, e.key, p);
    LastPlacedOccurs(log, e.key, p);
    i :| 0 <= i < |log| && log[i].key == e.key && log[i].provider == p && log[i].model == LastPlaced(log, e.key, p).value;
  }

  lemma MergedRawIdsDiffer(naming: Naming, log: seq<Placement>, entries: seq<Entry>, p: string)
    requires EachOnce(log) && Lists(entries, MergeAll(naming, log))
    ensures RawIdsDiffer(entries, p)
  {
    forall i, j | 0 <= i < j < |entries| && p in entries[i].rawIds && p in entries[j].rawIds
      ensures entries[i].rawIds[p] != entries[j].rawIds[p]
    {
      var a := RawIdIsPlaced(naming, log, entries[i], p);
      var b := RawIdIsPlaced(naming, log, entries[j], p);
      assert log[a].key != log[b].key;
    }
  }

  /** In a finished catalogue a public id reaches its own model at a provider iff
      no later entry has that name there as raw id or display name. */
  lemma FinishedIdsRoute(naming: Naming, log: seq<Placement>, entries: seq<Entry>, i: nat, p: string)
    requires EachOnce(log) && Finished(naming, entries, MergeAll(naming, log))
    requires i < |entries| && p in entries[i].providers
    ensures p in entries[i].rawIds && naming.lower(entries[i].id) in Table(RegisterAll(naming, entries), p)
    ensures Table(RegisterAll(naming, entries), p)[naming.lower(entries[i].id)] == entries[i].rawIds[p] <==>
      forall j :: i < j < |entries| ==> !Shadows(naming, entries[j], p, naming.lower(entries[i].id))
  {
    MergedRawIdsDiffer(naming, log, entries, p);
    PublicIdRoutes(naming, entries, i, p);
  }

  /** A provider with a model shown as `shown` and a sentinel-named model whose raw
      id is the id that `shown` is published under, such as "K3" and "k3". */
  ghost predicate Clashes(naming: Naming, p: string, raw: string, id: string, shown: string, sentinel: string) {
    && '\0' !in p && id != "" && id !in SENTINELS && raw != id
    && naming.display(shown) == shown != "" && naming.normalize(shown) == id == naming.normalize(id) == naming.lower(id)
    && naming.display(sentinel) == sentinel != "" && naming.normalize(sentinel) in SENTINELS - {""}
    && if LexLe(id, naming.ScopedKey(p, id)) then naming.lower(id + "-" + p) != id
       else naming.normalize(raw) != "" && naming.lower(naming.normalize(raw)) != id
  }

  lemma ClashingKeys(naming: Naming, p: string, table: seq<Model>, id: string)
    requires |table| == 2 && table[1].id == id && '\0' !in p && '\0' !in id
    requires naming.LabelKey(table[0]) == id && id != "" && id !in SENTINELS && naming.LabelKey(table[1]) in SENTINELS
    ensures naming.MergeKey(table[0], p, table) == (id, true)
    ensures naming.MergeKey(table[1], p, table) == (naming.ScopedKey(p, id), false)
    ensures '\0' in naming.ScopedKey(p, id)
  {
    assert naming.ScopedKey(p, id)[|p|] == '\0';
    assert !naming.DuplicateLabel(table, id);
  }

  lemma MergeTwo(naming: Naming, first: Placement, second: Placement)
    requires first.key != second.key
    ensures MergeAll(naming, [first] + [second]) ==
      map[first.key := Join(naming, NewEntry(first.key), first), second.key := Join(naming, NewEntry(second.key), second)]
  {
    assert ([first] + [second])[..1] == [first] && [first][..0] == [];
    assert MergeAll(naming, []) == map[];
    assert MergeAll(naming, [first]) == map[first.key := Join(naming, NewEntry(first.key), first)];
  }

  /** The entry a single placement makes. */
  ghost predicate IsSole(e: Entry, key: string, p: string, raw: string, shown: string, byName: bool) {
    && e.WellFormed() && (byName ==> p in e.nameKeyed) && e.key == key && (e.scoped <==> '\0' in key)
    && e.providers == {p} && e.rawIds == map[p := raw] && e.labels == {shown}
  }

  lemma SoleEntry(naming: Naming, p: Placement)
    requires naming.Label(p.model) != ""
    ensures IsSole(Join(naming, NewEntry(p.key), p), p.key, p.provider, p.model.id, naming.Label(p.model), p.byName)
  {
  }

  lemma ClashingTable(naming: Naming, p: string, raw: string, id: string, shown: string, sentinel: string)
    returns (log: seq<Placement>, own: Entry, other: Entry)
    requires naming.Lawful() && Clashes(naming, p, raw, id, shown, sentinel)
    ensures log == Placements(naming, p, [Model(raw, shown, map[]), Model(id, sentinel, map[])], 2)
    ensures '\0' !in id && '\0' in naming.ScopedKey(p, id)
    ensures MergeAll(naming, log) == map[id := own, naming.ScopedKey(p, id) := other]
    ensures IsSole(own, id, p, raw, shown, true) && IsSole(other, naming.ScopedKey(p, id), p, id, sentinel, false)
  {
    var table := [Model(raw, shown, map[]), Model(id, sentinel, map[])];
    var scoped := naming.ScopedKey(p, id);
    ClashingKeys(naming, p, table, id);
    var first, second := Placement(p, table[0], id, true), Placement(p, table[1], scoped, false);
    assert Place(naming, p, table, 0) == first && Place(naming, p, table, 1) == second;
    assert Placements(naming, p, table, 1) == [] + [first] == [first];
    log := [first] + [second];
    MergeTwo(naming, first, second);
    SoleEntry(naming, first);
    SoleEntry(naming, second);
    own, other := Join(naming, NewEntry(id), first), Join(naming, NewEntry(scoped), second);
  }

  lemma FinalOfSole(naming: Naming, e: Entry, key: string, p: string, raw: string, shown: string, id: string, byName: bool)
    requires IsSole(e, key, p, raw, shown, byName) && shown != ""
    requires naming.normalize(if '\0' in key then raw else shown) == id
    ensures IsFinal(naming, e, e.(id := id, meta := e.meta["name" := TextValue(shown)]))
  {
    LexTotal(p, p);
    LexTotal(naming.lower(shown), naming.lower(shown));
    assert IsFinalBy(naming, e, e.(id := id, meta := e.meta["name" := TextValue(shown)]), shown, p);
  }

  /** Finishing the two entries in the order of their keys: both want the same id,
      the second gets another, and one of its names takes the first one's id in the
      alias table. */
  lemma FinishedPair(naming: Naming, p: string, raw: string, id: string, shown: string, sentinel: string, own: Entry, other: Entry)
    returns (finals: seq<Entry>, entries: seq<Entry>)
    requires Clashes(naming, p, raw, id, shown, sentinel) && '\0' !in id && '\0' in naming.ScopedKey(p, id)
    requires LexLe(id, naming.ScopedKey(p, id))
    requires IsSole(own, id, p, raw, shown, true) && IsSole(other, naming.ScopedKey(p, id), p, id, sentinel, false)
    ensures |finals| == |entries| == 2 && IsFinal(naming, own, finals[0]) && IsFinal(naming, other, finals[1])
    ensures IsDisambiguation(naming, finals, entries) && AllWellFormed(entries)
    ensures entries[0].id == id && entries[0].rawIds == map[p := raw] && entries[1].rawIds == map[p := id]
    ensures id in Table(RegisterAll(naming, entries), p) && Table(RegisterAll(naming, entries), p)[id] == id
  {
    var f := own.(id := id, meta := own.meta["name" := TextValue(shown)]);
    var g := other.(id := id, meta := other.meta["name" := TextValue(sentinel)]);
    var h := g.(id := id + "-" + p);
    FinalOfSole(naming, own, id, p, raw, shown, id, true);
    FinalOfSole(naming, other, naming.ScopedKey(p, id), p, id, sentinel, id, false);
    FirstOfOne(p);
    finals, entries := [f, g], [f, h];
    assert IsChoiceBy(naming, id, naming.normalize(g.rawIds[p]), p, {id}, h.id);
    DisambiguatesClash(naming, f, g, h, p, id);
    LastRegisters(naming, f, h, p, id);
  }

  lemma FinishedPairReversed(naming: Naming, p: string, raw: string, id: string, shown: string, sentinel: string,
                             own: Entry, other: Entry)
    returns (finals: seq<Entry>, entries: seq<Entry>)
    requires Clashes(naming, p, raw, id, shown, sentinel) && '\0' !in id && '\0' in naming.ScopedKey(p, id)
    requires !LexLe(id, naming.ScopedKey(p, id))
    requires IsSole(own, id, p, raw, shown, true) && IsSole(other, naming.ScopedKey(p, id), p, id, sentinel, false)
    ensures |finals| == |entries| == 2 && IsFinal(naming, other, finals[0]) && IsFinal(naming, own, finals[1])
    ensures IsDisambiguation(naming, finals, entries) && AllWellFormed(entries)
    ensures entries[0].id == id && entries[0].rawIds == map[p := id] && entries[1].rawIds == map[p := raw]
    ensures id in Table(RegisterAll(naming, entries), p) && Table(RegisterAll(naming, entries), p)[id] == raw
  {
    var f := other.(id := id, meta := other.meta["name" := TextValue(sentinel)]);
    var g := own.(id := id, meta := own.meta["name" := TextValue(shown)]);
    var h := g.(id := naming.normalize(raw));
    FinalOfSole(naming, other, naming.ScopedKey(p, id), p, id, sentinel, id, false);
    FinalOfSole(naming, own, id, p, raw, shown, id, true);
    FirstOfOne(p);
    finals, entries := [f, g], [f, h];
    assert IsChoiceBy(naming, id, naming.normalize(g.rawIds[p]), p, {id}, h.id);
    DisambiguatesClash(naming, f, g, h, p, id);
    assert h.DisplayName() == shown;
    LastRegisters(naming, f, h, p, id);
  }

  lemma FirstOfOne(p: string)
    ensures IsFirst(p, {p})
  {
    LexTotal(p, p);
  }

  /** The claim that every public id reaches its own model is false. Of a model
      shown as "K3" and a sentinel-named model with the raw id "k3", the one whose
      key comes first is published as "k3", and requests for "k3" reach the other. */
  lemma PublicIdCanBeShadowed(naming: Naming, p: string, raw: string, id: string, shown: string, sentinel: string)
    returns (log: seq<Placement>, own: Entry, other: Entry, finals: seq<Entry>, entries: seq<Entry>)
    requires naming.Lawful() && Clashes(naming, p, raw, id, shown, sentinel)
    ensures log == Placements(naming, p, [Model(raw, shown, map[]), Model(id, sentinel, map[])], 2)
    ensures MergeAll(naming, log) == map[id := own, naming.ScopedKey(p, id) := other]
    ensures |finals| == |entries| == 2
    ensures if LexLe(id, naming.ScopedKey(p, id))
            then IsFinal(naming, own, finals[0]) && IsFinal(naming, other, finals[1])
            else IsFinal(naming, other, finals[0]) && IsFinal(naming, own, finals[1])
    ensures IsDisambiguation(naming, finals, entries) && AllWellFormed(entries)
    ensures entries[0].id == id == naming.lower(id) && p in entries[0].rawIds && p in entries[1].rawIds
    ensures id in Table(RegisterAll(naming, entries), p)
    ensures Table(RegisterAll(naming, entries), p)[id] == entries[1].rawIds[p] != entries[0].rawIds[p]
  {
    log, own, other := ClashingTable(naming, p, raw, id, shown, sentinel);
    if LexLe(id, naming.ScopedKey(p, id)) {
      finals, entries := FinishedPair(naming, p, raw, id, shown, sentinel, own, other);
    } else {
      finals, entries := FinishedPairReversed(naming, p, raw, id, shown, sentinel, own, other);
    }
  }

  /** Such names exist, for providers on either side of the order. */
  lemma ClashesHappen() returns (naming: Naming)
    ensures naming.Lawful()
    ensures Clashes(naming, "qoder", "kmodel", "k3", "K3", "Auto") && LexLe("k3", naming.ScopedKey("qoder", "k3"))
    ensures Clashes(naming, "codebuddy", "kmodel", "k3", "K3", "Auto") && !LexLe("k3", naming.ScopedKey("codebuddy", "k3"))
  {
    var same := (s: string) => s;
    naming := Naming(s => if s == "K3" then "k3" else if s == "Auto" then "auto" else if '\0' in s then "" else s, same, same);
    assert naming.ScopedKey("qoder", "k3")[0] == 'q' && naming.ScopedKey("codebuddy", "k3")[0] == 'c';
    assert "k3-qoder" != "k3" && "k3" + "-" + "qoder" == "k3-qoder";
  }

  lemma LastRegisters(naming: Naming, f: Entry, h: Entry, p: string, k: string)
    requires f.WellFormed() && h.WellFormed() && p in h.providers && p in h.rawIds && k in AliasKeys(naming, h, p)
    ensures AllWellFormed([f, h]) && k in Table(RegisterAll(naming, [f, h]), p)
    ensures Table(RegisterAll(naming, [f, h]), p)[k] == h.rawIds[p]
  {
    RegisteredIsLast(naming, [f, h], p, k);
  }

  lemma DisambiguatesClash(naming: Naming, f: Entry, g: Entry, h: Entry, p: string, id: string)
    requires f.id == id == g.id && id != "" && naming.lower(id) == id
    requires IsFirst(p, f.providers) && IsFirst(p, g.providers) && p in f.rawIds && p in g.rawIds
    requires h == g.(id := h.id) && IsChoiceBy(naming, id, naming.normalize(g.rawIds[p]), p, {id}, h.id)
    ensures IsDisambiguation(naming, [f, g], [f, h])
  {
    var before, after := [f, g], [f, h];
    assert after[..0] == [] && after[..1] == [f];
    assert TakenBy(naming, []) == {};
    assert TakenBy(naming, [f]) == {id} by {
      assert [] + [f] == [f];
      TakenAppend(naming, [], f);
    }
    assert IsChoiceBy(naming, id, naming.normalize(f.rawIds[p]), p, {}, id);
    assert ChosenAt(naming, before, after, 0);
    assert ChosenAt(naming, before, after, 1);
  }

  /** Whatever is registered or injected, a provider is only ever sent raw ids
      from its own table. */
  lemma AliasesStayInTheirTable(naming: Naming, log: seq<Placement>, genuine: seq<Entry>, custom: seq<Alias>, p: string, k: string)
    requires Lists(genuine, MergeAll(naming, log)) && AllWellFormed(genuine)
    requires k in Table(InjectAll(naming, genuine, RegisterAll(naming, genuine), custom).1, p)
    ensures OwnModel(log, p, Table(InjectAll(naming, genuine, RegisterAll(naming, genuine), custom).1, p)[k])
  {
    var aliases := RegisterAll(naming, genuine);
    var (entries, extended) := InjectAll(naming, genuine, aliases, custom);
    assert RealEntries(genuine) by {
      forall i | 0 <= i < |genuine| ensures genuine[i].aliasOf == None {
        assert Describes(genuine[i], MergeAll(naming, log));
      }
    }
    AliasesAreConservative(naming, genuine, aliases, custom);
    if k in Table(aliases, p) {
      RegisteredIsLast(naming, genuine, p, k);
      var e := Registrant(naming, genuine, p, k).value;
      var i :| 0 <= i < |genuine| && genuine[i] == e;
      DescribedRawIsOwn(naming, log, genuine[i], p);
    } else {
      InjectedRawIsOwn(naming, log, genuine, aliases, custom, entries, extended, p, k);
    }
  }

  lemma InjectedRawIsOwn(naming: Naming, log: seq<Placement>, genuine: seq<Entry>, aliases: Aliases, custom: seq<Alias>,
                         entries: seq<Entry>, extended: Aliases, p: string, k: string)
    requires Lists(genuine, MergeAll(naming, log)) && AllWellFormed(genuine)
    requires Conservative(naming, genuine, aliases, custom, entries, extended)
    requires k in Table(extended, p) && k !in Table(aliases, p)
    ensures OwnModel(log, p, Table(extended, p)[k])
  {
    var added := entries[|genuine|..];
    assert AddedAt(naming, added, p, k);
    var i :| 0 <= i < |added| && p in added[i].providers && k == naming.lower(added[i].id);
    assert Justified(naming, added[i], genuine, custom, extended);
    var target := AddedLeadsToReal(naming, added[i], genuine, custom, extended, p);
    DescribedRawIsOwn(naming, log, target, p);
  }

  // --------------------------------------------------------------- objects

  class ModelCatalogue {
    const naming: Naming
    var grouped: Grouped
    var entries: seq<Entry>
    var aliases: Aliases
    /** Every placement made so far. */
    ghost var log: seq<Placement>

    ghost predicate Valid() reads this {
      naming.Lawful() && grouped == MergeAll(naming, log) && Scoping(naming, log)
    }

    constructor (naming: Naming)
      requires naming.Lawful()
      ensures Valid() && log == [] && this.naming == naming
    {
      this.naming, grouped, entries, aliases, log := naming, map[], [], map[], [];
    }

    ghost predicate Counted(table: seq<Model>, duplicates: set<string>, idKeys: set<string>) {
      && (forall k :: k in duplicates <==> naming.DuplicateLabel(table, k))
      && (forall k :: k in idKeys <==> naming.HasIdKey(table, k))
    }

    /** Label keys that several models of the table share. */
    method CountLabels(table: seq<Model>) returns (duplicates: set<string>)
      ensures forall k :: k in duplicates <==> naming.DuplicateLabel(table, k)
    {
      var counts: map<string, nat> := map[];
      for n := 0 to |table|
        invariant forall k :: CountOf(naming, table[..n], k) == if k in counts then counts[k] else 0
      {
        var key := naming.LabelKey(table[n]);
        assert table[..n + 1][..n] == table[..n];
        counts := counts[key := (if key in counts then counts[key] else 0) + 1];
      }
      assert table[..|table|] == table;
      duplicates := set k | k in counts && counts[k] > 1;
      forall k ensures k in duplicates <==> naming.DuplicateLabel(table, k) {
        CountsDuplicates(naming, table, k);
      }
    }

    /** The merge key, from what the provider's table was counted to contain. */
    method KeyFor(m: Model, provider: string, duplicates: set<string>, idKeys: set<string>, ghost table: seq<Model>)
      returns (key: string, byName: bool)
      requires Counted(table, duplicates, idKeys)
      ensures (key, byName) == naming.MergeKey(m, provider, table)
    {
      var labelKey := naming.LabelKey(m);
      if labelKey == "" || labelKey in SENTINELS {
        return naming.ScopedKey(provider, m.id), false;
      }
      if labelKey in duplicates && labelKey !in idKeys {
        return naming.ScopedKey(provider, m.id), false;
      }
      key := if labelKey in duplicates then naming.normalize(m.id) else labelKey;
      byName := labelKey !in duplicates;
    }

    /** The merging loop, given what the table was counted to contain. */
    method PlaceAll(provider: string, table: seq<Model>, duplicates: set<string>, idKeys: set<string>)
      requires Counted(table, duplicates, idKeys) && grouped == MergeAll(naming, log)
      modifies this`grouped, this`log
      ensures grouped == MergeAll(naming, log) && log == old(log) + Placements(naming, provider, table, |table|)
    {
      for n := 0 to |table|
        invariant log == old(log) + Placements(naming, provider, table, n)
        invariant grouped == MergeAll(naming, log)
      {
        var key, byName := KeyFor(table[n], provider, duplicates, idKeys, table);
        var p := Placement(provider, table[n], key, byName);
        PlaceNext(naming, old(log), provider, table, n, p);
        grouped := Merge(naming, grouped, p);
        log := log + [p];
      }
    }

    /** Merges one provider's visible models. */
    method MergeProvider(provider: string, table: seq<Model>)
      requires Valid() && '\0' !in provider
      modifies this`grouped, this`log
      ensures Valid()
      ensures log == old(log) + Placements(naming, provider, table, |table|)
    {
      var duplicates := CountLabels(table);
      var idKeys := set i | 0 <= i < |table| :: naming.normalize(table[i].id);
      PlaceAll(provider, table, duplicates, idKeys);
      PlacementsScope(naming, provider, table, |table|);
      ScopingConcat(naming, old(log), Placements(naming, provider, table, |table|));
    }

    /** The merged entries in some order; the display order is not modelled. */
    method ListEntries() returns (listed: seq<Entry>)
      requires Valid()
      ensures Lists(listed, grouped) && AsMerged(listed, grouped)
    {
      listed := [];
      var rest := grouped.Keys;
      ghost var done: set<string> := {};
      while rest != {}
        invariant rest == grouped.Keys - done && done <= grouped.Keys
        invariant ListsKeys(listed, grouped, done) && AsMerged(listed, grouped)
        decreases rest
      {
        var key :| key in rest;
        ListNext(naming, log, listed, done, key);
        listed, rest, done := listed + [grouped[key]], rest - {key}, done + {key};
      }
      assert done == grouped.Keys;
    }

    method FinalizeAll(listed: seq<Entry>) returns (finals: seq<Entry>)
      requires AllWellFormed(listed)
      ensures |finals| == |listed| && forall i :: 0 <= i < |listed| ==> IsFinal(naming, listed[i], finals[i])
    {
      finals := [];
      for i := 0 to |listed|
        invariant |finals| == i && forall j :: 0 <= j < i ==> IsFinal(naming, listed[j], finals[j])
      {
        var final := Finalize(naming, listed[i]);
        finals := finals + [final];
      }
    }

    /** Adds the user's aliases, one after the other. */
    method ApplyCustomAliases(custom: seq<Alias>)
      modifies this`entries, this`aliases
      ensures (entries, aliases) == InjectAll(naming, old(entries), old(aliases), custom)
    {
      if custom == [] {
        return;
      }
      var genuine := entries;
      for i := 0 to |custom|
        invariant (entries, aliases) == InjectAll(naming, genuine, old(aliases), custom[..i])
      {
        assert custom[..i + 1][..i] == custom[..i];
        var alias := custom[i];
        var key := naming.lower(alias.name);
        if '@' in alias.name || key in TakenBy(naming, entries) || InSomeTable(aliases, key) {
          continue;
        }
        var target := FindTarget(naming, genuine, alias.model);
        if target.None? || (alias.provider.Some? && alias.provider.value !in target.value.providers) {
          continue;
        }
        var entry := AliasEntry(naming, alias, target.value);
        entries := entries + [entry];
        aliases := AddAlias(aliases, entry, key);
      }
      assert custom[..|custom|] == custom;
    }

    /** Finished entries with distinct ids, one for each merged entry. */
    method FinishEntries() returns (unique: seq<Entry>)
      requires Valid()
      ensures Finished(naming, unique, grouped)
    {
      var listed := ListEntries();
      ListedAreWellFormed(listed, grouped);
      var finals := FinalizeAll(listed);
      FinalsList(naming, listed, finals, grouped);
      unique := Disambiguate(naming, finals);
      UniqueList(naming, finals, unique, grouped);
    }

    /** The catalogue without custom aliases. */
    method BuildGenuine()
      requires Valid()
      modifies this`entries, this`aliases
      ensures Finished(naming, entries, grouped) && aliases == RegisterAll(naming, entries)
    {
      entries := FinishEntries();
      aliases := RegisterAliases(naming, entries);
    }

    /** Finishes all entries and publishes the list and the alias table. */
    method Build(custom: seq<Alias>) returns (ghost genuine: seq<Entry>)
      requires Valid()
      modifies this`entries, this`aliases
      ensures Finished(naming, genuine, grouped)
      ensures (entries, aliases) == InjectAll(naming, genuine, RegisterAll(naming, genuine), custom)
      ensures DistinctIds(naming, entries)
      ensures forall p, k :: k in Table(aliases, p) ==> OwnModel(log, p, Table(aliases, p)[k])
    {
      BuildGenuine();
      genuine := entries;
      ApplyCustomAliases(custom);
      Published(naming, log, grouped, genuine, custom, entries, aliases);
    }
  }

  lemma PlaceNext(naming: Naming, start: seq<Placement>, provider: string, table: seq<Model>, n: nat, p: Placement)
    requires n < |table| && p == Place(naming, provider, table, n)
    ensures start + Placements(naming, provider, table, n + 1) == start + Placements(naming, provider, table, n) + [p]
    ensures var log := start + Placements(naming, provider, table, n);
      MergeAll(naming, log + [p]) == Merge(naming, MergeAll(naming, log), p)
  {
    var log := start + Placements(naming, provider, table, n);
    assert (log + [p])[..|log|] == log;
  }

  lemma ScopingConcat(naming: Naming, a: seq<Placement>, b: seq<Placement>)
    requires Scoping(naming, a) && Scoping(naming, b)
    ensures Scoping(naming, a + b)
  {
  }

  lemma MergedDescribes(naming: Naming, log: seq<Placement>, key: string)
    requires key in MergeAll(naming, log)
    ensures MergeAll(naming, log)[key].key == key && Describes(MergeAll(naming, log)[key], MergeAll(naming, log))
  {
    MergeAllIsMerge(naming, log);
    assert IsEntryOf(MergeAll(naming, log)[key], log, key);
  }

  lemma ListedAreWellFormed(entries: seq<Entry>, grouped: Grouped)
    requires Lists(entries, grouped)
    ensures AllWellFormed(entries)
  {
    forall i | 0 <= i < |entries| ensures entries[i].WellFormed() {
      assert Describes(entries[i], grouped);
    }
  }

  function CountOf(naming: Naming, table: seq<Model>, key: string): nat {
    if table == [] then 0
    else CountOf(naming, table[..|table| - 1], key) + if naming.LabelKey(table[|table| - 1]) == key then 1 else 0
  }

  ghost predicate HasLabel(naming: Naming, table: seq<Model>, key: string) {
    exists i :: 0 <= i < |table| && naming.LabelKey(table[i]) == key
  }

  lemma {:induction false} CountsDuplicates(naming: Naming, table: seq<Model>, key: string)
    ensures CountOf(naming, table, key) > 0 <==> HasLabel(naming, table, key)
    ensures CountOf(naming, table, key) > 1 <==> naming.DuplicateLabel(table, key)
  {
    if table != [] {
      var n := |table| - 1;
      var before, last := table[..n], naming.LabelKey(table[n]);
      CountsDuplicates(naming, before, key);
      if HasLabel(naming, before, key) {
        var i :| 0 <= i < n && naming.LabelKey(before[i]) == key;
        assert naming.LabelKey(table[i]) == key;
        assert last == key ==> naming.DuplicateLabel(table, key);
      }
      if naming.DuplicateLabel(before, key) {
        var i, j :| 0 <= i < j < n && naming.LabelKey(before[i]) == key && naming.LabelKey(before[j]) == key;
        assert naming.LabelKey(table[i]) == key && naming.LabelKey(table[j]) == key;
      }
      if naming.DuplicateLabel(table, key) {
        var i, j :| 0 <= i < j <= n && naming.LabelKey(table[i]) == key && naming.LabelKey(table[j]) == key;
        assert naming.LabelKey(before[i]) == key;
        assert j < n ==> naming.LabelKey(before[j]) == key;
      }
    }
  }

  lemma FinalsList(naming: Naming, listed: seq<Entry>, finals: seq<Entry>, grouped: Grouped)
    requires Lists(listed, grouped) && |finals| == |listed|
    requires forall i :: 0 <= i < |listed| ==> IsFinal(naming, listed[i], finals[i])
    ensures Lists(finals, grouped) && AllWellFormed(finals)
  {
    forall i | 0 <= i < |listed| ensures finals[i] == listed[i].(id := finals[i].id, meta := finals[i].meta) {
      assert IsFinal(naming, listed[i], finals[i]);
    }
    SameShapeLists(listed, finals, grouped);
    forall i | 0 <= i < |finals| ensures finals[i].WellFormed() {
      assert Describes(finals[i], grouped);
    }
  }

  lemma UniqueList(naming: Naming, finals: seq<Entry>, unique: seq<Entry>, grouped: Grouped)
    requires Lists(finals, grouped) && IsDisambiguation(naming, finals, unique)
    ensures Lists(unique, grouped) && AllWellFormed(unique) && DistinctIds(naming, unique)
  {
    forall i | 0 <= i < |finals| ensures unique[i] == finals[i].(id := unique[i].id, meta := unique[i].meta) {
      assert ChosenAt(naming, finals, unique, i);
    }
    SameShapeLists(finals, unique, grouped);
    forall i | 0 <= i < |unique| ensures unique[i].WellFormed() {
      assert Describes(unique[i], grouped);
    }
    DisambiguatedIdsAreDistinct(naming, finals, unique);
  }

  lemma Published(naming: Naming, log: seq<Placement>, grouped: Grouped, genuine: seq<Entry>, custom: seq<Alias>,
                  entries: seq<Entry>, aliases: Aliases)
    requires grouped == MergeAll(naming, log) && Finished(naming, genuine, grouped)
    requires (entries, aliases) == InjectAll(naming, genuine, RegisterAll(naming, genuine), custom)
    ensures DistinctIds(naming, entries)
    ensures forall p, k :: k in Table(aliases, p) ==> OwnModel(log, p, Table(aliases, p)[k])
  {
    assert RealEntries(genuine) by {
      forall i | 0 <= i < |genuine| ensures genuine[i].aliasOf == None {
        assert Describes(genuine[i], MergeAll(naming, log));
      }
    }
    AliasesAreConservative(naming, genuine, RegisterAll(naming, genuine), custom);
    forall p, k | k in Table(aliases, p) ensures OwnModel(log, p, Table(aliases, p)[k]) {
      AliasesStayInTheirTable(naming, log, genuine, custom, p, k);
    }
  }
}
