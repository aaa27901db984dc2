/** The per-provider table from public names to raw ids, and the custom aliases
    injected into it (src/api/model_merge.py:350-484). */
module AliasTable {
  import opened Options
  import opened Text
  import opened ModelMerge
  import opened PublicIds

  /** The public names under which a provider's raw id is registered. */
  function AliasKeys(naming: Naming, e: Entry, p: string): set<string>
    requires p in e.rawIds
  {
    var shown := e.DisplayName();
    {naming.lower(e.id), naming.lower(e.rawIds[p])} +
    if p in e.nameKeyed && shown != "" then {naming.lower(shown), naming.normalize(shown)} else {}
  }

  function Writes(naming: Naming, e: Entry, p: string): map<string, string>
    requires p in e.rawIds
  {
    map k | k in AliasKeys(naming, e, p) :: e.rawIds[p]
  }

  /** The table after registering an entry for some of its providers. */
  function RegisterFor(naming: Naming, aliases: Aliases, e: Entry, providers: set<string>): Aliases
    requires providers <= e.rawIds.Keys
  {
    map p | p in aliases.Keys + providers :: if p in providers then Table(aliases, p) + Writes(naming, e, p) else aliases[p]
  }

  ghost predicate AllWellFormed(entries: seq<Entry>) {
    forall i :: 0 <= i < |entries| ==> entries[i].WellFormed()
  }

  function RegisterAll(naming: Naming, entries: seq<Entry>): Aliases
    requires AllWellFormed(entries)
  {
    if entries == [] then map[]
    else
      var e := entries[|entries| - 1];
      RegisterFor(naming, RegisterAll(naming, entries[..|entries| - 1]), e, e.providers)
  }

  /** The last entry that registers a name for a provider. */
  function Registrant(naming: Naming, entries: seq<Entry>, p: string, k: string): Option<Entry> {
    if entries == [] then None
    else
      var e := entries[|entries| - 1];
      if p in e.providers && p in e.rawIds && k in AliasKeys(naming, e, p) then Some(e)
      else Registrant(naming, entries[..|entries| - 1], p, k)
  }

  /** A name leads to the raw id of the last entry that claims it; no other name
      is in the table. */
  lemma {:induction false} RegisteredIsLast(naming: Naming, entries: seq<Entry>, p: string, k: string)
    requires AllWellFormed(entries)
    ensures var found := Registrant(naming, entries, p, k);
      && (k in Table(RegisterAll(naming, entries), p) <==> found.Some?)
      && (found.Some? ==> p in found.value.rawIds && Table(RegisterAll(naming, entries), p)[k] == found.value.rawIds[p]
                          && found.value in entries)
  {
    if entries != [] {
      RegisteredIsLast(naming, entries[..|entries| - 1], p, k);
    }
  }

  predicate Claims(naming: Naming, e: Entry, p: string, k: string) {
    p in e.providers && p in e.rawIds && k in AliasKeys(naming, e, p)
  }

  lemma {:induction false} LastClaim(naming: Naming, entries: seq<Entry>, p: string, k: string, i: nat) returns (j: nat)
    requires i < |entries| && Claims(naming, entries[i], p, k)
    ensures i <= j < |entries| && Claims(naming, entries[j], p, k) && Registrant(naming, entries, p, k) == Some(entries[j])
    ensures forall m :: j < m < |entries| ==> !Claims(naming, entries[m], p, k)
  {
    var n := |entries| - 1;
    if Claims(naming, entries[n], p, k) {
      j := n;
    } else {
      j := LastClaim(naming, entries[..n], p, k, i);
      assert forall m :: j < m < n ==> entries[m] == entries[..n][m];
    }
  }

  /** The entry registers the name at the provider, as its raw id there or as its
      display name. */
  predicate Shadows(naming: Naming, e: Entry, p: string, k: string) {
    && p in e.providers && p in e.rawIds
    && (k == naming.lower(e.rawIds[p]) ||
        (p in e.nameKeyed && e.DisplayName() != "" && k in {naming.lower(e.DisplayName()), naming.normalize(e.DisplayName())}))
  }

  lemma ClaimsOrShadows(naming: Naming, e: Entry, p: string, k: string)
    ensures Claims(naming, e, p, k) <==> Shadows(naming, e, p, k) || (p in e.providers && p in e.rawIds && k == naming.lower(e.id))
  {
  }

  /** No two entries stand for the same model of the provider. */
  ghost predicate RawIdsDiffer(entries: seq<Entry>, p: string) {
    forall i, j :: 0 <= i < j < |entries| && p in entries[i].rawIds && p in entries[j].rawIds ==>
      entries[i].rawIds[p] != entries[j].rawIds[p]
  }

  /** No later entry of the provider with another raw id shadows the public id. */
  ghost predicate Unshadowed(naming: Naming, entries: seq<Entry>, i: nat, p: string)
    requires i < |entries|
  {
    forall j :: i < j < |entries| && Shadows(naming, entries[j], p, naming.lower(entries[i].id)) ==>
      p in entries[i].rawIds && entries[j].rawIds[p] == entries[i].rawIds[p]
  }

  /** A public id leads to the entry itself or to the last one that shadows it. */
  lemma RoutesToLast(naming: Naming, entries: seq<Entry>, i: nat, p: string) returns (last: nat)
    requires AllWellFormed(entries) && DistinctIds(naming, entries)
    requires i < |entries| && p in entries[i].providers
    ensures i <= last < |entries| && p in entries[last].rawIds
    ensures naming.lower(entries[i].id) in Table(RegisterAll(naming, entries), p)
    ensures Table(RegisterAll(naming, entries), p)[naming.lower(entries[i].id)] == entries[last].rawIds[p]
    ensures i < last ==> Shadows(naming, entries[last], p, naming.lower(entries[i].id))
    ensures forall j :: last < j < |entries| ==> !Shadows(naming, entries[j], p, naming.lower(entries[i].id))
  {
    var k := naming.lower(entries[i].id);
    assert Claims(naming, entries[i], p, k) by {
      assert entries[i].WellFormed();
      ClaimsOrShadows(naming, entries[i], p, k);
    }
    last := LastClaim(naming, entries, p, k, i);
    RegisteredIsLast(naming, entries, p, k);
    ClaimsOrShadows(naming, entries[last], p, k);
    forall j | last < j < |entries| ensures !Shadows(naming, entries[j], p, k) {
      ClaimsOrShadows(naming, entries[j], p, k);
    }
  }

  /** Every public id can be routed to each of its providers. It reaches the
      entry's own raw id if no later entry of the provider with another raw id has
      that name as its raw id or display name; and when the entries of the provider
      have different raw ids, only then. */
  lemma PublicIdRoutes(naming: Naming, entries: seq<Entry>, i: nat, p: string)
    requires AllWellFormed(entries) && DistinctIds(naming, entries)
    requires i < |entries| && p in entries[i].providers
    ensures p in entries[i].rawIds && naming.lower(entries[i].id) in Table(RegisterAll(naming, entries), p)
    ensures Unshadowed(naming, entries, i, p) ==>
      Table(RegisterAll(naming, entries), p)[naming.lower(entries[i].id)] == entries[i].rawIds[p]
    ensures RawIdsDiffer(entries, p) ==>
      (Table(RegisterAll(naming, entries), p)[naming.lower(entries[i].id)] == entries[i].rawIds[p] <==>
       forall j :: i < j < |entries| ==> !Shadows(naming, entries[j], p, naming.lower(entries[i].id)))
  {
    assert entries[i].WellFormed();
    var last := RoutesToLast(naming, entries, i, p);
  }

  /** One entry, provider by provider. */
  method RegisterEntry(naming: Naming, before: Aliases, e: Entry) returns (aliases: Aliases)
    requires e.WellFormed()
    ensures aliases == RegisterFor(naming, before, e, e.providers)
  {
    aliases := before;
    var rest := e.providers;
    assert RegisterFor(naming, before, e, {}) == before;
    assert e.providers - rest == {};
    while rest != {}
      invariant rest <= e.providers && aliases == RegisterFor(naming, before, e, e.providers - rest)
      decreases rest
    {
      var p :| p in rest;
      RegisterOneMore(naming, before, e, e.providers - rest, p);
      aliases := aliases[p := Table(aliases, p) + Writes(naming, e, p)];
      assert e.providers - (rest - {p}) == e.providers - rest + {p};
      rest := rest - {p};
    }
    assert e.providers - rest == e.providers;
  }

  method RegisterAliases(naming: Naming, entries: seq<Entry>) returns (aliases: Aliases)
    requires AllWellFormed(entries)
    ensures aliases == RegisterAll(naming, entries)
  {
    aliases := map[];
    for i := 0 to |entries|
      invariant aliases == RegisterAll(naming, entries[..i])
    {
      assert entries[..i + 1][..i] == entries[..i];
      aliases := RegisterEntry(naming, aliases, entries[i]);
    }
    assert entries[..|entries|] == entries;
  }

  lemma RegisterOneMore(naming: Naming, aliases: Aliases, e: Entry, done: set<string>, p: string)
    requires done + {p} <= e.rawIds.Keys && p !in done
    ensures var partly := RegisterFor(naming, aliases, e, done);
      RegisterFor(naming, aliases, e, done + {p}) == partly[p := Table(partly, p) + Writes(naming, e, p)]
  {
  }

  // --------------------------------------------------------- custom aliases

  datatype Alias = Alias(name: string, model: string, provider: Option<string>)

  predicate Matches(naming: Naming, e: Entry, target: string) {
    || naming.lower(e.id) == target
    || ("name" in e.meta && e.meta["name"].TextValue? && naming.lower(e.meta["name"].text) == target)
    || exists p :: p in e.rawIds && naming.lower(e.rawIds[p]) == target
  }

  /** The first real entry that answers to the target name. */
  function FindTarget(naming: Naming, entries: seq<Entry>, model: string): Option<Entry> {
    var target := naming.lower(Strip(model));
    if target == "" then None else FirstMatch(naming, entries, target)
  }

  function FirstMatch(naming: Naming, entries: seq<Entry>, target: string): Option<Entry> {
    if entries == [] then None
    else if Matches(naming, entries[0], target) then Some(entries[0])
    else FirstMatch(naming, entries[1..], target)
  }

  function Restrict<V>(m: map<string, V>, keys: set<string>): map<string, V> {
    map p | p in keys && p in m :: m[p]
  }

  /** The target, cloned under the alias name for the providers it is pinned to. */
  function AliasEntry(naming: Naming, alias: Alias, target: Entry): Entry {
    var providers := if alias.provider.None? then target.providers else {alias.provider.value};
    Entry(naming.lower(alias.name), alias.name, providers, target.meta["name" := TextValue(alias.name)],
          Restrict(target.providerMeta, providers), Restrict(target.rawIds, providers), {}, {}, false, Some(target.id))
  }

  predicate InSomeTable(aliases: Aliases, k: string) {
    exists p :: p in aliases && k in aliases[p]
  }

  /** The conditions under which an alias is taken into the catalogue. */
  predicate Accepts(naming: Naming, genuine: seq<Entry>, entries: seq<Entry>, aliases: Aliases, alias: Alias) {
    && '@' !in alias.name
    && naming.lower(alias.name) !in TakenBy(naming, entries)
    && !InSomeTable(aliases, naming.lower(alias.name))
    && FindTarget(naming, genuine, alias.model).Some?
    && (alias.provider.Some? ==> alias.provider.value in FindTarget(naming, genuine, alias.model).value.providers)
  }

  function AddAlias(aliases: Aliases, e: Entry, k: string): Aliases {
    map p | p in aliases.Keys + e.rawIds.Keys ::
      if p in e.rawIds then Table(aliases, p)[k := e.rawIds[p]] else aliases[p]
  }

  /** One alias: skipped with an error, or added to the entries and the table. */
  function Inject(naming: Naming, genuine: seq<Entry>, entries: seq<Entry>, aliases: Aliases, alias: Alias): (seq<Entry>, Aliases) {
    if Accepts(naming, genuine, entries, aliases, alias) then
      var e := AliasEntry(naming, alias, FindTarget(naming, genuine, alias.model).value);
      (entries + [e], AddAlias(aliases, e, naming.lower(alias.name)))
    else (entries, aliases)
  }

  function InjectAll(naming: Naming, genuine: seq<Entry>, aliases: Aliases, custom: seq<Alias>): (seq<Entry>, Aliases) {
    if custom == [] then (genuine, aliases)
    else
      var (entries, table) := InjectAll(naming, genuine, aliases, custom[..|custom| - 1]);
      Inject(naming, genuine, entries, table, custom[|custom| - 1])
  }

  /** Every name of an entry, in lower case: its public id, its display name and its
      raw id at each provider. */
  ghost function Names(naming: Naming, e: Entry): set<string> {
    {naming.lower(e.id)} + (set p | p in e.rawIds :: naming.lower(e.rawIds[p])) +
    if "name" in e.meta && e.meta["name"].TextValue? then {naming.lower(e.meta["name"].text)} else {}
  }

  /** The alias names the entry at position j: its model, without surrounding blanks
      and in any case, is a name of that entry and of none before it. */
  ghost predicate Means(naming: Naming, genuine: seq<Entry>, alias: Alias, j: int) {
    var name := naming.lower(Strip(alias.model));
    && name != "" && 0 <= j < |genuine| && name in Names(naming, genuine[j])
    && forall i :: 0 <= i < j ==> name !in Names(naming, genuine[i])
  }

  /** Nothing else goes by the alias name, and the entry it means is to be had at the
      provider it is pinned to. */
  ghost predicate Welcome(naming: Naming, genuine: seq<Entry>, entries: seq<Entry>, aliases: Aliases, alias: Alias, j: int) {
    && '@' !in alias.name
    && (forall i :: 0 <= i < |entries| ==> naming.lower(entries[i].id) != naming.lower(alias.name))
    && (forall p :: naming.lower(alias.name) !in Table(aliases, p))
    && Means(naming, genuine, alias, j)
    && (alias.provider.None? || alias.provider.value in genuine[j].providers)
  }

  lemma MatchesNames(naming: Naming, e: Entry, target: string)
    ensures Matches(naming, e, target) <==> target in Names(naming, e)
  {
  }

  lemma {:induction false} FirstMatchIs(naming: Naming, entries: seq<Entry>, target: string, j: nat)
    requires j <= |entries| && forall i :: 0 <= i < j ==> target !in Names(naming, entries[i])
    ensures j == |entries| ==> FirstMatch(naming, entries, target) == None
    ensures j < |entries| && target in Names(naming, entries[j]) ==> FirstMatch(naming, entries, target) == Some(entries[j])
  {
    if entries != [] {
      MatchesNames(naming, entries[0], target);
      if j > 0 {
        FirstMatchIs(naming, entries[1..], target, j - 1);
      }
    }
  }

  lemma InTableIff(aliases: Aliases, k: string)
    ensures InSomeTable(aliases, k) <==> !forall p :: k !in Table(aliases, p)
  {
    if InSomeTable(aliases, k) {
      var p :| p in aliases && k in aliases[p];
      assert k in Table(aliases, p);
    }
  }

  /** An alias is accepted exactly when it means a real entry and is welcome there;
      the entry it means is then its target. */
  lemma AcceptsIffWelcome(naming: Naming, genuine: seq<Entry>, entries: seq<Entry>, aliases: Aliases, alias: Alias)
    ensures Accepts(naming, genuine, entries, aliases, alias) <==> exists j :: Welcome(naming, genuine, entries, aliases, alias, j)
    ensures forall j :: Means(naming, genuine, alias, j) ==> FindTarget(naming, genuine, alias.model) == Some(genuine[j])
    ensures FindTarget(naming, genuine, alias.model).Some? ==> exists j :: Means(naming, genuine, alias, j)
  {
    var k := naming.lower(alias.name);
    TargetIsMeant(naming, genuine, alias);
    InTableIff(aliases, k);
    assert k in TakenBy(naming, entries) <==> exists i :: 0 <= i < |entries| && naming.lower(entries[i].id) == k;
    if Accepts(naming, genuine, entries, aliases, alias) {
      var j :| Means(naming, genuine, alias, j);
      assert Welcome(naming, genuine, entries, aliases, alias, j);
    }
  }

  lemma TargetIsMeant(naming: Naming, genuine: seq<Entry>, alias: Alias)
    ensures forall j :: Means(naming, genuine, alias, j) ==> FindTarget(naming, genuine, alias.model) == Some(genuine[j])
    ensures FindTarget(naming, genuine, alias.model).Some? ==> exists j :: Means(naming, genuine, alias, j)
  {
    var name := naming.lower(Strip(alias.model));
    forall j | Means(naming, genuine, alias, j) ensures FindTarget(naming, genuine, alias.model) == Some(genuine[j]) {
      FirstMatchIs(naming, genuine, name, j);
    }
    if FindTarget(naming, genuine, alias.model).Some? {
      var j: nat := 0;
      while j < |genuine| && name !in Names(naming, genuine[j])
        invariant j <= |genuine| && forall i :: 0 <= i < j ==> name !in Names(naming, genuine[i])
      {
        j := j + 1;
      }
      FirstMatchIs(naming, genuine, name, j);
      assert Means(naming, genuine, alias, j);
    }
  }

  /** A copy of the target under the alias name, with the providers of the target, or
      only the one it is pinned to. */
  ghost predicate IsCopy(e: Entry, target: Entry, alias: Alias) {
    && e.aliasOf == Some(target.id) && e.id == alias.name == e.DisplayName() && e.WellFormed() && target.WellFormed()
    && e.providers == (if alias.provider.None? then target.providers else {alias.provider.value})
    && e.providers <= target.providers
    && forall p :: p in e.providers ==> e.rawIds[p] == target.rawIds[p] && e.providerMeta[p] == target.providerMeta[p]
  }

  /** At the providers of the alias, its name leads to the raw id of the target. */
  ghost predicate LeadsTo(k: string, providers: set<string>, target: Entry, aliases: Aliases) {
    forall p :: p in providers && p in target.rawIds ==> k in Table(aliases, p) && Table(aliases, p)[k] == target.rawIds[p]
  }

  /** An added entry stands for one real entry: a copy of it to which the alias name
      leads, and which leads to its raw ids. */
  ghost predicate StandsFor(naming: Naming, e: Entry, target: Entry, alias: Alias, aliases: Aliases) {
    target.aliasOf == None && IsCopy(e, target, alias) && LeadsTo(naming.lower(alias.name), e.providers, target, aliases)
  }

  /** Nothing that was in the table is changed. */
  ghost predicate Extends(aliases: Aliases, extended: Aliases) {
    forall p, k :: k in Table(aliases, p) ==> k in Table(extended, p) && Table(extended, p)[k] == Table(aliases, p)[k]
  }

  /** Names that are new at a provider belong to added entries of that provider. */
  ghost predicate OnlyAdds(naming: Naming, aliases: Aliases, extended: Aliases, added: seq<Entry>) {
    forall p, k :: k in Table(extended, p) && k !in Table(aliases, p) ==> AddedAt(naming, added, p, k)
  }

  ghost predicate AddedAt(naming: Naming, added: seq<Entry>, p: string, k: string) {
    exists i :: 0 <= i < |added| && p in added[i].providers && k == naming.lower(added[i].id)
  }

  ghost predicate Justified(naming: Naming, e: Entry, genuine: seq<Entry>, custom: seq<Alias>, aliases: Aliases) {
    exists i, j :: 0 <= i < |custom| && Means(naming, genuine, custom[i], j) && StandsFor(naming, e, genuine[j], custom[i], aliases)
  }

  ghost predicate AllJustified(naming: Naming, added: seq<Entry>, genuine: seq<Entry>, custom: seq<Alias>, aliases: Aliases) {
    forall i :: 0 <= i < |added| ==> Justified(naming, added[i], genuine, custom, aliases)
  }

  lemma AddAliasExtends(aliases: Aliases, e: Entry, k: string)
    requires !InSomeTable(aliases, k)
    ensures Extends(aliases, AddAlias(aliases, e, k))
    ensures forall p, q :: q in Table(AddAlias(aliases, e, k), p) && q !in Table(aliases, p) ==> p in e.rawIds && q == k
    ensures forall p :: p in e.rawIds ==> k in Table(AddAlias(aliases, e, k), p) && Table(AddAlias(aliases, e, k), p)[k] == e.rawIds[p]
  {
    forall p, q | q in Table(aliases, p)
      ensures q in Table(AddAlias(aliases, e, k), p) && Table(AddAlias(aliases, e, k), p)[q] == Table(aliases, p)[q]
    {
      assert q != k;
    }
  }

  lemma StandsForLater(naming: Naming, e: Entry, target: Entry, alias: Alias, aliases: Aliases, extended: Aliases)
    requires StandsFor(naming, e, target, alias, aliases) && Extends(aliases, extended)
    ensures StandsFor(naming, e, target, alias, extended)
  {
  }

  lemma JustifiedLater(naming: Naming, e: Entry, genuine: seq<Entry>, custom: seq<Alias>, more: Alias, aliases: Aliases, extended: Aliases)
    requires Justified(naming, e, genuine, custom, aliases) && Extends(aliases, extended)
    ensures Justified(naming, e, genuine, custom + [more], extended)
  {
    var i, j :| 0 <= i < |custom| && Means(naming, genuine, custom[i], j) && StandsFor(naming, e, genuine[j], custom[i], aliases);
    StandsForLater(naming, e, genuine[j], custom[i], aliases, extended);
    assert (custom + [more])[i] == custom[i];
  }

  ghost predicate RealEntries(genuine: seq<Entry>) {
    AllWellFormed(genuine) && forall i :: 0 <= i < |genuine| ==> genuine[i].aliasOf == None
  }

  lemma AliasEntryIsCopy(naming: Naming, target: Entry, alias: Alias)
    requires target.WellFormed() && (alias.provider.Some? ==> alias.provider.value in target.providers)
    ensures IsCopy(AliasEntry(naming, alias, target), target, alias)
  {
    var e := AliasEntry(naming, alias, target);
    assert e.rawIds.Keys == e.providers && e.providerMeta.Keys == e.providers;
  }

  lemma AddedLeadsTo(aliases: Aliases, e: Entry, target: Entry, alias: Alias, k: string)
    requires IsCopy(e, target, alias)
    ensures LeadsTo(k, e.providers, target, AddAlias(aliases, e, k))
  {
  }

  /** The entry of an accepted alias stands for the real entry the alias means. */
  lemma AcceptedStandsFor(naming: Naming, genuine: seq<Entry>, entries: seq<Entry>, aliases: Aliases, alias: Alias) returns (j: int)
    requires RealEntries(genuine) && Accepts(naming, genuine, entries, aliases, alias)
    ensures Means(naming, genuine, alias, j) && FindTarget(naming, genuine, alias.model) == Some(genuine[j])
    ensures var e := AliasEntry(naming, alias, genuine[j]);
      StandsFor(naming, e, genuine[j], alias, AddAlias(aliases, e, naming.lower(alias.name)))
  {
    TargetIsMeant(naming, genuine, alias);
    j :| Means(naming, genuine, alias, j);
    AliasEntryIsCopy(naming, genuine[j], alias);
    AddedLeadsTo(aliases, AliasEntry(naming, alias, genuine[j]), genuine[j], alias, naming.lower(alias.name));
  }

  /** What injecting custom aliases guarantees about the catalogue before and
      after: a conservative extension. */
  ghost predicate Conservative(naming: Naming, genuine: seq<Entry>, aliases: Aliases, custom: seq<Alias>,
                               entries: seq<Entry>, extended: Aliases) {
    && genuine <= entries
    && Extends(aliases, extended)
    && OnlyAdds(naming, aliases, extended, entries[|genuine|..])
    && AllJustified(naming, entries[|genuine|..], genuine, custom, extended)
    && (DistinctIds(naming, genuine) ==> DistinctIds(naming, entries))
  }

  lemma JustifyMore(naming: Naming, added: seq<Entry>, genuine: seq<Entry>, custom: seq<Alias>, alias: Alias,
                    aliases: Aliases, extended: Aliases)
    requires AllJustified(naming, added, genuine, custom, aliases) && Extends(aliases, extended)
    ensures AllJustified(naming, added, genuine, custom + [alias], extended)
  {
    forall i | 0 <= i < |added| ensures Justified(naming, added[i], genuine, custom + [alias], extended) {
      JustifiedLater(naming, added[i], genuine, custom, alias, aliases, extended);
    }
  }

  lemma JustifyNew(naming: Naming, e: Entry, genuine: seq<Entry>, j: int, custom: seq<Alias>, alias: Alias, extended: Aliases)
    requires Means(naming, genuine, alias, j) && StandsFor(naming, e, genuine[j], alias, extended)
    ensures Justified(naming, e, genuine, custom + [alias], extended)
  {
    assert (custom + [alias])[|custom|] == alias;
  }

  lemma AcceptTables(naming: Naming, aliases: Aliases, extended: Aliases, added: seq<Entry>, e: Entry)
    requires Extends(aliases, extended) && OnlyAdds(naming, aliases, extended, added)
    requires e.WellFormed() && !InSomeTable(extended, naming.lower(e.id))
    ensures var after := AddAlias(extended, e, naming.lower(e.id));
      Extends(aliases, after) && Extends(extended, after) && OnlyAdds(naming, aliases, after, added + [e])
  {
    var after := AddAlias(extended, e, naming.lower(e.id));
    AddAliasExtends(extended, e, naming.lower(e.id));
    OnlyAddsStep(naming, aliases, extended, after, added, e);
  }

  lemma JustifiedAppend(naming: Naming, added: seq<Entry>, e: Entry, genuine: seq<Entry>, custom: seq<Alias>, aliases: Aliases)
    requires AllJustified(naming, added, genuine, custom, aliases) && Justified(naming, e, genuine, custom, aliases)
    ensures AllJustified(naming, added + [e], genuine, custom, aliases)
  {
  }

  lemma AcceptJustified(naming: Naming, genuine: seq<Entry>, custom: seq<Alias>, entries: seq<Entry>, extended: Aliases,
                        added: seq<Entry>, alias: Alias, e: Entry, after: Aliases)
    requires RealEntries(genuine) && Accepts(naming, genuine, entries, extended, alias)
    requires e == AliasEntry(naming, alias, FindTarget(naming, genuine, alias.model).value)
    requires after == AddAlias(extended, e, naming.lower(alias.name)) && Extends(extended, after)
    requires AllJustified(naming, added, genuine, custom, extended)
    ensures e.WellFormed() && AllJustified(naming, added + [e], genuine, custom + [alias], after)
  {
    var j := AcceptedStandsFor(naming, genuine, entries, extended, alias);
    JustifyNew(naming, e, genuine, j, custom, alias, after);
    JustifyMore(naming, added, genuine, custom, alias, extended, after);
    JustifiedAppend(naming, added, e, genuine, custom + [alias], after);
  }

  lemma AcceptStep(naming: Naming, genuine: seq<Entry>, aliases: Aliases, custom: seq<Alias>,
                   entries: seq<Entry>, extended: Aliases, alias: Alias)
    requires RealEntries(genuine) && Conservative(naming, genuine, aliases, custom, entries, extended)
    requires Accepts(naming, genuine, entries, extended, alias)
    ensures var e := AliasEntry(naming, alias, FindTarget(naming, genuine, alias.model).value);
      Conservative(naming, genuine, aliases, custom + [alias], entries + [e], AddAlias(extended, e, naming.lower(alias.name)))
  {
    var e := AliasEntry(naming, alias, FindTarget(naming, genuine, alias.model).value);
    var after := AddAlias(extended, e, naming.lower(alias.name));
    var added := entries[|genuine|..];
    assert (entries + [e])[|genuine|..] == added + [e];
    assert e.WellFormed() by {
      var j := AcceptedStandsFor(naming, genuine, entries, extended, alias);
    }
    AcceptTables(naming, aliases, extended, added, e);
    AcceptJustified(naming, genuine, custom, entries, extended, added, alias, e, after);
    DistinctAppend(naming, entries, e);
  }

  lemma InjectStep(naming: Naming, genuine: seq<Entry>, aliases: Aliases, custom: seq<Alias>,
                   entries: seq<Entry>, extended: Aliases, alias: Alias)
    requires RealEntries(genuine) && Conservative(naming, genuine, aliases, custom, entries, extended)
    ensures var next := Inject(naming, genuine, entries, extended, alias);
      Conservative(naming, genuine, aliases, custom + [alias], next.0, next.1)
  {
    if Accepts(naming, genuine, entries, extended, alias) {
      AcceptStep(naming, genuine, aliases, custom, entries, extended, alias);
    } else {
      JustifyMore(naming, entries[|genuine|..], genuine, custom, alias, extended, extended);
    }
  }

  lemma OnlyAddsStep(naming: Naming, aliases: Aliases, before: Aliases, after: Aliases, added: seq<Entry>, e: Entry)
    requires OnlyAdds(naming, aliases, before, added) && e.rawIds.Keys == e.providers
    requires forall p, k :: k in Table(after, p) && k !in Table(before, p) ==> p in e.rawIds && k == naming.lower(e.id)
    ensures OnlyAdds(naming, aliases, after, added + [e])
  {
    forall p, k | k in Table(after, p) && k !in Table(aliases, p) ensures AddedAt(naming, added + [e], p, k) {
      if k in Table(before, p) {
        assert AddedAt(naming, added, p, k);
        var i :| 0 <= i < |added| && p in added[i].providers && k == naming.lower(added[i].id);
        assert (added + [e])[i] == added[i];
      } else {
        assert (added + [e])[|added|] == e;
      }
    }
  }

  lemma DistinctAppend(naming: Naming, entries: seq<Entry>, e: Entry)
    requires naming.lower(e.id) !in TakenBy(naming, entries)
    ensures DistinctIds(naming, entries) ==> DistinctIds(naming, entries + [e])
  {
    assert forall i :: 0 <= i < |entries| ==> naming.lower(entries[i].id) in TakenBy(naming, entries);
  }

  /** The main theorem about aliases: for every alias list, existing entries and
      mappings stay as they are, ids stay distinct, each added entry leads on each
      of its providers to the raw id of the real entry its alias means, and nothing
      else is new. */
  lemma {:induction false} AliasesAreConservative(naming: Naming, genuine: seq<Entry>, aliases: Aliases, custom: seq<Alias>)
    requires RealEntries(genuine)
    ensures var (entries, extended) := InjectAll(naming, genuine, aliases, custom);
      Conservative(naming, genuine, aliases, custom, entries, extended)
  {
    if custom == [] {
      assert genuine[|genuine|..] == [];
    } else {
      var before, last := custom[..|custom| - 1], custom[|custom| - 1];
      assert custom == before + [last];
      var (entries, extended) := InjectAll(naming, genuine, aliases, before);
      AliasesAreConservative(naming, genuine, aliases, before);
      InjectStep(naming, genuine, aliases, before, entries, extended, last);
    }
  }

  lemma AddedLeadsToReal(naming: Naming, e: Entry, genuine: seq<Entry>, custom: seq<Alias>, extended: Aliases, p: string)
    returns (target: Entry)
    requires Justified(naming, e, genuine, custom, extended) && p in e.providers
    ensures target in genuine && p in target.rawIds
    ensures naming.lower(e.id) in Table(extended, p) && Table(extended, p)[naming.lower(e.id)] == target.rawIds[p]
  {
    var a, j :| 0 <= a < |custom| && Means(naming, genuine, custom[a], j) && StandsFor(naming, e, genuine[j], custom[a], extended);
    target := genuine[j];
  }

  lemma ExtendsTransitive(a: Aliases, b: Aliases, c: Aliases)
    requires Extends(a, b) && Extends(b, c)
    ensures Extends(a, c)
  {
    forall p, k | k in Table(a, p) ensures k in Table(c, p) && Table(c, p)[k] == Table(a, p)[k] {
      assert k in Table(b, p);
    }
  }

  /** Later aliases leave what earlier ones have added. */
  lemma {:induction false} InjectionGrows(naming: Naming, genuine: seq<Entry>, aliases: Aliases, custom: seq<Alias>, m: nat)
    requires m <= |custom|
    ensures var early, late := InjectAll(naming, genuine, aliases, custom[..m]), InjectAll(naming, genuine, aliases, custom);
      early.0 <= late.0 && Extends(early.1, late.1)
  {
    if m == |custom| {
      assert custom[..m] == custom;
    } else {
      var before, last := custom[..|custom| - 1], custom[|custom| - 1];
      InjectionGrows(naming, genuine, aliases, before, m);
      assert before[..m] == custom[..m];
      var (entries, table) := InjectAll(naming, genuine, aliases, before);
      if Accepts(naming, genuine, entries, table, last) {
        AddAliasExtends(table, AliasEntry(naming, last, FindTarget(naming, genuine, last.model).value), naming.lower(last.name));
        var early, late := InjectAll(naming, genuine, aliases, custom[..m]), InjectAll(naming, genuine, aliases, custom);
        ExtendsTransitive(early.1, table, late.1);
      }
    }
  }

  /** Which aliases make it into the catalogue, and what they lead to: an alias that
      is welcome when its turn comes ends up as an entry that stands for the real
      entry it means; any other adds nothing. */
  lemma AliasReachesItsModel(naming: Naming, genuine: seq<Entry>, aliases: Aliases, custom: seq<Alias>, a: nat, j: int)
    requires RealEntries(genuine) && a < |custom|
    ensures var (entries, table) := InjectAll(naming, genuine, aliases, custom[..a]);
      Welcome(naming, genuine, entries, table, custom[a], j) ==>
        var (final, extended) := InjectAll(naming, genuine, aliases, custom);
        |entries| < |final| && StandsFor(naming, final[|entries|], genuine[j], custom[a], extended)
    ensures var (entries, table) := InjectAll(naming, genuine, aliases, custom[..a]);
      (forall i :: !Welcome(naming, genuine, entries, table, custom[a], i)) ==>
        InjectAll(naming, genuine, aliases, custom[..a + 1]) == (entries, table)
  {
    var (entries, table) := InjectAll(naming, genuine, aliases, custom[..a]);
    assert custom[..a + 1][..a] == custom[..a];
    AcceptsIffWelcome(naming, genuine, entries, table, custom[a]);
    if Welcome(naming, genuine, entries, table, custom[a], j) {
      var i := AcceptedStandsFor(naming, genuine, entries, table, custom[a]);
      var e := AliasEntry(naming, custom[a], genuine[j]);
      var next := InjectAll(naming, genuine, aliases, custom[..a + 1]);
      assert next.0[|entries|] == e && StandsFor(naming, e, genuine[j], custom[a], next.1);
      InjectionGrows(naming, genuine, aliases, custom, a + 1);
      StandsForLater(naming, e, genuine[j], custom[a], next.1, InjectAll(naming, genuine, aliases, custom).1);
    }
  }

  /** A name that no real entry, no table and no earlier alias has is still free when
      its turn comes. */
  lemma FreshNameIsFree(naming: Naming, genuine: seq<Entry>, aliases: Aliases, custom: seq<Alias>, a: nat, k: string)
    requires RealEntries(genuine) && a <= |custom|
    requires forall i :: 0 <= i < |genuine| ==> naming.lower(genuine[i].id) != k
    requires forall p :: k !in Table(aliases, p)
    requires forall b :: 0 <= b < a ==> naming.lower(custom[b].name) != k
    ensures var (entries, table) := InjectAll(naming, genuine, aliases, custom[..a]);
      (forall i :: 0 <= i < |entries| ==> naming.lower(entries[i].id) != k) && (forall p :: k !in Table(table, p))
  {
    var (entries, table) := InjectAll(naming, genuine, aliases, custom[..a]);
    AliasesAreConservative(naming, genuine, aliases, custom[..a]);
    var added := entries[|genuine|..];
    forall i | 0 <= i < |entries| ensures naming.lower(entries[i].id) != k {
      if i < |genuine| {
        assert entries[i] == genuine[i];
      } else {
        var b := AddedIsNamed(naming, added[i - |genuine|], genuine, custom[..a], table);
        assert custom[..a][b] == custom[b];
      }
    }
    forall p ensures k !in Table(table, p) {
      assert forall i :: 0 <= i < |added| ==> added[i] == entries[|genuine| + i];
      assert k in Table(table, p) ==> AddedAt(naming, added, p, k);
    }
  }

  lemma AddedIsNamed(naming: Naming, e: Entry, genuine: seq<Entry>, custom: seq<Alias>, extended: Aliases) returns (b: int)
    requires Justified(naming, e, genuine, custom, extended)
    ensures 0 <= b < |custom| && e.id == custom[b].name
  {
    var i, j :| 0 <= i < |custom| && Means(naming, genuine, custom[i], j) && StandsFor(naming, e, genuine[j], custom[i], extended);
    b := i;
  }
}
