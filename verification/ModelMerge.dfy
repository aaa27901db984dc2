/** Merging the model tables of several providers into one catalogue, giving
    every entry a unique public id, and building the per-provider table from
    public names to raw ids (src/api/model_merge.py). */
module ModelMerge {
  import opened Options

  datatype Meta = Absent | TextValue(text: string) | Number(n: int)
  {
    predicate Blank() { Absent? || (TextValue? && text == "") }
  }

  const FIELDS: set<string> :=
    {"name", "credit_rate", "max_input_tokens", "max_output_tokens", "supports_images", "supports_tool_call",
     "supports_reasoning", "default_effort"}

  const SENTINELS: set<string> := {"auto", "default"}

  datatype Model = Model(id: string, name: string, meta: map<string, Meta>)
  {
    function Field(field: string): Meta {
      if field == "name" then TextValue(name) else if field in meta then meta[field] else Absent
    }
  }

  /** A group of models that are the same model at different providers; a custom
      alias is an entry with a target. */
  datatype Entry = Entry(key: string, id: string, providers: set<string>, meta: map<string, Meta>,
                         providerMeta: map<string, map<string, Meta>>, rawIds: map<string, string>,
                         labels: set<string>, nameKeyed: set<string>, scoped: bool, aliasOf: Option<string>)
  {
    ghost predicate WellFormed() { providers != {} && providers == rawIds.Keys == providerMeta.Keys && nameKeyed <= providers }

    function DisplayName(): string {
      if "name" in meta && meta["name"].TextValue? then meta["name"].text else ""
    }
  }

  type Grouped = map<string, Entry>

  /** provider, then lower-cased public name, gives the raw id to send. */
  type Aliases = map<string, map<string, string>>

  function Table(aliases: Aliases, provider: string): map<string, string> {
    if provider in aliases then aliases[provider] else map[]
  }

  // ---------------------------------------------------------------- decimals

  function Digit(n: nat): char requires n < 10 { ('0' as int + n) as char }

  function Decimal(n: nat): string {
    if n < 10 then [Digit(n)] else Decimal(n / 10) + [Digit(n % 10)]
  }

  /** The number that a text of decimal digits stands for. */
  ghost function ValueOf(digits: string): int {
    if digits == "" then 0 else 10 * ValueOf(digits[..|digits| - 1]) + (digits[|digits| - 1] as int - '0' as int)
  }

  /** Decimal digits without leading zeros that stand for the number. */
  lemma {:induction false} DecimalSpells(n: nat)
    ensures ValueOf(Decimal(n)) == n
    ensures forall i :: 0 <= i < |Decimal(n)| ==> '0' <= Decimal(n)[i] <= '9'
    ensures |Decimal(n)| > 0 && (n > 0 ==> Decimal(n)[0] != '0')
  {
    if n >= 10 {
      DecimalSpells(n / 10);
      assert Decimal(n)[..|Decimal(n)| - 1] == Decimal(n / 10);
    } else {
      assert Decimal(n)[..0] == "";
    }
  }

  /** Different numbers are written differently. */
  lemma DecimalInjective(m: nat, n: nat)
    requires Decimal(m) == Decimal(n)
    ensures m == n
  {
    DecimalSpells(m);
    DecimalSpells(n);
  }

  // ------------------------------------------------------------------ naming

  /** Python's `lower` and the two normalisations of model names. */
  datatype Naming = Naming(normalize: string -> string, display: string -> string, lower: string -> string)
  {
    /** Keys and display names never contain the scope separator, and a decimal
        suffix behind a hyphen is not affected by lower-casing. */
    ghost predicate Lawful() {
      && (forall s :: '\0' !in normalize(s))
      && (forall s: string, n: nat :: lower(s + "-" + Decimal(n)) == lower(s) + "-" + Decimal(n))
    }

    function Label(m: Model): string { display(if m.name == "" then m.id else m.name) }

    function LabelKey(m: Model): string { normalize(Label(m)) }

    function ScopedKey(provider: string, raw: string): string { provider + "\0" + normalize(raw) }

    predicate DuplicateLabel(table: seq<Model>, labelKey: string) {
      exists i, j :: 0 <= i < j < |table| && LabelKey(table[i]) == labelKey && LabelKey(table[j]) == labelKey
    }

    predicate HasIdKey(table: seq<Model>, key: string) {
      exists i :: 0 <= i < |table| && normalize(table[i].id) == key
    }

    /** The key a model is merged under, and whether that key is its name. */
    function MergeKey(m: Model, provider: string, table: seq<Model>): (string, bool) {
      var key := LabelKey(m);
      if key == "" || key in SENTINELS then (ScopedKey(provider, m.id), false)
      else if DuplicateLabel(table, key) then
        if HasIdKey(table, key) then (normalize(m.id), false) else (ScopedKey(provider, m.id), false)
      else (key, true)
    }
  }

  // ----------------------------------------------------------------- merging

  /** One model going under one key. */
  datatype Placement = Placement(provider: string, model: Model, key: string, byName: bool)

  function Place(naming: Naming, provider: string, table: seq<Model>, i: nat): Placement
    requires i < |table|
  {
    var (key, byName) := naming.MergeKey(table[i], provider, table);
    Placement(provider, table[i], key, byName)
  }

  /** One placement for each of the first n models, in their order, under its key. */
  function Placements(naming: Naming, provider: string, table: seq<Model>, n: nat): (r: seq<Placement>)
    requires n <= |table|
    ensures |r| == n
    ensures forall i :: 0 <= i < n ==>
              && r[i].provider == provider && r[i].model == table[i]
              && (r[i].key, r[i].byName) == naming.MergeKey(table[i], provider, table)
  {
    if n == 0 then [] else Placements(naming, provider, table, n - 1) + [Place(naming, provider, table, n - 1)]
  }

  function NewEntry(key: string): Entry {
    Entry(key, "", {}, map f | f in FIELDS :: Absent, map[], map[], {}, {}, '\0' in key, None)
  }

  function Fill(meta: map<string, Meta>, m: Model): map<string, Meta> {
    map f | f in FIELDS :: if f in meta && !meta[f].Blank() then meta[f] else m.Field(f)
  }

  function Join(naming: Naming, e: Entry, p: Placement): Entry {
    var shown := naming.Label(p.model);
    e.(providers := e.providers + {p.provider},
       rawIds := e.rawIds[p.provider := p.model.id],
       providerMeta := e.providerMeta[p.provider := map f | f in FIELDS :: p.model.Field(f)],
       labels := if shown == "" then e.labels else e.labels + {shown},
       nameKeyed := if p.byName then e.nameKeyed + {p.provider} else e.nameKeyed,
       meta := Fill(e.meta, p.model))
  }

  function Merge(naming: Naming, grouped: Grouped, p: Placement): Grouped {
    grouped[p.key := Join(naming, if p.key in grouped then grouped[p.key] else NewEntry(p.key), p)]
  }

  function MergeAll(naming: Naming, log: seq<Placement>): Grouped {
    if log == [] then map[] else Merge(naming, MergeAll(naming, log[..|log| - 1]), log[|log| - 1])
  }

  /** The models of a provider under a key; the last one is remembered. */
  function LastPlaced(log: seq<Placement>, key: string, provider: string): Option<Model> {
    if log == [] then None
    else
      var p := log[|log| - 1];
      if p.key == key && p.provider == provider then Some(p.model) else LastPlaced(log[..|log| - 1], key, provider)
  }

  predicate PlacedByName(log: seq<Placement>, key: string, provider: string) {
    exists i :: 0 <= i < |log| && log[i].key == key && log[i].provider == provider && log[i].byName
  }

  predicate Placed(log: seq<Placement>, key: string) {
    exists i :: 0 <= i < |log| && log[i].key == key
  }

  /** What an entry knows about one provider is what was placed for it. */
  ghost predicate AgreesOn(e: Entry, log: seq<Placement>, key: string, p: string) {
    && (p in e.providers <==> LastPlaced(log, key, p).Some?)
    && (p in e.providers ==> p in e.rawIds && e.rawIds[p] == LastPlaced(log, key, p).value.id)
    && (p in e.nameKeyed <==> PlacedByName(log, key, p))
  }

  ghost predicate IsEntryOf(e: Entry, log: seq<Placement>, key: string) {
    && e.WellFormed() && e.key == key && (e.scoped <==> '\0' in key) && e.aliasOf == None
    && forall p :: AgreesOn(e, log, key, p)
  }

  /** The merged catalogue as a statement about all placements: which keys exist,
      which providers each entry has, and which raw id it keeps for each. */
  ghost predicate IsMergeOf(grouped: Grouped, log: seq<Placement>) {
    && (forall key :: key in grouped <==> Placed(log, key))
    && (forall key :: key in grouped ==> IsEntryOf(grouped[key], log, key))
  }

  lemma PlacedAppend(log: seq<Placement>, p: Placement, key: string, provider: string)
    ensures Placed(log + [p], key) <==> Placed(log, key) || p.key == key
    ensures PlacedByName(log + [p], key, provider) <==>
      PlacedByName(log, key, provider) || (p.key == key && p.provider == provider && p.byName)
    ensures LastPlaced(log + [p], key, provider) ==
      if p.key == key && p.provider == provider then Some(p.model) else LastPlaced(log, key, provider)
  {
    var all := log + [p];
    assert all[..|log|] == log && all[|log|] == p;
    if Placed(log, key) {
      var i :| 0 <= i < |log| && log[i].key == key;
      assert all[i] == log[i];
    }
    if PlacedByName(log, key, provider) {
      var i :| 0 <= i < |log| && log[i].key == key && log[i].provider == provider && log[i].byName;
      assert all[i] == log[i];
    }
  }

  lemma {:induction false} NotPlaced(log: seq<Placement>, key: string, provider: string)
    requires !Placed(log, key)
    ensures LastPlaced(log, key, provider) == None && !PlacedByName(log, key, provider)
  {
    if log != [] {
      var n := |log| - 1;
      assert log == log[..n] + [log[n]];
      PlacedAppend(log[..n], log[n], key, provider);
      NotPlaced(log[..n], key, provider);
    }
  }

  lemma JoinAgrees(naming: Naming, e: Entry, log: seq<Placement>, p: Placement, q: string)
    requires AgreesOn(e, log, p.key, q)
    ensures AgreesOn(Join(naming, e, p), log + [p], p.key, q)
  {
    PlacedAppend(log, p, p.key, q);
  }

  lemma JoinStep(naming: Naming, e: Entry, log: seq<Placement>, p: Placement)
    requires IsEntryOf(e, log, p.key) || (e == NewEntry(p.key) && !Placed(log, p.key))
    ensures IsEntryOf(Join(naming, e, p), log + [p], p.key)
  {
    forall q ensures AgreesOn(Join(naming, e, p), log + [p], p.key, q) {
      if !Placed(log, p.key) {
        NotPlaced(log, p.key, q);
      }
      assert AgreesOn(e, log, p.key, q);
      JoinAgrees(naming, e, log, p, q);
    }
  }

  lemma OtherKeyStep(e: Entry, log: seq<Placement>, p: Placement, key: string)
    requires IsEntryOf(e, log, key) && key != p.key
    ensures IsEntryOf(e, log + [p], key)
  {
    forall q ensures AgreesOn(e, log + [p], key, q) {
      assert AgreesOn(e, log, key, q);
      PlacedAppend(log, p, key, q);
    }
  }

  lemma MergeStep(naming: Naming, grouped: Grouped, log: seq<Placement>, p: Placement)
    requires IsMergeOf(grouped, log)
    ensures IsMergeOf(Merge(naming, grouped, p), log + [p])
  {
    var after := Merge(naming, grouped, p);
    forall key ensures key in after <==> Placed(log + [p], key) {
      PlacedAppend(log, p, key, p.provider);
    }
    forall key | key in after ensures IsEntryOf(after[key], log + [p], key) {
      if key == p.key {
        JoinStep(naming, if key in grouped then grouped[key] else NewEntry(key), log, p);
      } else {
        OtherKeyStep(grouped[key], log, p, key);
      }
    }
  }

  lemma {:induction false} MergeAllIsMerge(naming: Naming, log: seq<Placement>)
    ensures IsMergeOf(MergeAll(naming, log), log)
  {
    if log != [] {
      var before, last := log[..|log| - 1], log[|log| - 1];
      assert log == before + [last];
      MergeAllIsMerge(naming, before);
      var grouped := MergeAll(naming, before);
      assert MergeAll(naming, log) == Merge(naming, grouped, last);
      assert IsMergeOf(Merge(naming, grouped, last), log) by {
        MergeStep(naming, grouped, before, last);
      }
    }
  }

  lemma {:induction false} LastPlacedIsLast(log: seq<Placement>, i: nat)
    requires i < |log|
    ensures LastPlaced(log, log[i].key, log[i].provider).Some?
    ensures (forall j :: i < j < |log| ==> !(log[j].key == log[i].key && log[j].provider == log[i].provider)) ==>
      LastPlaced(log, log[i].key, log[i].provider) == Some(log[i].model)
  {
    if i < |log| - 1 {
      LastPlacedIsLast(log[..|log| - 1], i);
    }
  }

  /** Every placed model is represented by its provider under its merge key, and
      by its own raw id unless a later model of that provider shares the key. */
  lemma ModelsAreRepresented(naming: Naming, log: seq<Placement>, i: nat)
    requires i < |log|
    ensures log[i].key in MergeAll(naming, log)
    ensures log[i].provider in MergeAll(naming, log)[log[i].key].providers
    ensures (forall j :: i < j < |log| ==> !(log[j].key == log[i].key && log[j].provider == log[i].provider)) ==>
      log[i].provider in MergeAll(naming, log)[log[i].key].rawIds
      && MergeAll(naming, log)[log[i].key].rawIds[log[i].provider] == log[i].model.id
  {
    MergeAllIsMerge(naming, log);
    LastPlacedIsLast(log, i);
    assert Placed(log, log[i].key);
    assert IsEntryOf(MergeAll(naming, log)[log[i].key], log, log[i].key);
    assert AgreesOn(MergeAll(naming, log)[log[i].key], log, log[i].key, log[i].provider);
  }

  // -------------------------------------------------------------- scoping

  /** Every key with a separator is the scoped key of its own provider. */
  ghost predicate Scoping(naming: Naming, log: seq<Placement>) {
    forall i :: 0 <= i < |log| ==>
      '\0' !in log[i].provider &&
      ('\0' in log[i].key ==> log[i].key == naming.ScopedKey(log[i].provider, log[i].model.id))
  }

  lemma {:induction false} PlacementsScope(naming: Naming, provider: string, table: seq<Model>, n: nat)
    requires naming.Lawful() && '\0' !in provider && n <= |table|
    ensures Scoping(naming, Placements(naming, provider, table, n))
  {
    if n > 0 {
      PlacementsScope(naming, provider, table, n - 1);
    }
  }

  lemma ScopedKeyInjective(naming: Naming, p: string, a: string, q: string, b: string)
    requires '\0' !in p && '\0' !in q && naming.ScopedKey(p, a) == naming.ScopedKey(q, b)
    ensures p == q
  {
    var k := naming.ScopedKey(p, a);
    assert k[|p|] == '\0' && k[|q|] == '\0';
    assert k[..|p|] == p && k[..|q|] == q;
    assert forall i :: 0 <= i < |p| ==> k[i] == p[i] && k[i] != '\0';
    assert forall i :: 0 <= i < |q| ==> k[i] == q[i] && k[i] != '\0';
  }

  lemma {:induction false} LastPlacedOccurs(log: seq<Placement>, key: string, provider: string)
    ensures LastPlaced(log, key, provider).Some? ==>
      exists i :: 0 <= i < |log| && log[i].key == key && log[i].provider == provider
                  && log[i].model == LastPlaced(log, key, provider).value
  {
    if log != [] {
      LastPlacedOccurs(log[..|log| - 1], key, provider);
    }
  }

  /** Sentinel names and unresolved duplicates are never merged across providers:
      a scoped entry has exactly one provider. */
  lemma ScopedEntriesAreSingle(naming: Naming, log: seq<Placement>, key: string)
    requires Scoping(naming, log) && key in MergeAll(naming, log) && MergeAll(naming, log)[key].scoped
    ensures exists p :: MergeAll(naming, log)[key].providers == {p}
  {
    MergeAllIsMerge(naming, log);
    var e := MergeAll(naming, log)[key];
    assert IsEntryOf(e, log, key);
    var p :| p in e.providers;
    forall q | q in e.providers ensures q == p {
      assert AgreesOn(e, log, key, p) && AgreesOn(e, log, key, q);
      LastPlacedOccurs(log, key, p);
      LastPlacedOccurs(log, key, q);
      var i :| 0 <= i < |log| && log[i].key == key && log[i].provider == p;
      var j :| 0 <= j < |log| && log[j].key == key && log[j].provider == q;
      ScopedKeyInjective(naming, p, log[i].model.id, q, log[j].model.id);
    }
    assert e.providers == {p};
  }

  // ------------------------------------------------------------ merge keys

  /** The name shown for a model: its own, or one derived from its id. */
  ghost function Shown(naming: Naming, m: Model): string { naming.display(if m.name != "" then m.name else m.id) }

  ghost function NameKey(naming: Naming, m: Model): string { naming.normalize(Shown(naming, m)) }

  /** No other model of the provider has the same name. */
  ghost predicate UniquelyNamed(naming: Naming, table: seq<Model>, i: nat)
    requires i < |table|
  {
    forall j :: 0 <= j < |table| && j != i ==> NameKey(naming, table[j]) != NameKey(naming, table[i])
  }

  /** The model is kept apart from every other provider: it has no name, a sentinel
      name, or a name it shares within the provider and that none of the ids has. */
  ghost predicate Isolated(naming: Naming, table: seq<Model>, i: nat)
    requires i < |table|
  {
    var name := NameKey(naming, table[i]);
    || name == "" || name == "auto" || name == "default"
    || (!UniquelyNamed(naming, table, i) && forall j :: 0 <= j < |table| ==> naming.normalize(table[j].id) != name)
  }

  /** What a model that is not kept apart is merged by: its name, or its id if the
      name is shared. */
  ghost function PlainKey(naming: Naming, table: seq<Model>, i: nat): string
    requires i < |table|
  {
    if UniquelyNamed(naming, table, i) then NameKey(naming, table[i]) else naming.normalize(table[i].id)
  }

  lemma DuplicatesAreNotUnique(naming: Naming, table: seq<Model>, i: nat)
    requires i < |table|
    ensures naming.DuplicateLabel(table, NameKey(naming, table[i])) <==> !UniquelyNamed(naming, table, i)
  {
    var name := NameKey(naming, table[i]);
    if naming.DuplicateLabel(table, name) {
      var a, b :| 0 <= a < b < |table| && naming.LabelKey(table[a]) == name && naming.LabelKey(table[b]) == name;
      assert NameKey(naming, table[if a == i then b else a]) == name;
    }
    if !UniquelyNamed(naming, table, i) {
      var j :| 0 <= j < |table| && j != i && NameKey(naming, table[j]) == name;
      assert naming.LabelKey(table[j]) == name && naming.LabelKey(table[i]) == name;
    }
  }

  /** The key of every model of a table, and whether it is its name. */
  lemma MergeKeyRules(naming: Naming, provider: string, table: seq<Model>, i: nat)
    requires naming.Lawful() && i < |table|
    ensures var (key, byName) := naming.MergeKey(table[i], provider, table);
      && key == (if Isolated(naming, table, i) then provider + "\0" + naming.normalize(table[i].id) else PlainKey(naming, table, i))
      && (byName <==> !Isolated(naming, table, i) && UniquelyNamed(naming, table, i))
      && ('\0' in key <==> Isolated(naming, table, i))
  {
    DuplicatesAreNotUnique(naming, table, i);
    assert naming.ScopedKey(provider, table[i].id)[|provider|] == '\0';
    assert naming.LabelKey(table[i]) == NameKey(naming, table[i]);
    assert naming.HasIdKey(table, NameKey(naming, table[i])) <==>
      exists j :: 0 <= j < |table| && naming.normalize(table[j].id) == NameKey(naming, table[i]);
  }

  /** Models of two providers are merged exactly when neither is kept apart and they
      go by the same key. */
  lemma MergedIff(naming: Naming, p: string, table: seq<Model>, i: nat, q: string, other: seq<Model>, j: nat)
    requires naming.Lawful() && p != q && '\0' !in p && '\0' !in q && i < |table| && j < |other|
    ensures naming.MergeKey(table[i], p, table).0 == naming.MergeKey(other[j], q, other).0 <==>
      && !Isolated(naming, table, i) && !Isolated(naming, other, j)
      && PlainKey(naming, table, i) == PlainKey(naming, other, j)
  {
    MergeKeyRules(naming, p, table, i);
    MergeKeyRules(naming, q, other, j);
    if naming.ScopedKey(p, table[i].id) == naming.ScopedKey(q, other[j].id) {
      ScopedKeyInjective(naming, p, table[i].id, q, other[j].id);
    }
  }

  // ------------------------------------------------------------- metadata

  /** The value the first provider that has one gives for a field. */
  function FirstFilled(log: seq<Placement>, key: string, field: string): Meta {
    if log == [] then Absent
    else
      var before, p := FirstFilled(log[..|log| - 1], key, field), log[|log| - 1];
      if p.key == key && before.Blank() then p.model.Field(field) else before
  }

  lemma {:induction false} FirstFilledIsFirst(log: seq<Placement>, key: string, field: string, i: nat)
    requires i < |log| && log[i].key == key && log[i].model.Field(field) !in {Absent, TextValue("")}
    requires forall j :: 0 <= j < i && log[j].key == key ==> log[j].model.Field(field) in {Absent, TextValue("")}
    ensures FirstFilled(log, key, field) == log[i].model.Field(field)
  {
    var before := log[..|log| - 1];
    if i < |before| {
      FirstFilledIsFirst(before, key, field, i);
    } else {
      NothingFilled(before, key, field);
    }
  }

  lemma {:induction false} NothingFilled(log: seq<Placement>, key: string, field: string)
    requires forall j :: 0 <= j < |log| && log[j].key == key ==> log[j].model.Field(field).Blank()
    ensures FirstFilled(log, key, field).Blank()
  {
    if log != [] {
      NothingFilled(log[..|log| - 1], key, field);
    }
  }

  /** Later providers only fill what earlier ones left blank. */
  lemma {:induction false} MetaIsFirstFilled(naming: Naming, log: seq<Placement>, key: string, field: string)
    requires field in FIELDS
    ensures key in MergeAll(naming, log) ==>
      field in MergeAll(naming, log)[key].meta && MergeAll(naming, log)[key].meta[field] == FirstFilled(log, key, field)
    ensures key !in MergeAll(naming, log) ==> FirstFilled(log, key, field) == Absent
  {
    if log != [] {
      MetaIsFirstFilled(naming, log[..|log| - 1], key, field);
    }
  }

  /** For each of its providers an entry keeps the fields of the model placed last. */
  lemma {:induction false} ProviderMetaIsLast(naming: Naming, log: seq<Placement>, key: string, p: string, field: string)
    requires field in FIELDS
    ensures LastPlaced(log, key, p).Some? ==>
      var grouped := MergeAll(naming, log);
      && key in grouped && p in grouped[key].providerMeta && field in grouped[key].providerMeta[p]
      && grouped[key].providerMeta[p][field] == LastPlaced(log, key, p).value.Field(field)
  {
    if log != [] {
      ProviderMetaIsLast(naming, log[..|log| - 1], key, p, field);
    }
  }

  /** The names an entry can be shown under are those of its models. */
  ghost predicate ShownBy(naming: Naming, log: seq<Placement>, key: string, shown: string) {
    exists i :: 0 <= i < |log| && log[i].key == key && Shown(naming, log[i].model) == shown
  }

  lemma ShownByAppend(naming: Naming, log: seq<Placement>, p: Placement, key: string, shown: string)
    ensures ShownBy(naming, log + [p], key, shown) <==>
      ShownBy(naming, log, key, shown) || (p.key == key && Shown(naming, p.model) == shown)
  {
    var all := log + [p];
    if ShownBy(naming, log, key, shown) {
      var i :| 0 <= i < |log| && log[i].key == key && Shown(naming, log[i].model) == shown;
      assert all[i] == log[i];
    }
    assert all[|log|] == p;
  }

  lemma JoinShows(naming: Naming, e: Entry, p: Placement, shown: string)
    ensures shown in Join(naming, e, p).labels <==> shown in e.labels || (shown != "" && shown == Shown(naming, p.model))
  {
  }

  lemma {:induction false} LabelsAreShown(naming: Naming, log: seq<Placement>, key: string, shown: string)
    ensures key in MergeAll(naming, log) ==>
      (shown in MergeAll(naming, log)[key].labels <==> shown != "" && ShownBy(naming, log, key, shown))
    ensures key !in MergeAll(naming, log) ==> !ShownBy(naming, log, key, shown)
  {
    if log != [] {
      var before, last := log[..|log| - 1], log[|log| - 1];
      var grouped := MergeAll(naming, before);
      LabelsAreShown(naming, before, key, shown);
      assert log == before + [last];
      ShownByAppend(naming, before, last, key, shown);
      JoinShows(naming, if last.key in grouped then grouped[last.key] else NewEntry(last.key), last, shown);
      assert MergeAll(naming, log) == Merge(naming, grouped, last);
      assert key != last.key ==> (key in Merge(naming, grouped, last) <==> key in grouped);
    }
  }
}
