/** The hot-reloadable settings layer: typed parsing and printing, a batch that
    is validated as a whole before anything is written, and the override map
    that is re-read from the store after every write (src/runtime_settings.py). */
module RuntimeSettings {
  import opened Options
  import opened Text

  datatype Kind = Bool | Int | Float | Str

  datatype Spec = Spec(kind: Kind, minimum: Option<real>, maximum: Option<real>, floor: Option<real>)

  datatype Value = Flag(b: bool) | Whole(i: int) | Decimal(x: real) | Words(s: string)

  /** What `float(text)` yields. */
  datatype Number = NotANumber | NonFinite | Finite(x: real)

  /** A submitted value: null, a text, or something else with its `str()`. */
  datatype Raw = Null | Given(text: string) | Other(repr: string)
  {
    predicate IsReset() { Null? || (Given? && Strip(text) == "") }
    function AsText(): string requires !Null? { if Given? then text else repr }
  }

  const MAX_STRING := 65536
  const PACER_MIN := "pacer_min_seconds"
  const PACER_MAX := "pacer_max_seconds"
  const WEBHOOKS: set<string> := {"alert_webhook_url", "alert_feishu_webhook_url", "alert_slack_webhook_url"}

  type Overrides = map<string, string>
  type Batch = seq<(string, Raw)>

  /** The table of settings, Python's conversions between texts and numbers, and
      the address check of webhook settings. */
  datatype Rules = Rules(specs: map<string, Spec>,
                         boolOf: string -> Option<bool>,
                         intOf: string -> Option<int>, textOfInt: int -> string,
                         floatOf: string -> Number, textOfFloat: real -> string,
                         webhookAllowed: string -> bool)
  {
    /** Printing a bool, an int or a float and parsing it back is the identity,
        for the numbers that some text stands for. */
    ghost predicate Lawful() {
      && boolOf("true") == Some(true) && boolOf("false") == Some(false)
      && (forall t :: intOf(t).Some? ==> intOf(textOfInt(intOf(t).value)) == intOf(t))
      && (forall t :: floatOf(t).Finite? ==> floatOf(textOfFloat(floatOf(t).x)) == floatOf(t))
    }

    static predicate InRange(spec: Spec, x: real) {
      && (spec.minimum.Some? ==> spec.minimum.value <= x)
      && (spec.maximum.Some? ==> x <= spec.maximum.value)
    }

    /** `_coerce`: None is a rejected text. */
    function Coerce(key: string, text: string): Option<Value>
      requires key in specs
    {
      var spec := specs[key];
      match spec.kind
      case Bool => (match boolOf(text) case Some(b) => Some(Flag(b)) case None => None)
      case Int => (match intOf(text) case Some(i) => if InRange(spec, i as real) then Some(Whole(i)) else None case None => None)
      case Float => (match floatOf(text) case Finite(x) => if InRange(spec, x) then Some(Decimal(x)) else None case _ => None)
      case Str =>
        if (key == "default_model" && Strip(text) == "") || |text| > MAX_STRING || (key in WEBHOOKS && !webhookAllowed(text))
        then None else Some(Words(text))
    }

    function Parse(key: string, text: string): Option<Value> {
      if key in specs then Coerce(key, text) else None
    }

    function Format(v: Value): string {
      match v
      case Flag(b) => if b then "true" else "false"
      case Whole(i) => textOfInt(i)
      case Decimal(x) => textOfFloat(x)
      case Words(s) => s
    }

    /** A batch entry that passes on its own. */
    predicate EntryOk(entry: (string, Raw)) {
      entry.0 in specs && (entry.1.IsReset() || Coerce(entry.0, entry.1.AsText()).Some?)
    }

    function StoredText(entry: (string, Raw)): string
      requires EntryOk(entry) && !entry.1.IsReset()
    {
      Format(Coerce(entry.0, entry.1.AsText()).value)
    }

    /** The map that results from writing a batch entry by entry. */
    function Write(rows: Overrides, entry: (string, Raw)): Overrides
      requires EntryOk(entry)
    {
      if entry.1.IsReset() then rows - {entry.0} else rows[entry.0 := StoredText(entry)]
    }

    function WriteAll(rows: Overrides, batch: Batch): Overrides
      requires forall i :: 0 <= i < |batch| ==> EntryOk(batch[i])
    {
      if batch == [] then rows else Write(WriteAll(rows, batch[..|batch| - 1]), batch[|batch| - 1])
    }

    /** The rows a reload accepts; the others are skipped. */
    function Accepted(rows: Overrides): Overrides {
      map key | key in rows && Parse(key, rows[key]).Some? :: rows[key]
    }

    /** The value in effect: the override if there is one, else the default. */
    function Effective(defaults: map<string, Value>, overrides: Overrides, key: string): Value
      requires key in overrides ==> Parse(key, overrides[key]).Some?
      requires key !in overrides ==> key in defaults
    {
      if key in overrides then Parse(key, overrides[key]).value else defaults[key]
    }

    /** `get`: the value in effect, or the setting's floor if that is larger. */
    function Get(defaults: map<string, Value>, overrides: Overrides, key: string): (r: Value)
      requires key in overrides ==> Parse(key, overrides[key]).Some?
      requires key !in overrides ==> key in defaults
      ensures var v := Effective(defaults, overrides, key);
        if key !in specs || specs[key].floor.None? || v.Flag? || v.Words? then r == v
        else if v.Decimal? then r.Decimal? && v.x <= r.x && specs[key].floor.value <= r.x && r.x in {v.x, specs[key].floor.value}
        else r.Whole? && v.i <= r.i && specs[key].floor.value < r.i as real + 1.0
             && (r.i == v.i || v.i as real < r.i as real <= specs[key].floor.value)
    {
      var v := Effective(defaults, overrides, key);
      if key in specs && specs[key].floor.Some? then
        match v
        case Whole(i) => if (i as real) < specs[key].floor.value then Whole(specs[key].floor.value.Floor) else v
        case Decimal(x) => if x < specs[key].floor.value then Decimal(specs[key].floor.value) else v
        case _ => v
      else v
    }

    /** Both pacer bounds are unclamped floats with float defaults. */
    predicate PacerDeclared(defaults: map<string, Value>) {
      && PACER_MIN in specs && specs[PACER_MIN].kind == Float && specs[PACER_MIN].floor == None
      && PACER_MAX in specs && specs[PACER_MAX].kind == Float && specs[PACER_MAX].floor == None
      && PACER_MIN in defaults && defaults[PACER_MIN].Decimal?
      && PACER_MAX in defaults && defaults[PACER_MAX].Decimal?
    }

    ghost predicate AllParse(overrides: Overrides) {
      forall key :: key in overrides ==> Parse(key, overrides[key]).Some?
    }

    ghost predicate PacerOrdered(defaults: map<string, Value>, overrides: Overrides)
      requires PacerDeclared(defaults) && AllParse(overrides)
    {
      Effective(defaults, overrides, PACER_MIN).x <= Effective(defaults, overrides, PACER_MAX).x
    }

    /** What an accepted text stands for: a value of the setting's kind within its
        bounds, both inclusive; a text of bounded length, not blank for the default
        model, and for webhooks an allowed address. */
    ghost predicate StandsFor(key: string, text: string, v: Value)
      requires key in specs
    {
      var spec := specs[key];
      && (spec.kind == Bool ==> v.Flag? && boolOf(text) == Some(v.b))
      && (spec.kind == Int ==> v.Whole? && intOf(text) == Some(v.i) && !OutOfBounds(spec, v.i as real))
      && (spec.kind == Float ==> v.Decimal? && floatOf(text) == Finite(v.x) && !OutOfBounds(spec, v.x))
      && (spec.kind == Str ==> v == Words(text) && |text| <= 65536)
      && (spec.kind == Str && key == "default_model" ==> !AllSpace(text))
      && (spec.kind == Str && key in WEBHOOKS ==> webhookAllowed(text))
    }

    static ghost predicate OutOfBounds(spec: Spec, x: real) {
      (spec.minimum.Some? && x < spec.minimum.value) || (spec.maximum.Some? && spec.maximum.value < x)
    }

    // ---------------------------------------------------------------- lemmas

    /** A text is accepted exactly as what it stands for. */
    lemma AcceptedIff(key: string, text: string, v: Value)
      requires key in specs
      ensures Coerce(key, text) == Some(v) <==> StandsFor(key, text, v)
    {
      StripOfBlank(text);
    }

    /** Printing an accepted value and parsing it again accepts the same value. */
    lemma ParseOfFormat(key: string, text: string)
      requires Lawful() && key in specs && Coerce(key, text).Some?
      ensures Coerce(key, Format(Coerce(key, text).value)) == Coerce(key, text)
    {
      var v := Coerce(key, text).value;
      match v
      case Whole(i) => assert intOf(text) == Some(i);
      case Decimal(x) => assert floatOf(text) == Finite(x);
      case _ =>
    }

    /** Writing an entry and reloading is writing the entry to the override map. */
    lemma ReloadAfterWrite(rows: Overrides, entry: (string, Raw))
      requires Lawful() && EntryOk(entry)
      ensures Accepted(Write(rows, entry)) == Write(Accepted(rows), entry)
    {
      if !entry.1.IsReset() {
        ParseOfFormat(entry.0, entry.1.AsText());
      }
    }

    lemma {:induction false} ReloadAfterBatch(rows: Overrides, batch: Batch)
      requires Lawful() && forall i :: 0 <= i < |batch| ==> EntryOk(batch[i])
      ensures Accepted(WriteAll(rows, batch)) == WriteAll(Accepted(rows), batch)
    {
      if batch != [] {
        ReloadAfterBatch(rows, batch[..|batch| - 1]);
        ReloadAfterWrite(WriteAll(rows, batch[..|batch| - 1]), batch[|batch| - 1]);
      }
    }
  }

  /** Null and blank texts reset a setting, and nothing else does. */
  lemma ResetsIff(raw: Raw)
    ensures raw.IsReset() <==> raw.Null? || (raw.Given? && AllSpace(raw.text))
  {
    if raw.Given? {
      StripOfBlank(raw.text);
    }
  }

  // --------------------------------------------- conversions that meet the laws

  /** Whole numbers in unary, with their sign. */
  function Unary(i: int): string {
    if i < 0 then ['-'] + seq(-i, _ => '1') else ['+'] + seq(i, _ => '1')
  }

  function FromUnary(t: string): Option<int> {
    if t == "" || t[0] !in {'+', '-'} || exists k :: 1 <= k < |t| && t[k] != '1' then None
    else if t[0] == '-' then Some(1 - |t|) else Some(|t| - 1)
  }

  function FloatFromUnary(t: string): Number {
    match FromUnary(t)
    case Some(i) => Finite(i as real)
    case None => NotANumber
  }

  lemma UnaryRoundTrip(i: int)
    ensures FromUnary(Unary(i)) == Some(i)
  {
    var t := Unary(i);
    assert t[0] == if i < 0 then '-' else '+';
    assert forall k :: 1 <= k < |t| ==> t[k] == '1';
  }

  /** The laws ask nothing impossible: conversions that cover every whole number
      meet them, with both pacer bounds declared. */
  lemma LawsCanBeMet() returns (rules: Rules, defaults: map<string, Value>)
    ensures rules.Lawful() && rules.PacerDeclared(defaults)
    ensures forall i: int :: rules.floatOf(rules.textOfInt(i)) == Finite(i as real)
  {
    var spec := Spec(Float, Some(0.0), None, None);
    var boolOf := (t: string) => if t == "true" then Some(true) else if t == "false" then Some(false) else None;
    rules := Rules(map[PACER_MIN := spec, PACER_MAX := spec], boolOf, FromUnary, Unary, FloatFromUnary,
                   (x: real) => Unary(x.Floor), _ => true);
    defaults := map[PACER_MIN := Decimal(5.0), PACER_MAX := Decimal(20.0)];
    forall i: int ensures FromUnary(Unary(i)) == Some(i) {
      UnaryRoundTrip(i);
    }
  }

  ghost predicate DistinctKeys(batch: Batch) {
    forall i, j :: 0 <= i < j < |batch| ==> batch[i].0 != batch[j].0
  }

  /** The batch submits a value, not a reset, for the key. */
  ghost predicate Submits(batch: Batch, key: string) {
    exists i :: 0 <= i < |batch| && batch[i].0 == key && !batch[i].1.IsReset()
  }

  ghost predicate Mentions(batch: Batch, key: string) {
    exists i :: 0 <= i < |batch| && batch[i].0 == key
  }

  /** After a batch, each submitted key holds its own value, each reset key none,
      and every other key what it held before. */
  lemma {:induction false} BatchEffect(rules: Rules, rows: Overrides, batch: Batch, key: string)
    requires forall i :: 0 <= i < |batch| ==> rules.EntryOk(batch[i])
    requires DistinctKeys(batch)
    ensures !Mentions(batch, key) ==>
      (key in rules.WriteAll(rows, batch) <==> key in rows)
      && (key in rows ==> rules.WriteAll(rows, batch)[key] == rows[key])
    ensures forall i :: 0 <= i < |batch| && batch[i].0 == key ==>
      if batch[i].1.IsReset() then key !in rules.WriteAll(rows, batch)
      else key in rules.WriteAll(rows, batch) && rules.WriteAll(rows, batch)[key] == rules.StoredText(batch[i])
  {
    if batch != [] {
      var n := |batch| - 1;
      BatchEffect(rules, rows, batch[..n], key);
      if !Mentions(batch, key) {
        forall i | 0 <= i < n ensures batch[..n][i].0 != key {
          assert batch[i].0 != key;
        }
        assert batch[n].0 != key;
      }
    }
  }

  lemma {:induction false} BatchParses(rules: Rules, overrides: Overrides, batch: Batch)
    requires rules.Lawful() && rules.AllParse(overrides)
    requires forall i :: 0 <= i < |batch| ==> rules.EntryOk(batch[i])
    ensures rules.AllParse(rules.WriteAll(overrides, batch))
  {
    if batch != [] {
      BatchParses(rules, overrides, batch[..|batch| - 1]);
      var entry := batch[|batch| - 1];
      if !entry.1.IsReset() {
        rules.ParseOfFormat(entry.0, entry.1.AsText());
      }
    }
  }

  /** Exactly which batches are written: every entry is known and parses, and a
      batch that submits a pacer bound leaves the pair in order. */
  ghost predicate Acceptable(rules: Rules, defaults: map<string, Value>, overrides: Overrides, batch: Batch)
    requires rules.PacerDeclared(defaults)
  {
    && (forall i :: 0 <= i < |batch| ==> rules.EntryOk(batch[i]))
    && rules.AllParse(rules.WriteAll(overrides, batch))
    && (Submits(batch, PACER_MIN) || Submits(batch, PACER_MAX) ==>
          rules.PacerOrdered(defaults, rules.WriteAll(overrides, batch)))
  }

  /** The value a batch submits for a key is the value in effect afterwards. */
  lemma SubmittedIsEffective(rules: Rules, defaults: map<string, Value>, overrides: Overrides, batch: Batch, i: nat)
    requires rules.Lawful() && rules.AllParse(overrides) && DistinctKeys(batch)
    requires forall j :: 0 <= j < |batch| ==> rules.EntryOk(batch[j])
    requires i < |batch| && !batch[i].1.IsReset()
    ensures rules.AllParse(rules.WriteAll(overrides, batch)) && batch[i].0 in rules.WriteAll(overrides, batch)
    ensures Some(rules.Effective(defaults, rules.WriteAll(overrides, batch), batch[i].0)) ==
            rules.Coerce(batch[i].0, batch[i].1.AsText())
  {
    BatchEffect(rules, overrides, batch, batch[i].0);
    BatchParses(rules, overrides, batch);
    rules.ParseOfFormat(batch[i].0, batch[i].1.AsText());
  }

  class SettingsLayer {
    const rules: Rules
    const defaults: map<string, Value>
    /** The rows of the settings store. */
    var rows: Overrides
    var overrides: Overrides

    ghost predicate Valid() reads this {
      rules.Lawful() && rules.PacerDeclared(defaults) && overrides == rules.Accepted(rows)
    }

    constructor (rules: Rules, defaults: map<string, Value>, rows: Overrides)
      requires rules.Lawful() && rules.PacerDeclared(defaults)
      ensures Valid() && this.rules == rules && this.defaults == defaults && this.rows == rows
    {
      this.rules, this.defaults, this.rows, overrides := rules, defaults, rows, map[];
      new;
      Reload();
    }

    /** Re-reads the store; rows that do not parse are skipped. */
    method Reload()
      modifies this`overrides
      ensures overrides == rules.Accepted(rows)
    {
      var loaded: Overrides := map[];
      var keys := rows.Keys;
      while keys != {}
        invariant keys <= rows.Keys
        invariant loaded == rules.Accepted(map key | key in rows && key !in keys :: rows[key])
        decreases keys
      {
        var key :| key in keys;
        keys := keys - {key};
        if rules.Parse(key, rows[key]).Some? {
          loaded := loaded[key := rows[key]];
        }
      }
      assert (map key | key in rows && key !in keys :: rows[key]) == rows;
      overrides := loaded;
    }

    method Set(key: string, raw: Raw) returns (ok: bool)
      requires Valid()
      modifies this
      ensures Valid() && (ok <==> rules.EntryOk((key, raw)))
      ensures rows == if ok then rules.Write(old(rows), (key, raw)) else old(rows)
    {
      if key !in rules.specs {
        return false;
      }
      if raw.IsReset() {
        rows := rows - {key};
      } else {
        var value := rules.Coerce(key, raw.AsText());
        if value.None? {
          return false;
        }
        rows := rows[key := rules.Format(value.value)];
      }
      Reload();
      ok := true;
    }

    /** The check across settings, on what the batch submits and, for the end it
        does not submit, on what will be in effect once it is written. */
    method ValidateGroup(batch: Batch, after: Overrides) returns (ok: bool)
      requires Valid() && DistinctKeys(batch)
      requires forall i :: 0 <= i < |batch| ==> rules.EntryOk(batch[i])
      requires after == rules.WriteAll(overrides, batch)
      ensures ok <==> Acceptable(rules, defaults, overrides, batch)
    {
      assert rules.AllParse(overrides);
      BatchParses(rules, overrides, batch);
      var parsed: map<string, Value> := map[];
      for i := 0 to |batch|
        invariant forall key :: key in parsed <==> Submits(batch[..i], key)
        invariant forall key :: key in parsed ==> key in after && parsed[key] == rules.Effective(defaults, after, key)
      {
        assert batch[..i + 1] == batch[..i] + [batch[i]];
        forall key ensures Submits(batch[..i + 1], key) <==>
          Submits(batch[..i], key) || (batch[i].0 == key && !batch[i].1.IsReset())
        {
          SubmitsStep(batch[..i], batch[i], key);
        }
        if !batch[i].1.IsReset() {
          SubmittedIsEffective(rules, defaults, overrides, batch, i);
          parsed := parsed[batch[i].0 := rules.Coerce(batch[i].0, batch[i].1.AsText()).value];
        }
      }
      assert batch[..|batch|] == batch;
      if PACER_MIN !in parsed && PACER_MAX !in parsed {
        return true;
      }
      var low := if PACER_MIN in parsed then parsed[PACER_MIN] else rules.Effective(defaults, after, PACER_MIN);
      var high := if PACER_MAX in parsed then parsed[PACER_MAX] else rules.Effective(defaults, after, PACER_MAX);
      ok := low.x <= high.x;
    }

    /** All or nothing: a rejected batch writes nothing, an accepted one leaves
        exactly the map the validation looked at. */
    method SetMany(batch: Batch) returns (ok: bool)
      requires Valid() && DistinctKeys(batch)
      modifies this
      ensures Valid()
      ensures ok <==> Acceptable(rules, defaults, old(overrides), batch)
      ensures !ok ==> rows == old(rows) && overrides == old(overrides)
      ensures ok ==> rows == rules.WriteAll(old(rows), batch) && overrides == rules.WriteAll(old(overrides), batch)
      ensures ok && (Submits(batch, PACER_MIN) || Submits(batch, PACER_MAX)) ==>
        rules.Get(defaults, overrides, PACER_MIN).x <= rules.Get(defaults, overrides, PACER_MAX).x
    {
      var prospective := overrides;
      for i := 0 to |batch|
        invariant forall j :: 0 <= j < i ==> rules.EntryOk(batch[j])
        invariant prospective == rules.WriteAll(overrides, batch[..i])
      {
        assert batch[..i + 1][..i] == batch[..i];
        var (key, raw) := batch[i];
        if key !in rules.specs {
          return false;
        }
        if raw.IsReset() {
          prospective := prospective - {key};
        } else {
          var value := rules.Coerce(key, raw.AsText());
          if value.None? {
            return false;
          }
          prospective := prospective[key := rules.Format(value.value)];
        }
      }
      assert batch[..|batch|] == batch;
      ok := ValidateGroup(batch, prospective);
      if !ok {
        return;
      }
      for i := 0 to |batch|
        invariant Valid() && rows == rules.WriteAll(old(rows), batch[..i])
      {
        assert batch[..i + 1][..i] == batch[..i];
        var written := Set(batch[i].0, batch[i].1);
      }
      assert batch[..|batch|] == batch;
      rules.ReloadAfterBatch(old(rows), batch);
    }
  }

  lemma SubmitsStep(batch: Batch, entry: (string, Raw), key: string)
    ensures Submits(batch + [entry], key) <==> Submits(batch, key) || (entry.0 == key && !entry.1.IsReset())
  {
    if Submits(batch, key) {
      var i :| 0 <= i < |batch| && batch[i].0 == key && !batch[i].1.IsReset();
      assert (batch + [entry])[i] == batch[i];
    }
    if entry.0 == key && !entry.1.IsReset() {
      assert (batch + [entry])[|batch|] == entry;
    }
  }

  // ------------------------------------------------- the pair after a batch

  /** What is in effect for a key if the batch submits no value for it: the
      default when the batch resets it, else what was in effect before. */
  ghost function WithoutSubmission(rules: Rules, defaults: map<string, Value>, overrides: Overrides, batch: Batch, key: string): Value
    requires rules.AllParse(overrides) && key in defaults
  {
    if Mentions(batch, key) then defaults[key] else rules.Effective(defaults, overrides, key)
  }

  lemma UnsubmittedIsEffective(rules: Rules, defaults: map<string, Value>, overrides: Overrides, batch: Batch, key: string)
    requires forall i :: 0 <= i < |batch| ==> rules.EntryOk(batch[i])
    requires rules.AllParse(overrides) && rules.AllParse(rules.WriteAll(overrides, batch)) && key in defaults
    requires DistinctKeys(batch) && !Submits(batch, key)
    ensures rules.Effective(defaults, rules.WriteAll(overrides, batch), key) ==
            WithoutSubmission(rules, defaults, overrides, batch, key)
  {
    BatchEffect(rules, overrides, batch, key);
    if Mentions(batch, key) {
      var i :| 0 <= i < |batch| && batch[i].0 == key;
      assert batch[i].1.IsReset();
    }
  }

  /** Exactly which accepted batches leave the pacer pair in order: those that
      submit one of the bounds, and those for which the two values that stay or
      come back, known before the batch is written, are in order. */
  lemma OrderAfterBatch(rules: Rules, defaults: map<string, Value>, overrides: Overrides, batch: Batch)
    requires rules.PacerDeclared(defaults) && rules.AllParse(overrides)
    requires DistinctKeys(batch) && Acceptable(rules, defaults, overrides, batch)
    ensures rules.PacerOrdered(defaults, rules.WriteAll(overrides, batch)) <==>
      || Submits(batch, PACER_MIN) || Submits(batch, PACER_MAX)
      || WithoutSubmission(rules, defaults, overrides, batch, PACER_MIN).x <=
         WithoutSubmission(rules, defaults, overrides, batch, PACER_MAX).x
  {
    if !Submits(batch, PACER_MIN) && !Submits(batch, PACER_MAX) {
      UnsubmittedIsEffective(rules, defaults, overrides, batch, PACER_MIN);
      UnsubmittedIsEffective(rules, defaults, overrides, batch, PACER_MAX);
    }
  }

  /** A batch that submits neither bound is accepted on its entries alone. */
  lemma ResetsAreAccepted(rules: Rules, defaults: map<string, Value>, overrides: Overrides, batch: Batch)
    requires rules.Lawful() && rules.PacerDeclared(defaults) && rules.AllParse(overrides)
    requires !Submits(batch, PACER_MIN) && !Submits(batch, PACER_MAX)
    ensures Acceptable(rules, defaults, overrides, batch) <==> forall i :: 0 <= i < |batch| ==> rules.EntryOk(batch[i])
  {
    if forall i :: 0 <= i < |batch| ==> rules.EntryOk(batch[i]) {
      BatchParses(rules, overrides, batch);
    }
  }

  /** So an ordered pair can be put out of order from either end. With the shipped
      defaults of 5 and 20 seconds, resetting the minimum of the overrides 1 and 3
      leaves 5 above 3, and resetting the maximum of 30 and 40 leaves 30 above 20. */
  lemma ResetCanDisorder(rules: Rules, defaults: map<string, Value>, low: string, high: string, end: string)
    requires rules.Lawful() && rules.PacerDeclared(defaults)
    requires defaults[PACER_MIN] == Decimal(5.0) && defaults[PACER_MAX] == Decimal(20.0)
    requires rules.Parse(PACER_MIN, low).Some? && rules.Parse(PACER_MAX, high).Some?
    requires (end == PACER_MIN && rules.floatOf(low) == Finite(1.0) && rules.floatOf(high) == Finite(3.0))
          || (end == PACER_MAX && rules.floatOf(low) == Finite(30.0) && rules.floatOf(high) == Finite(40.0))
    ensures
      var overrides, batch := map[PACER_MIN := low, PACER_MAX := high], [(end, Null)];
      && rules.AllParse(overrides) && rules.PacerOrdered(defaults, overrides)
      && Acceptable(rules, defaults, overrides, batch)
      && !rules.PacerOrdered(defaults, rules.WriteAll(overrides, batch))
  {
    var overrides, batch := map[PACER_MIN := low, PACER_MAX := high], [(end, Null)];
    assert batch[0] == (end, Null);
    assert Mentions(batch, end) && !Mentions(batch, if end == PACER_MIN then PACER_MAX else PACER_MIN);
    ResetsAreAccepted(rules, defaults, overrides, batch);
    OrderAfterBatch(rules, defaults, overrides, batch);
  }
}
