/** Credential tags: parsing user input, the stored text, and reading it back
    (src/tags.py). Case folding is a parameter: nothing depends on which
    spellings it identifies. */
module Tags {
  import opened Options
  import opened Selections
  import opened Text

  const MAX_TAGS := 16
  const MAX_TAG_LENGTH := 24

  datatype Item = Str(text: string) | NotAString

  datatype Input = Null | Line(text: string) | List(items: seq<Item>) | Unsupported

  datatype Error = BadInput | BadItem | TooLong | HasSeparator | TooMany

  datatype Parsed = Accepted(tags: seq<string>) | Rejected(error: Error)

  predicate IsSeparator(c: char) { c in {',', ';', '\U{FF0C}', '\U{FF1B}'} }

  predicate HasSeparators(s: string) { exists i :: 0 <= i < |s| && IsSeparator(s[i]) }

  /** Every accepted separator becomes a plain comma. */
  function Translate(s: string): string {
    seq(|s|, i requires 0 <= i < |s| => if IsSeparator(s[i]) then ',' else s[i])
  }

  function NonBlank(parts: seq<string>): seq<string> {
    if parts == [] then []
    else (if Strip(parts[0]) == "" then [] else [Strip(parts[0])]) + NonBlank(parts[1..])
  }

  function SplitTags(raw: string): seq<string> { NonBlank(Split(Translate(raw), ',')) }

  function Strs(tags: seq<string>): seq<Item> {
    if tags == [] then [] else Strs(tags[..|tags| - 1]) + [Str(tags[|tags| - 1])]
  }

  function ItemsOf(raw: Input): seq<Item> {
    match raw
    case Line(text) => Strs(SplitTags(text))
    case List(items) => items
    case _ => []
  }

  // ----------------------------------------------------------- specification

  predicate Fits(item: Item) {
    && item.Str?
    && |Strip(item.text)| <= MAX_TAG_LENGTH
    && !HasSeparators(Strip(item.text))
  }

  function Complaint(item: Item): Error {
    if item.NotAString? then BadItem
    else if |Strip(item.text)| > MAX_TAG_LENGTH then TooLong
    else HasSeparator
  }

  /** The stripped non-blank texts of the items. */
  function Texts(items: seq<Item>): seq<string> {
    if items == [] then []
    else
      Texts(items[..|items| - 1]) +
      var item := items[|items| - 1];
      if item.Str? && Strip(item.text) != "" then [Strip(item.text)] else []
  }

  function Folded(lower: string -> string, tags: seq<string>): set<string> {
    set i | 0 <= i < |tags| :: lower(tags[i])
  }

  /** First spellings, in order. */
  function Dedup(lower: string -> string, tags: seq<string>): seq<string> {
    if tags == [] then []
    else
      var before, tag := Dedup(lower, tags[..|tags| - 1]), tags[|tags| - 1];
      if lower(tag) in Folded(lower, before) then before else before + [tag]
  }

  ghost predicate Distinct(lower: string -> string, tags: seq<string>) {
    forall i, j :: 0 <= i < j < |tags| ==> lower(tags[i]) != lower(tags[j])
  }

  predicate WellFormed(tag: string) {
    tag != "" && Stripped(tag) && |tag| <= MAX_TAG_LENGTH && !HasSeparators(tag)
  }

  /** The shape of every tag list the program stores or returns. */
  ghost predicate Canonical(lower: string -> string, tags: seq<string>) {
    && |tags| <= MAX_TAGS
    && (forall i :: 0 <= i < |tags| ==> WellFormed(tags[i]))
    && Distinct(lower, tags)
  }

  /** The outcome of parsing, as a statement about the whole input. */
  ghost predicate IsParseOf(lower: string -> string, raw: Input, r: Parsed) {
    var items := ItemsOf(raw);
    var tags := Dedup(lower, Texts(items));
    if raw.Unsupported? then r == Rejected(BadInput)
    else if exists i :: 0 <= i < |items| && !Fits(items[i]) then
      exists i :: 0 <= i < |items| && !Fits(items[i]) && r == Rejected(Complaint(items[i]))
                  && forall j :: 0 <= j < i ==> Fits(items[j])
    else if |tags| > MAX_TAGS then r == Rejected(TooMany)
    else r == Accepted(tags)
  }

  lemma TextsStep(items: seq<Item>, item: Item)
    ensures Texts(items + [item]) ==
      if item.Str? && Strip(item.text) != "" then Texts(items) + [Strip(item.text)] else Texts(items)
  {
    assert (items + [item])[..|items|] == items;
  }

  lemma DedupStep(lower: string -> string, tags: seq<string>, tag: string)
    ensures Dedup(lower, tags + [tag]) ==
      if lower(tag) in Folded(lower, Dedup(lower, tags)) then Dedup(lower, tags) else Dedup(lower, tags) + [tag]
  {
    assert (tags + [tag])[..|tags|] == tags;
  }

  /** What the loop knows after `n` items: `kept` are the first spellings so
      far and `seen` their folded forms. */
  ghost predicate Progress(lower: string -> string, items: seq<Item>, n: nat, kept: seq<string>, seen: set<string>)
    requires n <= |items|
  {
    && (forall j :: 0 <= j < n ==> Fits(items[j]))
    && kept == Dedup(lower, Texts(items[..n]))
    && seen == Folded(lower, kept)
  }

  lemma ProgressStep(lower: string -> string, items: seq<Item>, n: nat, kept: seq<string>, seen: set<string>, tag: string)
    requires n < |items| && Progress(lower, items, n, kept, seen)
    requires Fits(items[n]) && tag == Strip(items[n].text)
    ensures tag == "" || lower(tag) in seen ==> Progress(lower, items, n + 1, kept, seen)
    ensures tag != "" && lower(tag) !in seen ==> Progress(lower, items, n + 1, kept + [tag], seen + {lower(tag)})
  {
    assert items[..n + 1] == items[..n] + [items[n]];
    TextsStep(items[..n], items[n]);
    DedupStep(lower, Texts(items[..n]), tag);
    FoldedAppend(lower, kept, tag);
  }

  lemma ParseRejects(lower: string -> string, raw: Input, n: nat, kept: seq<string>, seen: set<string>)
    requires !raw.Unsupported? && n < |ItemsOf(raw)| && !Fits(ItemsOf(raw)[n])
    requires Progress(lower, ItemsOf(raw), n, kept, seen)
    ensures IsParseOf(lower, raw, Rejected(Complaint(ItemsOf(raw)[n])))
  {
  }

  lemma ParseEnds(lower: string -> string, raw: Input, kept: seq<string>, seen: set<string>)
    requires !raw.Unsupported? && Progress(lower, ItemsOf(raw), |ItemsOf(raw)|, kept, seen)
    ensures IsParseOf(lower, raw, if |kept| > MAX_TAGS then Rejected(TooMany) else Accepted(kept))
  {
    assert ItemsOf(raw)[..|ItemsOf(raw)|] == ItemsOf(raw);
  }

  lemma BlankFits(item: Item)
    requires item.Str? && Strip(item.text) == ""
    ensures Fits(item)
  {
  }

  // -------------------------------------------------------------- operations

  method ParseTags(lower: string -> string, raw: Input) returns (r: Parsed)
    ensures IsParseOf(lower, raw, r)
  {
    if raw.Unsupported? {
      return Rejected(BadInput);
    }
    var items := ItemsOf(raw);
    var normalized: seq<string> := [];
    var seen: set<string> := {};
    for i := 0 to |items|
      invariant Progress(lower, items, i, normalized, seen)
    {
      if items[i].NotAString? {
        ParseRejects(lower, raw, i, normalized, seen);
        return Rejected(BadItem);
      }
      var tag := Strip(items[i].text);
      if tag == "" {
        BlankFits(items[i]);
        ProgressStep(lower, items, i, normalized, seen, tag);
        continue;
      }
      if |tag| > MAX_TAG_LENGTH {
        ParseRejects(lower, raw, i, normalized, seen);
        return Rejected(TooLong);
      }
      TranslateFinds(tag);
      if ',' in Translate(tag) {
        ParseRejects(lower, raw, i, normalized, seen);
        return Rejected(HasSeparator);
      }
      ProgressStep(lower, items, i, normalized, seen, tag);
      var key := lower(tag);
      if key in seen {
        continue;
      }
      seen := seen + {key};
      normalized := normalized + [tag];
    }
    ParseEnds(lower, raw, normalized, seen);
    r := if |normalized| > MAX_TAGS then Rejected(TooMany) else Accepted(normalized);
  }

  function TagsText(tags: seq<string>): string { Join(tags, ',') }

  function Short(tags: seq<string>): seq<string> {
    if tags == [] then []
    else
      var tag := tags[|tags| - 1];
      Short(tags[..|tags| - 1]) + if |tag| <= MAX_TAG_LENGTH then [tag] else []
  }

  lemma ShortStep(tags: seq<string>, tag: string)
    ensures Short(tags + [tag]) == if |tag| <= MAX_TAG_LENGTH then Short(tags) + [tag] else Short(tags)
  {
    assert (tags + [tag])[..|tags|] == tags;
  }

  function Take(tags: seq<string>): seq<string> {
    if |tags| <= MAX_TAGS then tags else tags[..MAX_TAGS]
  }

  function Read(lower: string -> string, stored: string): seq<string> {
    Take(Dedup(lower, Short(SplitTags(stored))))
  }

  method TagsValue(lower: string -> string, stored: string) returns (out: seq<string>)
    ensures out == Read(lower, stored)
  {
    var items := SplitTags(stored);
    out := [];
    var seen: set<string> := {};
    for i := 0 to |items|
      invariant out == Dedup(lower, Short(items[..i]))
      invariant seen == Folded(lower, out)
    {
      assert items[..i + 1] == items[..i] + [items[i]];
      ShortStep(items[..i], items[i]);
      var tag := items[i];
      if |tag| > MAX_TAG_LENGTH {
        continue;
      }
      DedupStep(lower, Short(items[..i]), tag);
      var key := lower(tag);
      if key in seen {
        continue;
      }
      FoldedAppend(lower, out, tag);
      seen := seen + {key};
      out := out + [tag];
    }
    assert items[..|items|] == items;
    out := Take(out);
  }

  // ------------------------------------------------------------------ lemmas

  lemma TranslateFinds(s: string)
    ensures ',' in Translate(s) <==> HasSeparators(s)
    ensures !HasSeparators(s) ==> Translate(s) == s
  {
    if HasSeparators(s) {
      var i :| 0 <= i < |s| && IsSeparator(s[i]);
      assert Translate(s)[i] == ',';
    }
  }

  lemma FoldedAppend(lower: string -> string, tags: seq<string>, tag: string)
    ensures Folded(lower, tags + [tag]) == Folded(lower, tags) + {lower(tag)}
  {
    forall x | x in Folded(lower, tags) + {lower(tag)} ensures x in Folded(lower, tags + [tag]) {
      if x == lower(tag) {
        assert (tags + [tag])[|tags|] == tag;
      } else {
        var i :| 0 <= i < |tags| && lower(tags[i]) == x;
        assert (tags + [tag])[i] == tags[i];
      }
    }
  }

  /** A tag survives exactly when no earlier one folds to the same spelling. */
  lemma {:induction false} DedupKeepsFirst(lower: string -> string, tags: seq<string>, tag: string)
    ensures tag in Dedup(lower, tags) <==>
      exists i :: 0 <= i < |tags| && tags[i] == tag && lower(tag) !in Folded(lower, tags[..i])
    ensures Folded(lower, Dedup(lower, tags)) == Folded(lower, tags)
  {
    if tags != [] {
      var n := |tags| - 1;
      var before, last := tags[..n], tags[n];
      DedupKeepsFirst(lower, before, tag);
      FoldedAppend(lower, Dedup(lower, before), last);
      FoldedAppend(lower, before, last);
      assert tags == before + [last];
      assert forall i :: 0 <= i < n ==> before[..i] == tags[..i];
      if exists i :: 0 <= i < n && before[i] == tag && lower(tag) !in Folded(lower, before[..i]) {
        var i :| 0 <= i < n && before[i] == tag && lower(tag) !in Folded(lower, before[..i]);
        assert tags[i] == tag && lower(tag) !in Folded(lower, tags[..i]);
      }
      if last == tag && lower(tag) !in Folded(lower, before) {
        assert tags[n] == tag && tags[..n] == before;
      }
    }
  }

  lemma {:induction false} DedupIsDistinct(lower: string -> string, tags: seq<string>)
    ensures Distinct(lower, Dedup(lower, tags))
  {
    if tags != [] {
      var before, tag := Dedup(lower, tags[..|tags| - 1]), tags[|tags| - 1];
      DedupIsDistinct(lower, tags[..|tags| - 1]);
      if lower(tag) !in Folded(lower, before) {
        forall i | 0 <= i < |before| ensures lower(before[i]) != lower(tag) {
          assert lower(before[i]) in Folded(lower, before);
        }
      }
    }
  }

  lemma {:induction false} DedupSelects(lower: string -> string, tags: seq<string>, tag: string)
    requires tag in Dedup(lower, tags)
    ensures tag in tags
  {
    if tag != tags[|tags| - 1] {
      DedupSelects(lower, tags[..|tags| - 1], tag);
    }
  }

  lemma {:induction false} DedupKeepsDistinct(lower: string -> string, tags: seq<string>)
    requires Distinct(lower, tags)
    ensures Dedup(lower, tags) == tags
  {
    if tags != [] {
      var n := |tags| - 1;
      DedupKeepsDistinct(lower, tags[..n]);
      assert tags == tags[..n] + [tags[n]];
    }
  }

  lemma {:induction false} NonBlankSelects(parts: seq<string>, t: string) returns (i: nat)
    requires t in NonBlank(parts)
    ensures i < |parts| && t == Strip(parts[i]) && t != "" && Stripped(t)
  {
    StripEffect(parts[0]);
    if t == Strip(parts[0]) && t != "" {
      i := 0;
    } else {
      i := NonBlankSelects(parts[1..], t);
      i := i + 1;
    }
  }

  lemma {:induction false} NonBlankKeeps(parts: seq<string>)
    requires forall i :: 0 <= i < |parts| ==> parts[i] != "" && Stripped(parts[i])
    ensures NonBlank(parts) == parts
  {
    if parts != [] {
      NonBlankKeeps(parts[1..]);
      StripEffect(parts[0]);
      assert parts == [parts[0]] + parts[1..];
    }
  }

  /** What splitting yields: stripped, non-empty, free of every separator. */
  lemma SplitTagsEffect(raw: string, t: string)
    requires t in SplitTags(raw)
    ensures t != "" && Stripped(t) && !HasSeparators(t)
  {
    var parts := Split(Translate(raw), ',');
    var i := NonBlankSelects(parts, t);
    SplitParts(Translate(raw), ',');
    StripEffect(parts[i]);
    forall k | 0 <= k < |t| ensures !IsSeparator(t[k]) {
      assert t[k] in t;
      assert t[k] in parts[i];
      assert t[k] in Translate(raw);
    }
  }

  lemma {:induction false} TextsEffect(items: seq<Item>, t: string)
    requires forall i :: 0 <= i < |items| ==> Fits(items[i])
    requires t in Texts(items)
    ensures WellFormed(t)
  {
    var last := items[|items| - 1];
    StripEffect(last.text);
    if t == "" || t != Strip(last.text) {
      TextsEffect(items[..|items| - 1], t);
    }
  }

  lemma AcceptedIsCanonical(lower: string -> string, raw: Input, r: Parsed)
    requires IsParseOf(lower, raw, r) && r.Accepted?
    ensures Canonical(lower, r.tags)
  {
    var texts := Texts(ItemsOf(raw));
    DedupIsDistinct(lower, texts);
    forall i | 0 <= i < |r.tags| ensures WellFormed(r.tags[i]) {
      DedupSelects(lower, texts, r.tags[i]);
      TextsEffect(ItemsOf(raw), r.tags[i]);
    }
  }

  lemma {:induction false} ShortSelects(tags: seq<string>, t: string)
    requires t in Short(tags)
    ensures t in tags && |t| <= MAX_TAG_LENGTH
  {
    if t != tags[|tags| - 1] || |t| > MAX_TAG_LENGTH {
      ShortSelects(tags[..|tags| - 1], t);
    }
  }

  lemma {:induction false} ShortKeeps(tags: seq<string>)
    requires forall i :: 0 <= i < |tags| ==> |tags[i]| <= MAX_TAG_LENGTH
    ensures Short(tags) == tags
  {
    if tags != [] {
      ShortKeeps(tags[..|tags| - 1]);
      assert tags == tags[..|tags| - 1] + [tags[|tags| - 1]];
    }
  }

  /** Whatever text is stored, reading it yields a canonical list. */
  lemma ReadIsCanonical(lower: string -> string, stored: string)
    ensures Canonical(lower, Read(lower, stored))
  {
    var short := Short(SplitTags(stored));
    var d := Dedup(lower, short);
    forall i | 0 <= i < |d| ensures WellFormed(d[i]) {
      DedupSelects(lower, short, d[i]);
      ShortSelects(SplitTags(stored), d[i]);
      SplitTagsEffect(stored, d[i]);
    }
    DedupIsDistinct(lower, short);
  }

  lemma {:induction false} JoinHasNoOther(tags: seq<string>)
    requires forall i :: 0 <= i < |tags| ==> !HasSeparators(tags[i])
    ensures forall k :: 0 <= k < |TagsText(tags)| && IsSeparator(TagsText(tags)[k]) ==> TagsText(tags)[k] == ','
  {
    if |tags| > 1 {
      JoinHasNoOther(tags[1..]);
      var text, rest := TagsText(tags), TagsText(tags[1..]);
      forall k | 0 <= k < |text| ensures IsSeparator(text[k]) ==> text[k] == ',' {
        assert text[k] ==
          if k < |tags[0]| then tags[0][k] else if k == |tags[0]| then ',' else rest[k - |tags[0]| - 1];
      }
    }
  }

  lemma SplitTagsOfText(tags: seq<string>)
    requires forall i :: 0 <= i < |tags| ==> WellFormed(tags[i])
    ensures SplitTags(TagsText(tags)) == tags
  {
    JoinHasNoOther(tags);
    var text := TagsText(tags);
    assert Translate(text) == text;
    if tags == [] {
      assert Split("", ',') == [""];
      assert NonBlank([""]) == [];
    } else {
      forall i | 0 <= i < |tags| ensures ',' !in tags[i] {
        TranslateFinds(tags[i]);
      }
      SplitOfJoin(tags, ',');
      NonBlankKeeps(tags);
    }
  }

  /** The round trip: what was accepted is read back unchanged, in order. */
  lemma ReadInvertsText(lower: string -> string, tags: seq<string>)
    requires Canonical(lower, tags)
    ensures Read(lower, TagsText(tags)) == tags
  {
    SplitTagsOfText(tags);
    ShortKeeps(tags);
    DedupKeepsDistinct(lower, tags);
  }

  lemma ParseStoreRead(lower: string -> string, raw: Input, r: Parsed)
    requires IsParseOf(lower, raw, r) && r.Accepted?
    ensures Read(lower, TagsText(r.tags)) == r.tags
  {
    AcceptedIsCanonical(lower, raw, r);
    ReadInvertsText(lower, r.tags);
  }

  /** Dirty text is normalised by one pass: reading, storing and reading again
      changes nothing. */
  lemma ReadIsIdempotent(lower: string -> string, stored: string)
    ensures Read(lower, TagsText(Read(lower, stored))) == Read(lower, stored)
  {
    ReadIsCanonical(lower, stored);
    ReadInvertsText(lower, Read(lower, stored));
  }

  lemma {:induction false} StrsFit(tags: seq<string>)
    requires forall i :: 0 <= i < |tags| ==> WellFormed(tags[i])
    ensures Texts(Strs(tags)) == tags && |Strs(tags)| == |tags|
    ensures forall i :: 0 <= i < |Strs(tags)| ==> Fits(Strs(tags)[i])
  {
    if tags != [] {
      var n := |tags| - 1;
      var before, item := Strs(tags[..n]), Str(tags[n]);
      assert tags == tags[..n] + [tags[n]];
      StrsFit(tags[..n]);
      TextsStep(before, item);
      assert Strip(item.text) == tags[n] && Fits(item) by {
        assert WellFormed(tags[n]);
        StripEffect(tags[n]);
      }
      assert Strs(tags) == before + [item];
    }
  }

  /** Submitting the stored text of a canonical list is accepted as that list,
      and nothing else is. */
  lemma ParseInvertsText(lower: string -> string, tags: seq<string>, r: Parsed)
    requires Canonical(lower, tags) && IsParseOf(lower, Line(TagsText(tags)), r)
    ensures r == Accepted(tags)
  {
    var raw := Line(TagsText(tags));
    assert ItemsOf(raw) == Strs(tags) by {
      SplitTagsOfText(tags);
    }
    StrsFit(tags);
    DedupKeepsDistinct(lower, tags);
    ParseOfFitting(lower, raw, Strs(tags), tags, r);
  }

  lemma ParseOfFitting(lower: string -> string, raw: Input, items: seq<Item>, tags: seq<string>, r: Parsed)
    requires !raw.Unsupported? && ItemsOf(raw) == items && Dedup(lower, Texts(items)) == tags && |tags| <= MAX_TAGS
    requires forall i :: 0 <= i < |items| ==> Fits(items[i])
    requires IsParseOf(lower, raw, r)
    ensures r == Accepted(tags)
  {
  }

  // ---------------------------------------------------- results in positions

  ghost predicate HasInk(part: string) { !AllSpace(part) }

  lemma {:induction false} NonBlankSnoc(parts: seq<string>, part: string)
    ensures NonBlank(parts + [part]) == if Strip(part) == "" then NonBlank(parts) else NonBlank(parts) + [Strip(part)]
  {
    if parts == [] {
      assert parts + [part] == [part];
      assert NonBlank([]) == [];
    } else {
      assert (parts + [part])[1..] == parts[1..] + [part];
      NonBlankSnoc(parts[1..], part);
    }
  }

  lemma NonBlankNextPosition(parts: seq<string>, part: string, at: seq<nat>) returns (at': seq<nat>)
    requires IsSelection(parts, HasInk, Strip, at, NonBlank(parts))
    ensures IsSelection(parts + [part], HasInk, Strip, at', NonBlank(parts + [part]))
  {
    NonBlankSnoc(parts, part);
    StripOfBlank(part);
    SelectionSnoc(parts, HasInk, Strip, at, NonBlank(parts), part);
    at' := if HasInk(part) then at + [|parts|] else at;
  }

  lemma {:induction false} NonBlankInPositions(parts: seq<string>) returns (at: seq<nat>)
    ensures IsSelection(parts, HasInk, Strip, at, NonBlank(parts))
  {
    if parts == [] {
      at := [];
    } else {
      var n := |parts| - 1;
      at := NonBlankInPositions(parts[..n]);
      at := NonBlankNextPosition(parts[..n], parts[n], at);
      assert parts[..n] + [parts[n]] == parts;
    }
  }

  /** A line is cut at its separators and nowhere else; the pieces that are not
      blank are taken in order, without surrounding blanks. */
  lemma LineInPieces(raw: string) returns (parts: seq<string>, at: seq<nat>)
    ensures Join(parts, ',') == Translate(raw) && forall i :: 0 <= i < |parts| ==> ',' !in parts[i]
    ensures IsSelection(parts, HasInk, Strip, at, SplitTags(raw))
  {
    parts := Split(Translate(raw), ',');
    JoinOfSplit(Translate(raw), ',');
    SplitParts(Translate(raw), ',');
    at := NonBlankInPositions(parts);
  }

  /** The tag an item or a stored piece stands for, if any. */
  ghost function TagOf(item: Item): Option<string> {
    if item.Str? && !AllSpace(item.text) then Some(Strip(item.text)) else None
  }

  ghost function TagIn(piece: string): Option<string> {
    if |piece| <= 24 then Some(piece) else None
  }

  ghost function TagsOf(items: seq<Item>): seq<Option<string>> {
    seq(|items|, i requires 0 <= i < |items| => TagOf(items[i]))
  }

  ghost function TagsIn(pieces: seq<string>): seq<Option<string>> {
    seq(|pieces|, i requires 0 <= i < |pieces| => TagIn(pieces[i]))
  }

  ghost function Somes(tags: seq<Option<string>>): seq<string> {
    if tags == [] then []
    else
      var last := tags[|tags| - 1];
      Somes(tags[..|tags| - 1]) + if last.Some? then [last.value] else []
  }

  /** There is a tag at the position, and none before it folds to the same spelling. */
  ghost predicate FirstSpelling(lower: string -> string, tags: seq<Option<string>>, i: nat) {
    && i < |tags| && tags[i].Some?
    && forall j :: 0 <= j < i && tags[j].Some? ==> lower(tags[j].value) != lower(tags[i].value)
  }

  /** The list holds exactly the first spellings, in order. */
  ghost predicate AreFirsts(lower: string -> string, tags: seq<Option<string>>, at: seq<nat>, firsts: seq<string>) {
    && |at| == |firsts| && (forall k, l :: 0 <= k < l < |at| ==> at[k] < at[l])
    && (forall k :: 0 <= k < |at| ==> FirstSpelling(lower, tags, at[k]) && tags[at[k]] == Some(firsts[k]))
    && (forall i: nat :: FirstSpelling(lower, tags, i) ==> i in at)
  }

  lemma {:induction false} SomesFold(lower: string -> string, tags: seq<Option<string>>, x: string)
    ensures x in Folded(lower, Somes(tags)) <==> exists i :: 0 <= i < |tags| && tags[i].Some? && lower(tags[i].value) == x
  {
    if tags != [] {
      var n := |tags| - 1;
      SomesFold(lower, tags[..n], x);
      assert forall i :: 0 <= i < n ==> tags[..n][i] == tags[i];
      if tags[n].Some? {
        FoldedAppend(lower, Somes(tags[..n]), tags[n].value);
      } else {
        assert Somes(tags) == Somes(tags[..n]);
      }
    }
  }

  lemma EarlierSpelling(lower: string -> string, tags: seq<Option<string>>, tag: Option<string>, i: nat)
    requires i < |tags|
    ensures FirstSpelling(lower, tags + [tag], i) <==> FirstSpelling(lower, tags, i)
  {
    assert forall j :: 0 <= j <= i ==> (tags + [tag])[j] == tags[j];
  }

  lemma FirstsStay(lower: string -> string, tags: seq<Option<string>>, at: seq<nat>, firsts: seq<string>, tag: Option<string>)
    requires AreFirsts(lower, tags, at, firsts) && !FirstSpelling(lower, tags + [tag], |tags|)
    ensures AreFirsts(lower, tags + [tag], at, firsts)
  {
    forall k | 0 <= k < |at| ensures FirstSpelling(lower, tags + [tag], at[k]) && (tags + [tag])[at[k]] == Some(firsts[k]) {
      EarlierSpelling(lower, tags, tag, at[k]);
    }
    forall i: nat | FirstSpelling(lower, tags + [tag], i) ensures i in at {
      EarlierSpelling(lower, tags, tag, i);
    }
  }

  lemma FirstsGrow(lower: string -> string, tags: seq<Option<string>>, at: seq<nat>, firsts: seq<string>, tag: string)
    requires AreFirsts(lower, tags, at, firsts) && FirstSpelling(lower, tags + [Some(tag)], |tags|)
    ensures AreFirsts(lower, tags + [Some(tag)], at + [|tags|], firsts + [tag])
  {
    var all, at' := tags + [Some(tag)], at + [|tags|];
    assert at'[|at|] == |tags|;
    forall k | 0 <= k < |at| ensures FirstSpelling(lower, all, at[k]) && all[at[k]] == Some(firsts[k]) {
      EarlierSpelling(lower, tags, Some(tag), at[k]);
    }
    forall i: nat | FirstSpelling(lower, all, i) ensures i in at' {
      if i < |tags| {
        EarlierSpelling(lower, tags, Some(tag), i);
      }
    }
  }

  lemma FirstIffNew(lower: string -> string, before: seq<Option<string>>, tag: string)
    ensures FirstSpelling(lower, before + [Some(tag)], |before|) <==> lower(tag) !in Folded(lower, Dedup(lower, Somes(before)))
  {
    SomesFold(lower, before, lower(tag));
    DedupKeepsFirst(lower, Somes(before), tag);
    var all := before + [Some(tag)];
    assert forall j :: 0 <= j < |before| ==> all[j] == before[j];
  }

  lemma DedupSomesStep(lower: string -> string, before: seq<Option<string>>, last: Option<string>)
    ensures var d := Dedup(lower, Somes(before));
      Dedup(lower, Somes(before + [last])) ==
      if FirstSpelling(lower, before + [last], |before|) then d + [last.value] else d
  {
    assert (before + [last])[..|before|] == before;
    if last.Some? {
      FirstIffNew(lower, before, last.value);
      DedupStep(lower, Somes(before), last.value);
    } else {
      assert Somes(before + [last]) == Somes(before);
    }
  }

  lemma DedupNextPosition(lower: string -> string, before: seq<Option<string>>, last: Option<string>, at: seq<nat>) returns (at': seq<nat>)
    requires AreFirsts(lower, before, at, Dedup(lower, Somes(before)))
    ensures AreFirsts(lower, before + [last], at', Dedup(lower, Somes(before + [last])))
  {
    DedupSomesStep(lower, before, last);
    if FirstSpelling(lower, before + [last], |before|) {
      FirstsGrow(lower, before, at, Dedup(lower, Somes(before)), last.value);
      at' := at + [|before|];
    } else {
      FirstsStay(lower, before, at, Dedup(lower, Somes(before)), last);
      at' := at;
    }
  }

  lemma {:induction false} DedupInPositions(lower: string -> string, tags: seq<Option<string>>) returns (at: seq<nat>)
    ensures AreFirsts(lower, tags, at, Dedup(lower, Somes(tags)))
  {
    if tags == [] {
      at := [];
    } else {
      var n := |tags| - 1;
      at := DedupInPositions(lower, tags[..n]);
      at := DedupNextPosition(lower, tags[..n], tags[n], at);
      assert tags[..n] + [tags[n]] == tags;
    }
  }

  lemma {:induction false} TextsAreSomes(items: seq<Item>)
    ensures Texts(items) == Somes(TagsOf(items))
  {
    if items != [] {
      var n := |items| - 1;
      TextsAreSomes(items[..n]);
      assert TagsOf(items)[..n] == TagsOf(items[..n]);
      if items[n].Str? {
        StripOfBlank(items[n].text);
      }
    }
  }

  lemma {:induction false} ShortAreSomes(pieces: seq<string>)
    ensures Short(pieces) == Somes(TagsIn(pieces))
  {
    if pieces != [] {
      var n := |pieces| - 1;
      ShortAreSomes(pieces[..n]);
      assert TagsIn(pieces)[..n] == TagsIn(pieces[..n]);
    }
  }

  /** An accepted list: of the items that are not blank, exactly the first of each
      spelling, in order and without surrounding blanks. */
  lemma AcceptedInPositions(lower: string -> string, raw: Input, r: Parsed) returns (at: seq<nat>)
    requires IsParseOf(lower, raw, r) && r.Accepted?
    ensures AreFirsts(lower, TagsOf(ItemsOf(raw)), at, r.tags)
  {
    TextsAreSomes(ItemsOf(raw));
    at := DedupInPositions(lower, TagsOf(ItemsOf(raw)));
  }

  /** What is read: of the stored pieces that are not too long, exactly the first of
      each spelling, in order, of which the first sixteen. */
  lemma ReadInPositions(lower: string -> string, stored: string) returns (at: seq<nat>, firsts: seq<string>)
    ensures AreFirsts(lower, TagsIn(SplitTags(stored)), at, firsts)
    ensures Read(lower, stored) == firsts[..if |firsts| < 16 then |firsts| else 16]
  {
    ShortAreSomes(SplitTags(stored));
    at := DedupInPositions(lower, TagsIn(SplitTags(stored)));
    firsts := Dedup(lower, Somes(TagsIn(SplitTags(stored))));
  }
}
