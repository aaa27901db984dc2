/** Finishing merged entries: the public id and display name of each, and public
    ids that are unique across the catalogue (src/api/model_merge.py:267-347). */
module PublicIds {
  import opened ModelMerge
  import opened Sets

  predicate LexLe(a: string, b: string) {
    a == "" || (b != "" && (a[0] < b[0] || (a[0] == b[0] && LexLe(a[1..], b[1..]))))
  }

  /** The first provider in sorted order. */
  ghost predicate IsFirst(p: string, providers: set<string>) {
    p in providers && forall q :: q in providers ==> LexLe(p, q)
  }

  lemma {:induction false} LexTotal(a: string, b: string)
    ensures LexLe(a, b) || LexLe(b, a)
    ensures LexLe(a, b) && LexLe(b, a) ==> a == b
  {
    if a != "" && b != "" && a[0] == b[0] {
      LexTotal(a[1..], b[1..]);
      assert a == [a[0]] + a[1..] && b == [b[0]] + b[1..];
    }
  }

  lemma {:induction false} LexTransitive(a: string, b: string, c: string)
    requires LexLe(a, b) && LexLe(b, c)
    ensures LexLe(a, c)
  {
    if a != "" && a[0] == b[0] && b[0] == c[0] {
      LexTransitive(a[1..], b[1..], c[1..]);
    }
  }

  method FirstProvider(providers: set<string>) returns (first: string)
    requires providers != {}
    ensures IsFirst(first, providers)
  {
    first :| first in providers;
    var rest := providers - {first};
    LexTotal(first, first);
    while rest != {}
      invariant rest <= providers && first in providers
      invariant forall q :: q in providers - rest ==> LexLe(first, q)
      decreases rest
    {
      var p :| p in rest;
      LexTotal(first, p);
      if !LexLe(first, p) {
        forall q | q in providers - rest ensures LexLe(p, q) {
          LexTransitive(p, first, q);
        }
        LexTotal(p, p);
        first := p;
      }
      rest := rest - {p};
    }
  }

  /** Shorter names first; entries with several providers break ties by the
      lower-cased text, the others leave them to the order of a set. */
  predicate Precedes(naming: Naming, ties: bool, a: string, b: string) {
    |a| < |b| || (|a| == |b| && (!ties || LexLe(naming.lower(a), naming.lower(b))))
  }

  ghost predicate IsRepresentative(naming: Naming, ties: bool, name: string, labels: set<string>) {
    name in labels && forall s :: s in labels ==> Precedes(naming, ties, name, s)
  }

  method Representative(naming: Naming, ties: bool, labels: set<string>) returns (name: string)
    requires labels != {}
    ensures IsRepresentative(naming, ties, name, labels)
  {
    name :| name in labels;
    var rest := labels - {name};
    LexTotal(naming.lower(name), naming.lower(name));
    while rest != {}
      invariant rest <= labels && name in labels
      invariant forall s :: s in labels - rest ==> Precedes(naming, ties, name, s)
      decreases rest
    {
      var s :| s in rest;
      LexTotal(naming.lower(s), naming.lower(name));
      if !Precedes(naming, ties, name, s) {
        forall q | q in labels - rest ensures Precedes(naming, ties, s, q) {
          if ties && |s| == |name| == |q| {
            LexTransitive(naming.lower(s), naming.lower(name), naming.lower(q));
          }
        }
        LexTotal(naming.lower(s), naming.lower(s));
        name := s;
      }
      rest := rest - {s};
    }
  }

  /** A finished entry: its name is a shortest display name; its id is the
      normalised name, except for scoped or nameless single-provider entries,
      which take the normalised raw id. */
  ghost predicate IsFinal(naming: Naming, e: Entry, final: Entry) {
    exists name, p :: IsFinalBy(naming, e, final, name, p)
  }

  ghost predicate IsFinalBy(naming: Naming, e: Entry, final: Entry, name: string, p: string) {
    && (if e.labels == {} then name == "" else IsRepresentative(naming, |e.providers| > 1, name, e.labels))
    && IsFirst(p, e.providers) && p in e.rawIds
    && final == e.(id := naming.normalize(if UsesRawId(e, name) then e.rawIds[p] else name),
                   meta := e.meta["name" := TextValue(name)])
  }

  predicate UsesRawId(e: Entry, name: string) {
    !(|e.providers| > 1 && e.labels != {}) && (e.scoped || name == "")
  }

  method Finalize(naming: Naming, e: Entry) returns (final: Entry)
    requires e.WellFormed()
    ensures IsFinal(naming, e, final)
  {
    var p := FirstProvider(e.providers);
    var name := "";
    if e.labels != {} {
      name := Representative(naming, |e.providers| > 1, e.labels);
    }
    final := e.(meta := e.meta["name" := TextValue(name)]);
    if |e.providers| > 1 && e.labels != {} {
      final := final.(id := naming.normalize(name));
    } else if e.scoped || name == "" {
      final := final.(id := naming.normalize(e.rawIds[p]));
    } else {
      final := final.(id := naming.normalize(name));
    }
    assert IsFinalBy(naming, e, final, name, p);
  }

  /** Every model under the key goes by its name. */
  ghost predicate AllByName(naming: Naming, log: seq<Placement>, key: string) {
    forall i :: 0 <= i < |log| && log[i].key == key ==>
      NameKey(naming, log[i].model) == key && Shown(naming, log[i].model) != ""
  }

  lemma MergedLabels(naming: Naming, log: seq<Placement>, key: string)
    requires key in MergeAll(naming, log)
    ensures forall shown :: shown in MergeAll(naming, log)[key].labels <==> shown != "" && ShownBy(naming, log, key, shown)
  {
    forall shown ensures shown in MergeAll(naming, log)[key].labels <==> shown != "" && ShownBy(naming, log, key, shown) {
      LabelsAreShown(naming, log, key, shown);
    }
  }

  lemma NameIsRepresentative(naming: Naming, e: Entry, final: Entry)
    requires IsFinal(naming, e, final)
    ensures final.providers == e.providers
    ensures if e.labels == {} then final.DisplayName() == ""
            else IsRepresentative(naming, |e.providers| > 1, final.DisplayName(), e.labels)
  {
    var name, p :| IsFinalBy(naming, e, final, name, p);
    assert final.DisplayName() == name;
  }

  /** The name of a finished entry is a shortest one among those of its models, and with
      several providers the first of the shortest ones, ignoring case. */
  lemma ShownUnder(naming: Naming, log: seq<Placement>, key: string, final: Entry, shown: string)
    requires key in MergeAll(naming, log) && IsFinal(naming, MergeAll(naming, log)[key], final)
    ensures final.DisplayName() != "" ==> ShownBy(naming, log, key, final.DisplayName())
    ensures ShownBy(naming, log, key, shown) && shown != "" ==>
      && 0 < |final.DisplayName()| <= |shown|
      && (|shown| == |final.DisplayName()| && |final.providers| > 1 ==>
            LexLe(naming.lower(final.DisplayName()), naming.lower(shown)))
  {
    LabelsAreShown(naming, log, key, shown);
    LabelsAreShown(naming, log, key, final.DisplayName());
    NameIsRepresentative(naming, MergeAll(naming, log)[key], final);
  }

  /** An entry none of whose models has a name is published under the raw id of its
      first provider, normalised. */
  lemma NamelessTakesRawId(naming: Naming, log: seq<Placement>, key: string, final: Entry)
    requires key in MergeAll(naming, log) && IsFinal(naming, MergeAll(naming, log)[key], final)
    requires forall shown :: ShownBy(naming, log, key, shown) ==> shown == ""
    ensures final.DisplayName() == ""
    ensures exists p :: IsFirst(p, final.providers) && p in final.rawIds && final.id == naming.normalize(final.rawIds[p])
  {
    MergedLabels(naming, log, key);
    assert MergeAll(naming, log)[key].labels == {};
    var name, p :| IsFinalBy(naming, MergeAll(naming, log)[key], final, name, p);
    assert final.DisplayName() == "" && IsFirst(p, final.providers);
  }

  lemma SomeName(naming: Naming, log: seq<Placement>, key: string) returns (shown: string)
    requires key in MergeAll(naming, log) && AllByName(naming, log, key)
    ensures ShownBy(naming, log, key, shown) && shown != ""
  {
    MergeAllIsMerge(naming, log);
    assert Placed(log, key);
    var i :| 0 <= i < |log| && log[i].key == key;
    shown := Shown(naming, log[i].model);
  }

  lemma NamedTakesItsName(naming: Naming, e: Entry, final: Entry)
    requires IsFinal(naming, e, final) && !e.scoped && final.DisplayName() != ""
    ensures final.id == naming.normalize(final.DisplayName())
  {
    var name, p :| IsFinalBy(naming, e, final, name, p);
    assert final.DisplayName() == name;
  }

  lemma UnscopedKey(naming: Naming, log: seq<Placement>, key: string)
    requires key in MergeAll(naming, log) && '\0' !in key
    ensures !MergeAll(naming, log)[key].scoped
  {
    MergeAllIsMerge(naming, log);
    assert IsEntryOf(MergeAll(naming, log)[key], log, key);
  }

  /** An entry whose models all go by their name is published under the key they were
      merged by. */
  lemma NamedIsPublishedUnderKey(naming: Naming, log: seq<Placement>, key: string, final: Entry)
    requires key in MergeAll(naming, log) && IsFinal(naming, MergeAll(naming, log)[key], final)
    requires AllByName(naming, log, key) && '\0' !in key
    ensures final.id == key
  {
    var shown := SomeName(naming, log, key);
    ShownUnder(naming, log, key, final, shown);
    UnscopedKey(naming, log, key);
    NamedTakesItsName(naming, MergeAll(naming, log)[key], final);
    var i :| 0 <= i < |log| && log[i].key == key && Shown(naming, log[i].model) == final.DisplayName();
  }

  /** An entry that was kept apart is published under the raw id of its only
      provider, normalised. */
  lemma IsolatedIsPublishedUnderRawId(naming: Naming, log: seq<Placement>, key: string, final: Entry)
    requires key in MergeAll(naming, log) && IsFinal(naming, MergeAll(naming, log)[key], final)
    requires Scoping(naming, log) && '\0' in key
    ensures exists p :: final.providers == {p} && p in final.rawIds && final.id == naming.normalize(final.rawIds[p])
  {
    var e := MergeAll(naming, log)[key];
    MergeAllIsMerge(naming, log);
    assert IsEntryOf(e, log, key);
    ScopedEntriesAreSingle(naming, log, key);
    var name, p :| IsFinalBy(naming, e, final, name, p);
    assert final.providers == {p};
  }

  // ----------------------------------------------------------- distinct ids

  function Suffixed(base: string, n: nat): string { base + "-" + Decimal(n) }

  function TakenBy(naming: Naming, entries: seq<Entry>): set<string> {
    set i | 0 <= i < |entries| :: naming.lower(entries[i].id)
  }

  /** How an id is chosen when `taken` is in use: the first free one of the
      finished id, the normalised raw id of the first provider and that with the
      provider's name; failing these, the least free number behind the id. */
  ghost predicate IsChoice(naming: Naming, e: Entry, taken: set<string>, id: string) {
    exists p :: IsFirst(p, e.providers) && p in e.rawIds && IsChoiceBy(naming, e.id, naming.normalize(e.rawIds[p]), p, taken, id)
  }

  predicate Free(naming: Naming, candidate: string, taken: set<string>) {
    candidate != "" && naming.lower(candidate) !in taken
  }

  ghost predicate IsChoiceBy(naming: Naming, base: string, raw: string, p: string, taken: set<string>, id: string) {
    if Free(naming, base, taken) then id == base
    else if Free(naming, raw, taken) then id == raw
    else if Free(naming, raw + "-" + p, taken) then id == raw + "-" + p
    else exists n :: 2 <= n && id == Suffixed(base, n) && naming.lower(id) !in taken
                     && forall m :: 2 <= m < n ==> naming.lower(Suffixed(base, m)) in taken
  }

  lemma ChoiceIsFree(naming: Naming, e: Entry, taken: set<string>, id: string)
    requires IsChoice(naming, e, taken, id)
    ensures naming.lower(id) !in taken
  {
  }

  lemma SuffixesDiffer(naming: Naming, base: string, m: nat, n: nat)
    requires naming.Lawful() && m != n
    ensures naming.lower(Suffixed(base, m)) != naming.lower(Suffixed(base, n))
  {
    var a, b := naming.lower(base) + "-" + Decimal(m), naming.lower(base) + "-" + Decimal(n);
    assert naming.lower(base + "-" + Decimal(m)) == a && naming.lower(base + "-" + Decimal(n)) == b;
    if a == b {
      assert a[|naming.lower(base)| + 1..] == Decimal(m) && b[|naming.lower(base)| + 1..] == Decimal(n);
      DecimalInjective(m, n);
    }
  }

  /** Counting up from 2 ends within |taken| + 1 tries: the numbers tried so far
      are as many distinct members of `taken`. */
  method UniqueSuffix(naming: Naming, base: string, taken: set<string>) returns (id: string)
    requires naming.Lawful()
    ensures naming.lower(id) !in taken
    ensures exists n :: 2 <= n <= |taken| + 2 && id == Suffixed(base, n)
              && forall m :: 2 <= m < n ==> naming.lower(Suffixed(base, m)) in taken
  {
    var index := 2;
    ghost var tried: set<string> := {};
    while naming.lower(Suffixed(base, index)) in taken
      invariant 2 <= index && tried <= taken && |tried| == index - 2
      invariant forall s :: s in tried <==> exists m :: 2 <= m < index && s == naming.lower(Suffixed(base, m))
      decreases |taken| - |tried|
    {
      var next := naming.lower(Suffixed(base, index));
      forall m | 2 <= m < index ensures naming.lower(Suffixed(base, m)) != next {
        SuffixesDiffer(naming, base, m, index);
      }
      tried := tried + {next};
      index := index + 1;
      SubsetIsSmaller(tried, taken);
    }
    SubsetIsSmaller(tried, taken);
    forall m | 2 <= m < index ensures naming.lower(Suffixed(base, m)) in taken {
      assert naming.lower(Suffixed(base, m)) in tried;
    }
    id := Suffixed(base, index);
  }

  method Choose(naming: Naming, e: Entry, taken: set<string>) returns (id: string)
    requires naming.Lawful() && e.WellFormed()
    ensures IsChoice(naming, e, taken, id)
  {
    var p := FirstProvider(e.providers);
    var raw := naming.normalize(e.rawIds[p]);
    var candidates := [e.id, raw, raw + "-" + p];
    for i := 0 to 3
      invariant forall j :: 0 <= j < i ==> !Free(naming, candidates[j], taken)
    {
      assert (i > 0 ==> !Free(naming, candidates[0], taken)) && (i > 1 ==> !Free(naming, candidates[1], taken));
      if Free(naming, candidates[i], taken) {
        id := candidates[i];
        assert IsChoiceBy(naming, e.id, raw, p, taken, id);
        return;
      }
    }
    assert !Free(naming, candidates[0], taken) && !Free(naming, candidates[1], taken) && !Free(naming, candidates[2], taken);
    id := UniqueSuffix(naming, e.id, taken);
    assert IsChoiceBy(naming, e.id, raw, p, taken, id);
  }

  ghost predicate ChosenAt(naming: Naming, before: seq<Entry>, after: seq<Entry>, i: nat)
    requires i < |before| && i < |after|
  {
    IsChoice(naming, before[i], TakenBy(naming, after[..i]), after[i].id) && after[i] == before[i].(id := after[i].id)
  }

  /** Every entry got the id its predecessors left for it, and kept the rest. */
  ghost predicate IsDisambiguation(naming: Naming, before: seq<Entry>, after: seq<Entry>) {
    |after| == |before| && forall i: nat :: i < |before| ==> ChosenAt(naming, before, after, i)
  }

  lemma ChosenLater(naming: Naming, before: seq<Entry>, after: seq<Entry>, e: Entry, f: Entry, i: nat)
    requires i < |before| && i < |after| && ChosenAt(naming, before, after, i)
    ensures ChosenAt(naming, before + [e], after + [f], i)
  {
    assert (after + [f])[..i] == after[..i];
  }

  lemma DisambiguateNext(naming: Naming, before: seq<Entry>, after: seq<Entry>, e: Entry, id: string)
    requires IsDisambiguation(naming, before, after) && IsChoice(naming, e, TakenBy(naming, after), id)
    ensures IsDisambiguation(naming, before + [e], after + [e.(id := id)])
  {
    var all := after + [e.(id := id)];
    forall i: nat | i < |before + [e]| ensures ChosenAt(naming, before + [e], all, i) {
      if i < |before| {
        ChosenLater(naming, before, after, e, e.(id := id), i);
      } else {
        assert all[..i] == after;
      }
    }
  }

  method Disambiguate(naming: Naming, entries: seq<Entry>) returns (result: seq<Entry>)
    requires naming.Lawful() && forall i :: 0 <= i < |entries| ==> entries[i].WellFormed()
    ensures IsDisambiguation(naming, entries, result)
  {
    result := [];
    var taken: set<string> := {};
    for i := 0 to |entries|
      invariant IsDisambiguation(naming, entries[..i], result) && taken == TakenBy(naming, result)
    {
      var id := Choose(naming, entries[i], taken);
      DisambiguateNext(naming, entries[..i], result, entries[i], id);
      assert entries[..i + 1] == entries[..i] + [entries[i]];
      TakenAppend(naming, result, entries[i].(id := id));
      result := result + [entries[i].(id := id)];
      taken := taken + {naming.lower(id)};
    }
    assert entries[..|entries|] == entries;
  }

  lemma TakenAppend(naming: Naming, entries: seq<Entry>, e: Entry)
    ensures TakenBy(naming, entries + [e]) == TakenBy(naming, entries) + {naming.lower(e.id)}
  {
    var all := entries + [e];
    forall x | x in TakenBy(naming, entries) + {naming.lower(e.id)} ensures x in TakenBy(naming, all) {
      if x == naming.lower(e.id) {
        assert all[|entries|] == e;
      } else {
        var i :| 0 <= i < |entries| && x == naming.lower(entries[i].id);
        assert all[i] == entries[i];
      }
    }
  }

  ghost predicate DistinctIds(naming: Naming, entries: seq<Entry>) {
    forall i, j :: 0 <= i < j < |entries| ==> naming.lower(entries[i].id) != naming.lower(entries[j].id)
  }

  /** After disambiguation all public ids differ, ignoring case. */
  lemma DisambiguatedIdsAreDistinct(naming: Naming, before: seq<Entry>, after: seq<Entry>)
    requires IsDisambiguation(naming, before, after)
    ensures DistinctIds(naming, after)
  {
    forall i, j | 0 <= i < j < |after| ensures naming.lower(after[i].id) != naming.lower(after[j].id) {
      assert ChosenAt(naming, before, after, j);
      ChoiceIsFree(naming, before[j], TakenBy(naming, after[..j]), after[j].id);
      assert after[..j][i] == after[i];
      assert naming.lower(after[i].id) in TakenBy(naming, after[..j]);
    }
  }

  /** An entry keeps its finished id exactly when that id is non-empty and no
      earlier entry ended up with it. */
  lemma UnusedIdIsKept(naming: Naming, before: seq<Entry>, after: seq<Entry>, i: nat)
    requires IsDisambiguation(naming, before, after) && i < |before|
    ensures after[i].id != ""
    ensures after[i].id == before[i].id <==>
      before[i].id != "" && forall j :: 0 <= j < i ==> naming.lower(after[j].id) != naming.lower(before[i].id)
  {
    assert ChosenAt(naming, before, after, i);
    var base, taken := before[i].id, TakenBy(naming, after[..i]);
    ChoiceIsFree(naming, before[i], taken, after[i].id);
    assert naming.lower(base) in taken <==> exists j :: 0 <= j < i && naming.lower(after[j].id) == naming.lower(base) by {
      forall j | 0 <= j < i ensures naming.lower(after[j].id) in taken {
        assert after[..i][j] == after[j];
      }
    }
    ChoiceIsNonEmpty(naming, before[i], taken, after[i].id);
  }

  lemma ChoiceIsNonEmpty(naming: Naming, e: Entry, taken: set<string>, id: string)
    requires IsChoice(naming, e, taken, id)
    ensures id != ""
    ensures Free(naming, e.id, taken) ==> id == e.id
  {
  }
}
