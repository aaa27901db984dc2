/** The string operations the program relies on: stripping, joining and
    splitting at a separator. */
module Text {

  /** The characters Python's `str.strip` removes. */
  predicate IsSpace(c: char) {
    || '\t' <= c <= '\r'
    || '\U{1C}' <= c <= ' '
    || c in {'\U{85}', '\U{A0}', '\U{1680}', '\U{2028}', '\U{2029}', '\U{202F}', '\U{205F}', '\U{3000}'}
    || '\U{2000}' <= c <= '\U{200A}'
  }

  function StripLeft(s: string): string {
    if s != [] && IsSpace(s[0]) then StripLeft(s[1..]) else s
  }

  function StripRight(s: string): string {
    if s != [] && IsSpace(s[|s| - 1]) then StripRight(s[..|s| - 1]) else s
  }

  function Strip(s: string): string { StripRight(StripLeft(s)) }

  predicate Stripped(s: string) {
    s != [] ==> !IsSpace(s[0]) && !IsSpace(s[|s| - 1])
  }

  lemma {:induction false} StripLeftEffect(s: string)
    ensures var r := StripLeft(s); (r != [] ==> !IsSpace(r[0])) && |r| <= |s| && r == s[|s| - |r|..]
  {
    if s != [] && IsSpace(s[0]) {
      StripLeftEffect(s[1..]);
    }
  }

  lemma {:induction false} StripRightEffect(s: string)
    ensures var r := StripRight(s); (r != [] ==> !IsSpace(r[|r| - 1])) && r <= s
  {
    if s != [] && IsSpace(s[|s| - 1]) {
      StripRightEffect(s[..|s| - 1]);
    }
  }

  /** Stripping gives a stripped piece of the text and keeps stripped texts. */
  lemma StripEffect(s: string)
    ensures Stripped(Strip(s))
    ensures forall c :: c in Strip(s) ==> c in s
    ensures Stripped(s) ==> Strip(s) == s
  {
    StripLeftEffect(s);
    StripRightEffect(StripLeft(s));
  }

  function Join(items: seq<string>, sep: char): string {
    if items == [] then ""
    else if |items| == 1 then items[0]
    else items[0] + [sep] + Join(items[1..], sep)
  }

  /** The text before the first separator. */
  function Head(s: string, sep: char): (h: string)
    ensures |h| <= |s| && sep !in h && h == s[..|h|] && (|h| < |s| ==> s[|h|] == sep)
  {
    if s == [] || s[0] == sep then "" else [s[0]] + Head(s[1..], sep)
  }

  /** Splitting at every separator: always at least one, possibly empty, part. */
  function Split(s: string, sep: char): (parts: seq<string>)
    ensures parts != []
    decreases |s|
  {
    var h := Head(s, sep);
    if |h| == |s| then [h] else [h] + Split(s[|h| + 1..], sep)
  }

  lemma {:induction false} HeadStops(a: string, rest: string, sep: char)
    requires sep !in a && (rest == [] || rest[0] == sep)
    ensures Head(a + rest, sep) == a
  {
    if a == [] {
      assert a + rest == rest;
    } else {
      assert (a + rest)[1..] == a[1..] + rest;
      HeadStops(a[1..], rest, sep);
    }
  }

  /** Splitting undoes joining when no item contains the separator. */
  lemma {:induction false} SplitOfJoin(items: seq<string>, sep: char)
    requires items != [] && forall i :: 0 <= i < |items| ==> sep !in items[i]
    ensures Split(Join(items, sep), sep) == items
  {
    if |items| == 1 {
      HeadStops(items[0], [], sep);
      assert items[0] + [] == items[0];
    } else {
      var rest := Join(items[1..], sep);
      HeadStops(items[0], [sep] + rest, sep);
      assert items[0] + [sep] + rest == items[0] + ([sep] + rest);
      assert (items[0] + ([sep] + rest))[|items[0]| + 1..] == rest;
      SplitOfJoin(items[1..], sep);
      assert items == [items[0]] + items[1..];
    }
  }

  lemma {:induction false} SplitParts(s: string, sep: char)
    ensures forall i :: 0 <= i < |Split(s, sep)| ==>
              sep !in Split(s, sep)[i] && forall c :: c in Split(s, sep)[i] ==> c in s
    decreases |s|
  {
    var h := Head(s, sep);
    if |h| < |s| {
      SplitParts(s[|h| + 1..], sep);
    }
  }

  ghost predicate AllSpace(s: string) { forall i :: 0 <= i < |s| ==> IsSpace(s[i]) }

  lemma {:induction false} StripLeftTrims(s: string) returns (lead: string)
    ensures s == lead + StripLeft(s) && AllSpace(lead)
  {
    lead := "";
    if s != [] && IsSpace(s[0]) {
      lead := StripLeftTrims(s[1..]);
      assert s == [s[0]] + s[1..];
      lead := [s[0]] + lead;
    }
  }

  lemma {:induction false} StripRightTrims(s: string) returns (trail: string)
    ensures s == StripRight(s) + trail && AllSpace(trail)
  {
    trail := "";
    if s != [] && IsSpace(s[|s| - 1]) {
      trail := StripRightTrims(s[..|s| - 1]);
      assert s == s[..|s| - 1] + [s[|s| - 1]];
      trail := trail + [s[|s| - 1]];
    }
  }

  /** Stripping removes blanks from both ends, all of them and nothing else. */
  lemma StripTrims(s: string) returns (lead: string, trail: string)
    ensures s == lead + Strip(s) + trail && AllSpace(lead) && AllSpace(trail) && Stripped(Strip(s))
  {
    lead := StripLeftTrims(s);
    trail := StripRightTrims(StripLeft(s));
    StripEffect(s);
  }

  /** Nothing is left exactly of a blank text. */
  lemma StripOfBlank(s: string)
    ensures Strip(s) == "" <==> AllSpace(s)
  {
    var lead, trail := StripTrims(s);
    if Strip(s) != "" {
      assert s[|lead|] == Strip(s)[0];
    }
  }

  /** Joining undoes splitting; with SplitParts this determines the parts. */
  lemma {:induction false} JoinOfSplit(s: string, sep: char)
    ensures Join(Split(s, sep), sep) == s
    decreases |s|
  {
    var h := Head(s, sep);
    if |h| < |s| {
      var rest := s[|h| + 1..];
      JoinOfSplit(rest, sep);
      assert Split(s, sep) == [h] + Split(rest, sep);
      assert ([h] + Split(rest, sep))[1..] == Split(rest, sep);
      assert s == h + [sep] + rest;
    }
  }
}
