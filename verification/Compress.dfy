/** Context trimming: a weighted token estimate, atomic tool-call groups, the
    longest suffix that fits, and last-resort truncation of single messages
    (src/engine/compress.py). */
module Compress {
  import opened Options
  import opened Selections

  /** A character: its code point and whether Python counts it as a digit. */
  datatype Glyph = Glyph(code: nat, digit: bool)

  type Text = seq<Glyph>

  datatype Part = Raw(raw: Text) | TextPart(text: Text) | Image(url: Text) | OtherPart

  datatype Content = Missing | Plain(text: Text) | Parts(parts: seq<Part>) | OtherContent(repr: Text)

  datatype ToolCall = Call(name: Text, arguments: Text) | Malformed

  datatype Role = System | User | Assistant | Tool | OtherRole(name: string)

  datatype Message = Message(role: Role, content: Content, reasoning: Option<Text>, toolCalls: seq<ToolCall>, toolCallId: Option<Text>)
  {
    predicate Calls() { role == Assistant && toolCalls != [] }
  }

  const HEAD := 4000
  const TAIL := 4000

  /** Newline, ellipsis, bracket, seven ideographs, bracket, ellipsis, newline. */
  const MARKER: Text :=
    [Glyph(0x0A, false), Glyph(0x2026, false), Glyph(0x5B, false),
     Glyph(0x5185, false), Glyph(0x5BB9, false), Glyph(0x8FC7, false), Glyph(0x957F, false),
     Glyph(0x5DF2, false), Glyph(0x622A, false), Glyph(0x65AD, false),
     Glyph(0x5D, false), Glyph(0x2026, false), Glyph(0x0A, false)]

  // ----------------------------------------------------------------- weights

  predicate IsCjk(code: nat) {
    0x4E00 <= code <= 0x9FFF || 0x3000 <= code <= 0x303F || 0xFF00 <= code <= 0xFFEF
  }

  function Weight(g: Glyph): real {
    if IsCjk(g.code) then 0.55 else if g.digit then 0.33 else 0.25
  }

  function Tokens(text: Text): real {
    if text == [] then 0.0 else Tokens(text[..|text| - 1]) + Weight(text[|text| - 1])
  }

  method EstimateTokens(text: Text) returns (total: real)
    ensures total == Tokens(text)
  {
    total := 0.0;
    for i := 0 to |text|
      invariant total == Tokens(text[..i])
    {
      assert text[..i + 1][..i] == text[..i];
      if IsCjk(text[i].code) {
        total := total + 0.55;
      } else if text[i].digit {
        total := total + 0.33;
      } else {
        total := total + 0.25;
      }
    }
    assert text[..|text|] == text;
  }

  ghost predicate InCjkRange(g: Glyph) {
    0x3000 <= g.code < 0x3040 || 0x4E00 <= g.code < 0xA000 || 0xFF00 <= g.code < 0xFFF0
  }

  ghost predicate OtherDigit(g: Glyph) { g.digit && !InCjkRange(g) }

  ghost function Positions(text: Text, kind: Glyph -> bool): set<int> {
    set i | 0 <= i < |text| && kind(text[i])
  }

  lemma PositionsSnoc(text: Text, g: Glyph, kind: Glyph -> bool)
    ensures |Positions(text + [g], kind)| == |Positions(text, kind)| + if kind(g) then 1 else 0
  {
    var all := text + [g];
    if kind(g) {
      assert Positions(all, kind) == Positions(text, kind) + {|text|};
    } else {
      assert Positions(all, kind) == Positions(text, kind);
    }
  }

  /** The weights in numbers: 0.55 for a CJK character, 0.33 for another digit, 0.25 for
      any other character. */
  lemma {:induction false} TokensByKind(text: Text)
    ensures var cjk, digits := |Positions(text, InCjkRange)|, |Positions(text, OtherDigit)|;
      Tokens(text) == 0.55 * cjk as real + 0.33 * digits as real + 0.25 * (|text| - cjk - digits) as real
  {
    if text != [] {
      var n := |text| - 1;
      TokensByKind(text[..n]);
      PositionsSnoc(text[..n], text[n], InCjkRange);
      PositionsSnoc(text[..n], text[n], OtherDigit);
      assert text[..n] + [text[n]] == text;
    }
  }

  lemma {:induction false} TokensConcat(a: Text, b: Text)
    ensures Tokens(a + b) == Tokens(a) + Tokens(b)
  {
    if b == [] {
      assert a + b == a;
    } else {
      TokensConcat(a, b[..|b| - 1]);
      assert (a + b)[..|a + b| - 1] == a + b[..|b| - 1];
    }
  }

  /** A text costs at least a quarter token per character. */
  lemma {:induction false} TokensAtLeast(text: Text)
    ensures 0.25 * |text| as real <= Tokens(text)
  {
    if text != [] {
      TokensAtLeast(text[..|text| - 1]);
    }
  }

  lemma MarkerCost()
    ensures |MARKER| == 13 && Tokens(MARKER) == 5.35
  {
    var a, b, c := MARKER[..3], MARKER[3..10], MARKER[10..];
    assert MARKER == a + b + c;
    TokensConcat(a + b, c);
    TokensConcat(a, b);
    UniformCost(a, 0.25);
    UniformCost(b, 0.55);
    UniformCost(c, 0.25);
  }

  lemma {:induction false} UniformCost(text: Text, w: real)
    requires forall i :: 0 <= i < |text| ==> Weight(text[i]) == w
    ensures Tokens(text) == w * |text| as real
  {
    if text != [] {
      UniformCost(text[..|text| - 1], w);
    }
  }

  function PartText(part: Part): Text {
    match part
    case Raw(s) => s
    case TextPart(s) => s
    case Image(url) => url
    case OtherPart => []
  }

  function PartsText(parts: seq<Part>): Text {
    if parts == [] then [] else PartsText(parts[..|parts| - 1]) + PartText(parts[|parts| - 1])
  }

  function ContentText(content: Content): Text {
    match content
    case Missing => []
    case Plain(text) => text
    case Parts(parts) => PartsText(parts)
    case OtherContent(repr) => repr
  }

  /** Images count by length, without looking at the characters. */
  function PartTokens(part: Part): real {
    match part
    case Raw(s) => Tokens(s)
    case TextPart(s) => Tokens(s)
    case Image(url) => 0.25 * |url| as real
    case OtherPart => 0.0
  }

  function PartsTokens(parts: seq<Part>): real {
    if parts == [] then 0.0 else PartsTokens(parts[..|parts| - 1]) + PartTokens(parts[|parts| - 1])
  }

  function ContentTokens(content: Content): real {
    match content
    case Missing => 0.0
    case Plain(text) => Tokens(text)
    case Parts(parts) => PartsTokens(parts)
    case OtherContent(repr) => Tokens(repr)
  }

  function CallsTokens(calls: seq<ToolCall>): real {
    if calls == [] then 0.0
    else
      CallsTokens(calls[..|calls| - 1]) +
      match calls[|calls| - 1]
      case Call(name, arguments) => Tokens(name) + Tokens(arguments)
      case Malformed => 0.0
  }

  function Optional(text: Option<Text>): real { if text.Some? then Tokens(text.value) else 0.0 }

  function MessageTokens(m: Message): real {
    ContentTokens(m.content) + Optional(m.reasoning) + CallsTokens(m.toolCalls) + Optional(m.toolCallId)
  }

  function Estimate(messages: seq<Message>): real {
    if messages == [] then 0.0 else Estimate(messages[..|messages| - 1]) + MessageTokens(messages[|messages| - 1])
  }

  lemma {:induction false} EstimateConcat(a: seq<Message>, b: seq<Message>)
    ensures Estimate(a + b) == Estimate(a) + Estimate(b)
  {
    if b == [] {
      assert a + b == a;
    } else {
      EstimateConcat(a, b[..|b| - 1]);
      assert (a + b)[..|a + b| - 1] == a + b[..|b| - 1];
    }
  }

  lemma {:induction false} PartsTokensNonNegative(parts: seq<Part>)
    ensures 0.0 <= PartsTokens(parts)
  {
    if parts != [] {
      PartsTokensNonNegative(parts[..|parts| - 1]);
      TokensAtLeast(PartText(parts[|parts| - 1]));
    }
  }

  lemma {:induction false} CallsTokensNonNegative(calls: seq<ToolCall>)
    ensures 0.0 <= CallsTokens(calls)
  {
    if calls != [] {
      CallsTokensNonNegative(calls[..|calls| - 1]);
      match calls[|calls| - 1]
      case Call(name, arguments) =>
        TokensAtLeast(name);
        TokensAtLeast(arguments);
      case Malformed =>
    }
  }

  lemma MessageTokensNonNegative(m: Message)
    ensures 0.0 <= MessageTokens(m)
  {
    TokensAtLeast(ContentText(m.content));
    if m.content.Parts? {
      PartsTokensNonNegative(m.content.parts);
    }
    if m.reasoning.Some? {
      TokensAtLeast(m.reasoning.value);
    }
    if m.toolCallId.Some? {
      TokensAtLeast(m.toolCallId.value);
    }
    CallsTokensNonNegative(m.toolCalls);
  }

  lemma {:induction false} EstimateNonNegative(messages: seq<Message>)
    ensures 0.0 <= Estimate(messages)
  {
    if messages != [] {
      EstimateNonNegative(messages[..|messages| - 1]);
      MessageTokensNonNegative(messages[|messages| - 1]);
    }
  }

  // ------------------------------------------------- what the estimate counts

  /** The texts of a message's parts, of its calls, of the whole message. */
  function PartsCharacters(parts: seq<Part>): Text {
    if parts == [] then []
    else
      PartsCharacters(parts[..|parts| - 1]) +
      match parts[|parts| - 1]
      case Raw(text) => text
      case TextPart(text) => text
      case _ => []
  }

  function CallsCharacters(calls: seq<ToolCall>): Text {
    if calls == [] then []
    else
      CallsCharacters(calls[..|calls| - 1]) +
      match calls[|calls| - 1]
      case Call(name, arguments) => name + arguments
      case Malformed => []
  }

  function OptionalCharacters(text: Option<Text>): Text { if text.Some? then text.value else [] }

  function Characters(m: Message): Text {
    (match m.content
     case Missing => []
     case Plain(text) => text
     case Parts(parts) => PartsCharacters(parts)
     case OtherContent(repr) => repr)
    + OptionalCharacters(m.reasoning) + CallsCharacters(m.toolCalls) + OptionalCharacters(m.toolCallId)
  }

  /** Characters of image addresses, which weigh a quarter token each. */
  function ImageLength(parts: seq<Part>): nat {
    if parts == [] then 0
    else
      var last := parts[|parts| - 1];
      ImageLength(parts[..|parts| - 1]) + if last.Image? then |last.url| else 0
  }

  function Images(m: Message): nat { if m.content.Parts? then ImageLength(m.content.parts) else 0 }

  lemma {:induction false} PartsWeigh(parts: seq<Part>)
    ensures PartsTokens(parts) == Tokens(PartsCharacters(parts)) + 0.25 * ImageLength(parts) as real
  {
    if parts != [] {
      var before, last := parts[..|parts| - 1], parts[|parts| - 1];
      PartsWeigh(before);
      TokensConcat(PartsCharacters(before), if last.Raw? then last.raw else if last.TextPart? then last.text else []);
    }
  }

  lemma {:induction false} CallsWeigh(calls: seq<ToolCall>)
    ensures CallsTokens(calls) == Tokens(CallsCharacters(calls))
  {
    if calls != [] {
      var before, last := calls[..|calls| - 1], calls[|calls| - 1];
      CallsWeigh(before);
      var text := if last.Call? then last.name + last.arguments else [];
      if last.Call? {
        TokensConcat(last.name, last.arguments);
      }
      TokensConcat(CallsCharacters(before), text);
    }
  }

  lemma ContentWeighs(content: Content, text: Text)
    requires text == match content
                     case Missing => []
                     case Plain(t) => t
                     case Parts(parts) => PartsCharacters(parts)
                     case OtherContent(repr) => repr
    ensures ContentTokens(content) == Tokens(text) + 0.25 * (if content.Parts? then ImageLength(content.parts) else 0) as real
  {
    if content.Parts? {
      PartsWeigh(content.parts);
    }
  }

  /** The estimate of a message is the weight of all its texts taken together, and
      a quarter token for each character of an image address. */
  lemma MessageWeighs(m: Message)
    ensures MessageTokens(m) == Tokens(Characters(m)) + 0.25 * Images(m) as real
  {
    var content := match m.content
                   case Missing => []
                   case Plain(t) => t
                   case Parts(parts) => PartsCharacters(parts)
                   case OtherContent(repr) => repr;
    var reasoning, calls, id := OptionalCharacters(m.reasoning), CallsCharacters(m.toolCalls), OptionalCharacters(m.toolCallId);
    ContentWeighs(m.content, content);
    CallsWeigh(m.toolCalls);
    TokensConcat(content, reasoning);
    TokensConcat(content + reasoning, calls);
    TokensConcat(content + reasoning + calls, id);
  }

  /** So is the estimate of a conversation: every text of every message counts once. */
  function AllCharacters(messages: seq<Message>): Text {
    if messages == [] then [] else AllCharacters(messages[..|messages| - 1]) + Characters(messages[|messages| - 1])
  }

  function AllImages(messages: seq<Message>): nat {
    if messages == [] then 0 else AllImages(messages[..|messages| - 1]) + Images(messages[|messages| - 1])
  }

  lemma {:induction false} EstimateWeighsAllText(messages: seq<Message>)
    ensures Estimate(messages) == Tokens(AllCharacters(messages)) + 0.25 * AllImages(messages) as real
  {
    if messages != [] {
      var before, last := messages[..|messages| - 1], messages[|messages| - 1];
      EstimateWeighsAllText(before);
      MessageWeighs(last);
      TokensConcat(AllCharacters(before), Characters(last));
    }
  }

  // -------------------------------------------------------------- truncation

  predicate HasNonText(content: Content) {
    content.Parts? && exists i :: 0 <= i < |content.parts| && !content.parts[i].TextPart?
  }

  function Shortened(text: Text): Text
    requires HEAD + TAIL < |text|
  {
    text[..HEAD] + MARKER + text[|text| - TAIL..]
  }

  /** None when the content is left as the very same object. */
  function TruncateContent(content: Content): Option<Content> {
    if HasNonText(content) || |ContentText(content)| <= HEAD + TAIL then None
    else Some(Plain(Shortened(ContentText(content))))
  }

  function Truncated(m: Message): Message {
    match TruncateContent(m.content)
    case None => m
    case Some(content) => m.(content := content)
  }

  /** Truncation trades the middle of a text for the marker. */
  lemma ShortenedCost(text: Text)
    requires HEAD + TAIL < |text|
    ensures |Shortened(text)| == 8013 && Shortened(text)[..4000] == text[..4000]
    ensures Shortened(text)[4000..4013] == MARKER && Shortened(text)[4013..] == text[|text| - 4000..]
    ensures Tokens(Shortened(text)) == Tokens(text) - Tokens(text[HEAD..|text| - TAIL]) + 5.35
  {
    var head, middle, tail := text[..HEAD], text[HEAD..|text| - TAIL], text[|text| - TAIL..];
    MarkerCost();
    assert text == head + middle + tail;
    TokensConcat(head + middle, tail);
    TokensConcat(head, middle);
    TokensConcat(head + MARKER, tail);
    TokensConcat(head, MARKER);
  }

  /** So it never raises the estimate exactly when the middle weighs at least as
      much as the marker, which 22 characters of any kind do. */
  lemma TruncationShrinksIff(text: Text)
    requires HEAD + TAIL < |text|
    ensures Tokens(Shortened(text)) <= Tokens(text) <==> 5.35 <= Tokens(text[HEAD..|text| - TAIL])
    ensures HEAD + TAIL + 22 <= |text| ==> Tokens(Shortened(text)) < Tokens(text) && |Shortened(text)| < |text|
  {
    ShortenedCost(text);
    TokensAtLeast(text[HEAD..|text| - TAIL]);
  }

  /** The lengths at which truncation is safe for every text are exactly those of
      at least 8022 characters: below that, a text of letters gets more expensive. */
  lemma SafeLengths(n: nat)
    requires 8000 < n
    ensures (forall text: Text :: |text| == n ==> Tokens(Shortened(text)) <= Tokens(text)) <==> 8022 <= n
  {
    if HEAD + TAIL + 22 <= n {
      forall text: Text | |text| == n ensures Tokens(Shortened(text)) <= Tokens(text) {
        TruncationShrinksIff(text);
      }
    } else {
      var letters: Text := seq(n, i => Glyph(0x61, false));
      TruncationShrinksIff(letters);
      UniformCost(letters[HEAD..n - TAIL], 0.25);
      assert Tokens(Shortened(letters)) > Tokens(letters);
    }
  }

  lemma {:induction false} TextPartsCost(parts: seq<Part>)
    requires forall i :: 0 <= i < |parts| ==> parts[i].TextPart?
    ensures PartsTokens(parts) == Tokens(PartsText(parts))
  {
    if parts != [] {
      TextPartsCost(parts[..|parts| - 1]);
      TokensConcat(PartsText(parts[..|parts| - 1]), PartText(parts[|parts| - 1]));
    }
  }

  /** What truncating a message does to its cost: only text-only content longer
      than 8000 characters changes, and from 8022 on the cost goes down. */
  lemma TruncatedCost(m: Message)
    ensures TruncateContent(m.content).Some? <==> !HasNonText(m.content) && 8000 < |ContentText(m.content)|
    ensures TruncateContent(m.content).Some? ==>
      MessageTokens(Truncated(m)) ==
      MessageTokens(m) - Tokens(ContentText(m.content)) + Tokens(Shortened(ContentText(m.content)))
    ensures 8022 <= |ContentText(m.content)| ==> MessageTokens(Truncated(m)) <= MessageTokens(m)
    ensures !HasNonText(m.content) ==> |ContentText(Truncated(m).content)| <= 8013
  {
    if m.content.Parts? && !HasNonText(m.content) {
      TextPartsCost(m.content.parts);
    }
    if TruncateContent(m.content).Some? {
      ShortenedCost(ContentText(m.content));
      if HEAD + TAIL + 22 <= |ContentText(m.content)| {
        TruncationShrinksIff(ContentText(m.content));
      }
    }
  }

  function Length(messages: seq<Message>, i: int): int {
    if 0 <= i < |messages| then |ContentText(messages[i].content)| else 0
  }

  /** Stable insertion into a list in order of descending length. */
  function Insert(messages: seq<Message>, order: seq<nat>, i: nat): seq<nat> {
    if order != [] && Length(messages, order[|order| - 1]) < Length(messages, i)
    then Insert(messages, order[..|order| - 1], i) + [order[|order| - 1]]
    else order + [i]
  }

  /** The non-system positions below n, longest content first, ties in order. */
  function CandidatesBelow(messages: seq<Message>, n: nat): seq<nat>
    requires n <= |messages|
  {
    if n == 0 then []
    else
      var before := CandidatesBelow(messages, n - 1);
      if messages[n - 1].role == System then before else Insert(messages, before, n - 1)
  }

  function Candidates(messages: seq<Message>): seq<nat> { CandidatesBelow(messages, |messages|) }

  /** x comes before y in the list of candidates. */
  predicate Precedes(messages: seq<Message>, x: nat, y: nat) {
    Length(messages, y) < Length(messages, x) || (Length(messages, y) == Length(messages, x) && x < y)
  }

  ghost predicate InOrder(messages: seq<Message>, order: seq<nat>) {
    forall a, b :: 0 <= a < b < |order| ==> Precedes(messages, order[a], order[b])
  }

  lemma OrderSnoc(messages: seq<Message>, order: seq<nat>, last: nat)
    requires InOrder(messages, order) && forall x :: x in order ==> Precedes(messages, x, last)
    ensures InOrder(messages, order + [last])
  {
  }

  lemma {:induction false} InsertMembers(messages: seq<Message>, order: seq<nat>, i: nat, k: nat)
    ensures k in Insert(messages, order, i) <==> k in order || k == i
  {
    if order != [] && Length(messages, order[|order| - 1]) < Length(messages, i) {
      InsertMembers(messages, order[..|order| - 1], i, k);
      assert order == order[..|order| - 1] + [order[|order| - 1]];
    }
  }

  lemma {:induction false} InsertKeepsOrder(messages: seq<Message>, order: seq<nat>, i: nat)
    requires InOrder(messages, order) && forall x :: x in order ==> x < i
    ensures InOrder(messages, Insert(messages, order, i))
  {
    if order == [] {
    } else {
      var before, last := order[..|order| - 1], order[|order| - 1];
      assert order == before + [last];
      if Length(messages, last) < Length(messages, i) {
        forall x | x in before ensures x < i {
          assert x in order;
        }
        InsertKeepsOrder(messages, before, i);
        forall x | x in Insert(messages, before, i) ensures Precedes(messages, x, last) {
          InsertMembers(messages, before, i, x);
        }
        OrderSnoc(messages, Insert(messages, before, i), last);
      } else {
        forall x | x in order ensures Precedes(messages, x, i) {
          assert x == last || Precedes(messages, x, last);
        }
        OrderSnoc(messages, order, i);
      }
    }
  }

  lemma {:induction false} CandidatesMembers(messages: seq<Message>, n: nat, k: nat)
    requires n <= |messages|
    ensures k in CandidatesBelow(messages, n) <==> k < n && messages[k].role != System
  {
    if n > 0 {
      CandidatesNext(messages, n, k);
      CandidatesMembers(messages, n - 1, k);
    }
  }

  lemma CandidatesNext(messages: seq<Message>, n: nat, k: nat)
    requires 0 < n <= |messages|
    ensures k in CandidatesBelow(messages, n) <==>
      k in CandidatesBelow(messages, n - 1) || (k == n - 1 && messages[k].role != System)
  {
    InsertMembers(messages, CandidatesBelow(messages, n - 1), n - 1, k);
  }

  lemma {:induction false} CandidatesOrdered(messages: seq<Message>, n: nat)
    requires n <= |messages|
    ensures InOrder(messages, CandidatesBelow(messages, n))
  {
    if n > 0 {
      var before := CandidatesBelow(messages, n - 1);
      CandidatesOrdered(messages, n - 1);
      forall k | k in before ensures k < n - 1 {
        CandidatesMembers(messages, n - 1, k);
      }
      InsertKeepsOrder(messages, before, n - 1);
    }
  }

  /** The candidates are exactly the non-system positions, longest first, ties in order. */
  lemma CandidatesEffect(messages: seq<Message>)
    ensures InOrder(messages, Candidates(messages))
    ensures forall k: nat :: k in Candidates(messages) <==> k < |messages| && messages[k].role != System
    ensures var order := Candidates(messages);
      forall a, b :: 0 <= a < b < |order| && order[a] < |messages| && order[b] < |messages| ==>
        var x, y := |ContentText(messages[order[a]].content)|, |ContentText(messages[order[b]].content)|;
        y < x || (y == x && order[a] < order[b])
  {
    CandidatesOrdered(messages, |messages|);
    forall k | k in Candidates(messages) ensures k < |messages| && messages[k].role != System {
      CandidatesMembers(messages, |messages|, k);
    }
    forall k | 0 <= k < |messages| && messages[k].role != System ensures k in Candidates(messages) {
      CandidatesMembers(messages, |messages|, k);
    }
  }

  function Visit(messages: seq<Message>, i: nat): (r: seq<Message>)
    ensures |r| == |messages|
  {
    if i < |messages| then messages[i := Truncated(messages[i])] else messages
  }

  /** The plain form of the last resort: re-estimate the whole list, stop when it
      fits, else truncate the next candidate. */
  function TruncateAll(messages: seq<Message>, order: seq<nat>, budget: real): (r: seq<Message>)
    ensures |r| == |messages|
    decreases |order|
  {
    if order == [] || Estimate(messages) <= budget then messages
    else TruncateAll(Visit(messages, order[0]), order[1..], budget)
  }

  lemma EstimateUpdate(messages: seq<Message>, i: nat, m: Message)
    requires i < |messages|
    ensures Estimate(messages[i := m]) == Estimate(messages) - MessageTokens(messages[i]) + MessageTokens(m)
  {
    var a, b := messages[..i], messages[i + 1..];
    assert messages == a + [messages[i]] + b && messages[i := m] == a + [m] + b;
    EstimateConcat(a + [messages[i]], b);
    EstimateConcat(a + [m], b);
    assert (a + [messages[i]])[..i] == a && (a + [m])[..i] == a;
  }

  /** The fast form keeps the total up to date instead of recomputing it, and
      computes what the plain form computes. */
  method TruncateToBudget(messages: seq<Message>, budget: real) returns (result: seq<Message>)
    ensures result == TruncateAll(messages, Candidates(messages), budget)
  {
    result := messages;
    var candidates := Candidates(messages);
    var total := Estimate(result);
    for k := 0 to |candidates|
      invariant |result| == |messages| && total == Estimate(result)
      invariant TruncateAll(result, candidates[k..], budget) == TruncateAll(messages, candidates, budget)
    {
      if total <= budget {
        return;
      }
      CandidatesEffect(messages);
      var index := candidates[k];
      assert index in candidates;
      assert candidates[k..][1..] == candidates[k + 1..];
      var before := MessageTokens(result[index]);
      var truncated := TruncateContent(result[index].content);
      if truncated.None? {
        assert Visit(result, index) == result;
        continue;
      }
      var shorter := result[index].(content := truncated.value);
      EstimateUpdate(result, index, shorter);
      result := result[index := shorter];
      total := total - (before - MessageTokens(shorter));
    }
  }

  ghost predicate Distinct(order: seq<nat>) {
    forall a, b :: 0 <= a < b < |order| ==> order[a] != order[b]
  }

  /** Each position is either untouched or truncated once, and only candidates
      are; unless the budget is met, all of them are. */
  lemma {:induction false} TruncateAllEffect(messages: seq<Message>, order: seq<nat>, budget: real)
    requires Distinct(order)
    ensures var r := TruncateAll(messages, order, budget);
      && (forall i :: 0 <= i < |messages| ==> r[i] == messages[i] || (i in order && r[i] == Truncated(messages[i])))
      && (Estimate(r) <= budget || forall i :: 0 <= i < |messages| && i in order ==> r[i] == Truncated(messages[i]))
    decreases |order|
  {
    if order != [] && Estimate(messages) > budget {
      assert order == [order[0]] + order[1..];
      assert order[0] !in order[1..];
      TruncateAllEffect(Visit(messages, order[0]), order[1..], budget);
    }
  }

  /** The list with the first j candidates truncated. */
  function FirstTruncated(messages: seq<Message>, order: seq<nat>, j: nat): seq<Message>
    requires j <= |order|
  {
    seq(|messages|, i requires 0 <= i < |messages| => if i in order[..j] then Truncated(messages[i]) else messages[i])
  }

  lemma VisitFirst(messages: seq<Message>, order: seq<nat>, j: nat)
    requires Distinct(order) && 0 < j <= |order|
    ensures FirstTruncated(Visit(messages, order[0]), order[1..], j - 1) == FirstTruncated(messages, order, j)
  {
    var visited := Visit(messages, order[0]);
    forall i | 0 <= i < |messages|
      ensures FirstTruncated(visited, order[1..], j - 1)[i] == FirstTruncated(messages, order, j)[i]
    {
      assert order[..j] == [order[0]] + order[1..][..j - 1];
      assert order[0] !in order[1..][..j - 1];
    }
  }

  /** Truncation stops as soon as the budget is met: the result has exactly the first
      j candidates truncated, where no smaller number would have been enough. */
  lemma {:induction false} TruncatesNoMore(messages: seq<Message>, order: seq<nat>, budget: real) returns (j: nat)
    requires Distinct(order)
    ensures j <= |order| && TruncateAll(messages, order, budget) == FirstTruncated(messages, order, j)
    ensures j < |order| ==> Estimate(TruncateAll(messages, order, budget)) <= budget
    ensures forall i: nat :: i < j ==> Estimate(FirstTruncated(messages, order, i)) > budget
    decreases |order|
  {
    assert FirstTruncated(messages, order, 0) == messages;
    if order == [] || Estimate(messages) <= budget {
      j := 0;
    } else {
      assert Distinct(order[1..]);
      j := TruncatesNoMore(Visit(messages, order[0]), order[1..], budget);
      forall i: nat | i < j + 1 ensures Estimate(FirstTruncated(messages, order, i)) > budget {
        if i > 0 {
          VisitFirst(messages, order, i);
        }
      }
      j := j + 1;
      VisitFirst(messages, order, j);
    }
  }

  lemma CandidatesAreDistinct(messages: seq<Message>)
    ensures Distinct(Candidates(messages))
  {
    CandidatesEffect(messages);
    var order := Candidates(messages);
    forall a, b | 0 <= a < b < |order| ensures order[a] != order[b] {
      assert Precedes(messages, order[a], order[b]);
    }
  }

  /** The exit condition of the last resort, for the candidates it uses: system
      messages stay, and either the budget is met or every other message has been
      truncated, so that all text-only content is at most 8013 characters. */
  lemma LastResort(messages: seq<Message>, budget: real)
    ensures var r := TruncateAll(messages, Candidates(messages), budget);
      && (forall i :: 0 <= i < |messages| ==>
            r[i] == messages[i] || (messages[i].role != System && r[i] == Truncated(messages[i])))
      && (Estimate(r) <= budget ||
          forall i :: 0 <= i < |messages| && messages[i].role != System ==>
            r[i] == Truncated(messages[i]) &&
            (!HasNonText(messages[i].content) ==> |ContentText(r[i].content)| <= HEAD + TAIL + 13))
  {
    CandidatesEffect(messages);
    TruncateAllEffect(messages, Candidates(messages), budget);
    forall i | 0 <= i < |messages| && !HasNonText(messages[i].content)
      ensures |ContentText(Truncated(messages[i]).content)| <= HEAD + TAIL + 13
    {
      TruncatedCost(messages[i]);
    }
  }

  // ------------------------------------------------------------ atomic groups

  function LeadingTools(messages: seq<Message>): (n: nat)
    ensures n <= |messages|
  {
    if messages != [] && messages[0].role == Tool then 1 + LeadingTools(messages[1..]) else 0
  }

  /** Size of the group that the first message starts. */
  function GroupSize(messages: seq<Message>): (n: nat)
    requires messages != []
    ensures 1 <= n <= |messages|
  {
    1 + if messages[0].Calls() then LeadingTools(messages[1..]) else 0
  }

  function Groups(messages: seq<Message>): seq<seq<Message>>
    decreases |messages|
  {
    if messages == [] then []
    else
      var n := GroupSize(messages);
      [messages[..n]] + Groups(messages[n..])
  }

  function Flatten(groups: seq<seq<Message>>): seq<Message> {
    if groups == [] then [] else groups[0] + Flatten(groups[1..])
  }

  /** The group that starts at `index`, and the position after it. */
  method GroupAt(messages: seq<Message>, index: nat) returns (group: seq<Message>, following: nat)
    requires index < |messages|
    ensures following == index + GroupSize(messages[index..])
    ensures group == messages[index..following]
  {
    group, following := [messages[index]], index + 1;
    if messages[index].Calls() {
      assert messages[index..][1..] == messages[following..];
      while following < |messages| && messages[following].role == Tool
        invariant index < following <= |messages| && group == messages[index..following]
        invariant LeadingTools(messages[index + 1..]) == following - index - 1 + LeadingTools(messages[following..])
      {
        assert messages[following..][1..] == messages[following + 1..];
        group := group + [messages[following]];
        following := following + 1;
      }
    }
  }

  lemma GroupsFrom(messages: seq<Message>, index: nat, following: nat)
    requires index < |messages| && following == index + GroupSize(messages[index..])
    ensures Groups(messages[index..]) == [messages[index..following]] + Groups(messages[following..])
  {
    assert messages[index..][..following - index] == messages[index..following];
    assert messages[index..][following - index..] == messages[following..];
  }

  method GroupAtomic(messages: seq<Message>) returns (groups: seq<seq<Message>>)
    ensures groups == Groups(messages)
  {
    groups := [];
    var index := 0;
    while index < |messages|
      invariant 0 <= index <= |messages|
      invariant Groups(messages) == groups + Groups(messages[index..])
    {
      var group, following := GroupAt(messages, index);
      GroupsFrom(messages, index, following);
      assert groups + ([group] + Groups(messages[following..])) == (groups + [group]) + Groups(messages[following..]);
      groups := groups + [group];
      index := following;
    }
  }

  /** Grouping loses and reorders nothing. */
  lemma {:induction false} FlattenGroups(messages: seq<Message>)
    ensures Flatten(Groups(messages)) == messages
    decreases |messages|
  {
    if messages != [] {
      var first, rest := messages[..GroupSize(messages)], messages[GroupSize(messages)..];
      assert messages == first + rest;
      FlattenGroups(rest);
      assert ([first] + Groups(rest))[1..] == Groups(rest);
    }
  }

  lemma {:induction false} GroupsAreNonEmpty(messages: seq<Message>, g: seq<Message>)
    requires g in Groups(messages)
    ensures g != []
    decreases |messages|
  {
    var first, rest := messages[..GroupSize(messages)], messages[GroupSize(messages)..];
    if g != first {
      GroupsAreNonEmpty(rest, g);
    }
  }

  /** Position in the body at which group p begins. */
  function Offset(groups: seq<seq<Message>>, p: nat): nat
    requires p <= |groups|
  {
    if p == 0 then 0 else Offset(groups, p - 1) + |groups[p - 1]|
  }

  lemma {:induction false} FlattenFrom(groups: seq<seq<Message>>, p: nat)
    requires p <= |groups|
    ensures Offset(groups, p) <= |Flatten(groups)|
    ensures Flatten(groups[p..]) == Flatten(groups)[Offset(groups, p)..]
  {
    if p > 0 {
      FlattenFrom(groups, p - 1);
      assert groups[p - 1..] == [groups[p - 1]] + groups[p..];
    }
  }

  // -------------------------------------------------------------------- trim

  function SystemOf(messages: seq<Message>): seq<Message> {
    if messages == [] then []
    else
      var m := messages[|messages| - 1];
      SystemOf(messages[..|messages| - 1]) + if m.role == System then [m] else []
  }

  function BodyOf(messages: seq<Message>): seq<Message> {
    if messages == [] then []
    else
      var m := messages[|messages| - 1];
      BodyOf(messages[..|messages| - 1]) + if m.role == System then [] else [m]
  }

  /** Group p may stay: what is kept after it is still below the minimum, or the
      system messages and everything from it on fit the budget. */
  predicate Fits(system: seq<Message>, groups: seq<seq<Message>>, budget: real, minKeep: int, p: nat)
    requires p < |groups|
  {
    |Flatten(groups[p + 1..])| < minKeep || Estimate(system) + Estimate(Flatten(groups[p..])) <= budget
  }

  /** Group p is the first one kept: exactly the groups from p on may stay. */
  ghost predicate IsCut(system: seq<Message>, groups: seq<seq<Message>>, budget: real, minKeep: int, p: nat) {
    && p <= |groups|
    && forall i: nat :: i < |groups| ==> (Fits(system, groups, budget, minKeep, i) <==> p <= i)
  }

  /** Trimming, stated on the whole: the system messages and the body from a
      group boundary on, handed to the last resort. */
  ghost predicate IsTrim(messages: seq<Message>, budget: real, minKeep: int, result: seq<Message>, start: nat) {
    var system, body := SystemOf(messages), BodyOf(messages);
    var groups := Groups(body);
    && start <= |body|
    && (exists p :: IsCut(system, groups, budget, minKeep, p) && start == Offset(groups, p))
    && result == TruncateAll(system + body[start..], Candidates(system + body[start..]), budget)
  }

  lemma TailShrinks(groups: seq<seq<Message>>, i: nat, j: nat)
    requires i <= j <= |groups|
    ensures |Flatten(groups[j..])| <= |Flatten(groups[i..])|
    ensures Estimate(Flatten(groups[j..])) <= Estimate(Flatten(groups[i..]))
    decreases j - i
  {
    if i < j {
      TailShrinks(groups, i + 1, j);
      assert groups[i..] == [groups[i]] + groups[i + 1..];
      EstimateConcat(groups[i], Flatten(groups[i + 1..]));
      EstimateNonNegative(groups[i]);
    }
  }

  /** Later groups fit whenever earlier ones do, so the kept groups are a suffix. */
  lemma FitsIsUpward(system: seq<Message>, groups: seq<seq<Message>>, budget: real, minKeep: int, i: nat, j: nat)
    requires i <= j < |groups| && Fits(system, groups, budget, minKeep, i)
    ensures Fits(system, groups, budget, minKeep, j)
  {
    TailShrinks(groups, i, j);
    TailShrinks(groups, i + 1, j + 1);
  }

  method Separate(messages: seq<Message>) returns (system: seq<Message>, body: seq<Message>)
    ensures system == SystemOf(messages) && body == BodyOf(messages)
  {
    system, body := [], [];
    for i := 0 to |messages|
      invariant system == SystemOf(messages[..i]) && body == BodyOf(messages[..i])
    {
      assert messages[..i + 1][..i] == messages[..i];
      if messages[i].role == System {
        system := system + [messages[i]];
      } else {
        body := body + [messages[i]];
      }
    }
    assert messages[..|messages|] == messages;
  }

  method StartsOf(groups: seq<seq<Message>>) returns (starts: seq<nat>)
    ensures |starts| == |groups| && forall i :: 0 <= i < |groups| ==> starts[i] == Offset(groups, i)
  {
    starts := [];
    var cursor := 0;
    for i := 0 to |groups|
      invariant cursor == Offset(groups, i)
      invariant |starts| == i && forall j :: 0 <= j < i ==> starts[j] == Offset(groups, j)
    {
      starts := starts + [cursor];
      cursor := cursor + |groups[i]|;
    }
  }

  /** Adding one older group to what is kept. */
  lemma OneMoreGroup(system: seq<Message>, groups: seq<seq<Message>>, budget: real, minKeep: int, p: nat)
    requires p < |groups|
    ensures Flatten(groups[p..]) == groups[p] + Flatten(groups[p + 1..])
    ensures Estimate(Flatten(groups[p..])) == Estimate(groups[p]) + Estimate(Flatten(groups[p + 1..]))
    ensures Fits(system, groups, budget, minKeep, p) <==>
      |Flatten(groups[p + 1..])| < minKeep ||
      Estimate(system) + Estimate(Flatten(groups[p + 1..])) + Estimate(groups[p]) <= budget
  {
    assert groups[p..] == [groups[p]] + groups[p + 1..];
    EstimateConcat(groups[p], Flatten(groups[p + 1..]));
  }

  ghost predicate FitFrom(system: seq<Message>, groups: seq<seq<Message>>, budget: real, minKeep: int, p: nat) {
    forall i :: p <= i < |groups| ==> Fits(system, groups, budget, minKeep, i)
  }

  lemma OneMoreFits(system: seq<Message>, groups: seq<seq<Message>>, budget: real, minKeep: int, p: nat)
    requires p < |groups| && FitFrom(system, groups, budget, minKeep, p + 1) && Fits(system, groups, budget, minKeep, p)
    ensures FitFrom(system, groups, budget, minKeep, p)
  {
  }

  /** The loop from the newest group back: the first group kept and where it
      begins in the body. */
  method ChooseStart(system: seq<Message>, groups: seq<seq<Message>>, budget: real, minKeep: int)
    returns (start: nat, kept: seq<Message>, position: nat)
    ensures IsCut(system, groups, budget, minKeep, position)
    ensures start == Offset(groups, position) && kept == Flatten(groups[position..])
  {
    var starts := StartsOf(groups);
    var running := Estimate(system);
    kept, position, start := [], |groups|, 0;
    for i := 0 to |groups|
      invariant start == Offset(groups, i)
    {
      start := start + |groups[i]|;
    }
    assert groups[|groups|..] == [];
    while position > 0
      invariant 0 <= position <= |groups|
      invariant kept == Flatten(groups[position..]) && running == Estimate(system) + Estimate(kept)
      invariant start == Offset(groups, position)
      invariant FitFrom(system, groups, budget, minKeep, position)
    {
      var group := groups[position - 1];
      var cost := Estimate(group);
      OneMoreGroup(system, groups, budget, minKeep, position - 1);
      if |kept| >= minKeep && running + cost > budget {
        break;
      }
      kept := group + kept;
      running := running + cost;
      position := position - 1;
      OneMoreFits(system, groups, budget, minKeep, position);
      start := starts[position];
    }
    CutFound(system, groups, budget, minKeep, position);
  }

  lemma CutFound(system: seq<Message>, groups: seq<seq<Message>>, budget: real, minKeep: int, p: nat)
    requires p <= |groups|
    requires FitFrom(system, groups, budget, minKeep, p)
    requires p > 0 ==> !Fits(system, groups, budget, minKeep, p - 1)
    ensures IsCut(system, groups, budget, minKeep, p)
  {
    forall i: nat | i < p ensures !Fits(system, groups, budget, minKeep, i) {
      if Fits(system, groups, budget, minKeep, i) {
        FitsIsUpward(system, groups, budget, minKeep, i, p - 1);
      }
    }
  }

  method TrimToBudget(messages: seq<Message>, budget: real, minKeep: int) returns (result: seq<Message>, start: nat)
    ensures IsTrim(messages, budget, minKeep, result, start)
  {
    var system, body := Separate(messages);
    var groups := GroupAtomic(body);
    var kept, position;
    start, kept, position := ChooseStart(system, groups, budget, minKeep);
    FlattenGroups(body);
    FlattenFrom(groups, position);
    result := TruncateToBudget(system + kept, budget);
  }

  method CompressMessages(messages: seq<Message>, maxInput: int, reserve: int, minKeep: int, safety: real)
    returns (result: seq<Message>, ghost start: nat)
    ensures
      var budget := maxInput as real * safety - reserve as real;
      if maxInput <= 0 || budget <= 0.0 || Estimate(messages) <= budget then result == messages
      else IsTrim(messages, budget, minKeep, result, start)
  {
    start := 0;
    if maxInput <= 0 {
      return messages, 0;
    }
    var budget := maxInput as real * safety - reserve as real;
    if budget <= 0.0 || Estimate(messages) <= budget {
      return messages, 0;
    }
    var cut;
    result, cut := TrimToBudget(messages, budget, minKeep);
    start := cut;
  }

  // ----------------------------------------------------------- main theorems

  /** Before truncation: the kept part fits the budget, or it is minimal in that
      dropping its oldest group would leave fewer than the minimum; and it is
      maximal in that the next older group would exceed the budget although the
      minimum is already kept. */
  lemma CutIsTight(system: seq<Message>, groups: seq<seq<Message>>, budget: real, minKeep: int, p: nat)
    requires IsCut(system, groups, budget, minKeep, p)
    ensures p < |groups| ==>
      Estimate(system) + Estimate(Flatten(groups[p..])) <= budget || |Flatten(groups[p + 1..])| < minKeep
    ensures p > 0 ==>
      |Flatten(groups[p..])| >= minKeep && Estimate(system) + Estimate(Flatten(groups[p - 1..])) > budget
  {
    if p < |groups| {
      assert Fits(system, groups, budget, minKeep, p);
    }
    if p > 0 {
      assert !Fits(system, groups, budget, minKeep, p - 1);
    }
  }

  /** There is only one place to cut. */
  lemma CutIsUnique(system: seq<Message>, groups: seq<seq<Message>>, budget: real, minKeep: int, p: nat, q: nat)
    requires IsCut(system, groups, budget, minKeep, p) && IsCut(system, groups, budget, minKeep, q)
    ensures p == q
  {
    if p < |groups| {
      assert Fits(system, groups, budget, minKeep, p);
    }
    if q < |groups| {
      assert Fits(system, groups, budget, minKeep, q);
    }
  }

  /** The tool message at i belongs to a run headed by an assistant with calls. */
  ghost predicate Headed(messages: seq<Message>, i: int) {
    exists h :: HeadsRun(messages, h, i)
  }

  predicate HeadsRun(messages: seq<Message>, h: int, i: int) {
    0 <= h < i < |messages| && messages[h].role == Assistant && messages[h].toolCalls != [] && forall k :: h < k <= i ==> messages[k].role == Tool
  }

  /** Every tool result comes with the call it answers. */
  ghost predicate ToolsAreHeaded(messages: seq<Message>) {
    forall i :: 0 <= i < |messages| && messages[i].role == Tool ==> Headed(messages, i)
  }

  lemma {:induction false} LeadingToolsReach(messages: seq<Message>, n: nat)
    requires n <= |messages| && forall k :: 0 <= k < n ==> messages[k].role == Tool
    ensures n <= LeadingTools(messages)
  {
    if n > 0 {
      LeadingToolsReach(messages[1..], n - 1);
    }
  }

  lemma {:induction false} LeadingToolsAreTools(messages: seq<Message>, k: nat)
    requires k < LeadingTools(messages)
    ensures messages[k].role == Tool
  {
    if k > 0 {
      LeadingToolsAreTools(messages[1..], k - 1);
    }
  }

  lemma RunInSuffix(messages: seq<Message>, start: nat, h: int, i: int)
    requires HeadsRun(messages, h, i) && start <= h
    ensures HeadsRun(messages[start..], h - start, i - start)
  {
    var rest := messages[start..];
    assert rest[h - start] == messages[h];
    forall k | h - start < k <= i - start ensures rest[k].role == Tool {
      assert rest[k] == messages[start + k];
    }
  }

  lemma HeadOutsideFirstGroup(messages: seq<Message>, h: nat, i: nat)
    requires HeadsRun(messages, h, i) && h > 0
    ensures GroupSize(messages) <= h
  {
    if h < GroupSize(messages) {
      LeadingToolsAreTools(messages[1..], h - 1);
    }
  }

  /** No group boundary falls inside a headed run. */
  lemma {:induction false} BoundaryKeepsRuns(messages: seq<Message>, p: nat, h: nat, i: nat)
    requires p <= |Groups(messages)| && HeadsRun(messages, h, i)
    ensures !(h < Offset(Groups(messages), p) <= i)
    decreases p
  {
    if p > 0 {
      var n := GroupSize(messages);
      var rest := messages[n..];
      OffsetShift(Groups(messages), p);
      assert Groups(messages)[1..] == Groups(rest);
      if h == 0 {
        LeadingToolsReach(messages[1..], i);
      } else {
        HeadOutsideFirstGroup(messages, h, i);
        RunInSuffix(messages, n, h, i);
        BoundaryKeepsRuns(rest, p - 1, h - n, i - n);
      }
    }
  }

  /** Position i starts a group. */
  ghost predicate StartsGroup(messages: seq<Message>, i: nat) {
    exists p: nat :: p <= |Groups(messages)| && Offset(Groups(messages), p) == i
  }

  lemma {:induction false} OutsideRunsStart(messages: seq<Message>, i: nat) returns (p: nat)
    requires i <= |messages| && !Headed(messages, i)
    ensures p <= |Groups(messages)| && Offset(Groups(messages), p) == i
    decreases |messages|
  {
    if i == 0 {
      p := 0;
    } else {
      var n := GroupSize(messages);
      var rest := messages[n..];
      if i < n {
        InFirstGroup(messages, i);
      }
      RestIsUnheaded(messages, n, i);
      p := OutsideRunsStart(rest, i - n);
      assert Groups(messages)[1..] == Groups(rest);
      OffsetShift(Groups(messages), p + 1);
      p := p + 1;
    }
  }

  lemma InFirstGroup(messages: seq<Message>, i: nat)
    requires messages != [] && 0 < i < GroupSize(messages)
    ensures Headed(messages, i)
  {
    forall k | 0 < k <= i ensures messages[k].role == Tool {
      LeadingToolsAreTools(messages[1..], k - 1);
    }
    assert HeadsRun(messages, 0, i);
  }

  lemma RestIsUnheaded(messages: seq<Message>, n: nat, i: nat)
    requires n <= i <= |messages| && !Headed(messages, i)
    ensures !Headed(messages[n..], i - n)
  {
    if Headed(messages[n..], i - n) {
      var h :| HeadsRun(messages[n..], h, i - n);
      forall k | n + h < k <= i ensures messages[k].role == Tool {
        assert messages[n..][k - n].role == Tool;
      }
      assert HeadsRun(messages, n + h, i);
    }
  }

  /** Exactly where groups begin: everywhere but at a tool message that belongs to a
      run headed by an assistant message with calls. */
  lemma GroupsStartOutsideRuns(messages: seq<Message>, i: nat)
    requires i < |messages|
    ensures StartsGroup(messages, i) <==> !Headed(messages, i)
  {
    if !Headed(messages, i) {
      var p := OutsideRunsStart(messages, i);
    } else {
      var h :| HeadsRun(messages, h, i);
      forall p: nat | p <= |Groups(messages)| ensures Offset(Groups(messages), p) != i {
        BoundaryKeepsRuns(messages, p, h, i);
      }
    }
  }

  lemma {:induction false} OffsetShift(groups: seq<seq<Message>>, p: nat)
    requires 0 < p <= |groups|
    ensures Offset(groups, p) == |groups[0]| + Offset(groups[1..], p - 1)
  {
    if p > 1 {
      OffsetShift(groups, p - 1);
    }
  }

  /** A suffix that starts on a group boundary keeps every tool result headed. */
  lemma SuffixKeepsHeads(body: seq<Message>, p: nat)
    requires ToolsAreHeaded(body) && p <= |Groups(body)|
    ensures Offset(Groups(body), p) <= |body| && ToolsAreHeaded(body[Offset(Groups(body), p)..])
  {
    FlattenGroups(body);
    FlattenFrom(Groups(body), p);
    var start := Offset(Groups(body), p);
    var kept := body[start..];
    forall i | 0 <= i < |kept| && kept[i].role == Tool ensures Headed(kept, i) {
      assert Headed(body, start + i);
      var h :| HeadsRun(body, h, start + i);
      BoundaryKeepsRuns(body, p, h, start + i);
      RunInSuffix(body, start, h, start + i);
      assert HeadsRun(kept, h - start, i);
    }
  }

  lemma PrefixKeepsHeads(system: seq<Message>, kept: seq<Message>)
    requires ToolsAreHeaded(kept) && forall i :: 0 <= i < |system| ==> system[i].role != Tool
    ensures ToolsAreHeaded(system + kept)
  {
    var all := system + kept;
    forall i | 0 <= i < |all| && all[i].role == Tool ensures Headed(all, i) {
      var n := |system|;
      assert all[i] == kept[i - n] && Headed(kept, i - n);
      var h :| HeadsRun(kept, h, i - n);
      assert HeadsRun(all, h + n, i) by {
        forall k | h + n < k <= i ensures all[k].role == Tool {
          assert all[k] == kept[k - n];
        }
      }
    }
  }

  lemma SameShapeKeepsHeads(messages: seq<Message>, result: seq<Message>)
    requires |result| == |messages| && ToolsAreHeaded(messages)
    requires forall i :: 0 <= i < |messages| ==>
               result[i].role == messages[i].role && result[i].toolCalls == messages[i].toolCalls
    ensures ToolsAreHeaded(result)
  {
    forall i | 0 <= i < |result| && result[i].role == Tool ensures Headed(result, i) {
      assert Headed(messages, i);
      var h :| HeadsRun(messages, h, i);
      assert HeadsRun(result, h, i);
    }
  }

  lemma {:induction false} RolesOf(messages: seq<Message>)
    ensures forall i :: 0 <= i < |SystemOf(messages)| ==> SystemOf(messages)[i].role == System
    ensures forall i :: 0 <= i < |BodyOf(messages)| ==> BodyOf(messages)[i].role != System
  {
    if messages != [] {
      RolesOf(messages[..|messages| - 1]);
    }
  }

  predicate IsSystem(m: Message) { m.role == System }

  predicate IsBody(m: Message) { m.role != System }

  function Same(m: Message): Message { m }

  lemma {:induction false} SystemPositions(messages: seq<Message>) returns (at: seq<nat>)
    ensures IsSelection(messages, IsSystem, Same, at, SystemOf(messages))
  {
    at := [];
    if messages != [] {
      var before, last := messages[..|messages| - 1], messages[|messages| - 1];
      assert messages == before + [last];
      at := SystemPositions(before);
      SelectionSnoc(before, IsSystem, Same, at, SystemOf(before), last);
      at := if IsSystem(last) then at + [|before|] else at;
    }
  }

  lemma {:induction false} BodyPositions(messages: seq<Message>) returns (at: seq<nat>)
    ensures IsSelection(messages, IsBody, Same, at, BodyOf(messages))
  {
    at := [];
    if messages != [] {
      var before, last := messages[..|messages| - 1], messages[|messages| - 1];
      assert messages == before + [last];
      at := BodyPositions(before);
      SelectionSnoc(before, IsBody, Same, at, BodyOf(before), last);
      at := if IsBody(last) then at + [|before|] else at;
    }
  }

  /** System messages unchanged in front; behind them the kept messages, each as
      it was or truncated, and all truncated unless the budget is met. */
  ghost predicate SystemThenKept(system: seq<Message>, kept: seq<Message>, budget: real, result: seq<Message>) {
    && |result| == |system| + |kept| && result[..|system|] == system
    && (forall i :: 0 <= i < |kept| ==> result[|system| + i] == kept[i] || result[|system| + i] == Truncated(kept[i]))
    && (Estimate(result) <= budget || forall i :: 0 <= i < |kept| ==> result[|system| + i] == Truncated(kept[i]))
  }

  lemma LastResortOnSplit(system: seq<Message>, kept: seq<Message>, budget: real)
    requires forall i :: 0 <= i < |system| ==> system[i].role == System
    requires forall i :: 0 <= i < |kept| ==> kept[i].role != System
    ensures SystemThenKept(system, kept, budget, TruncateAll(system + kept, Candidates(system + kept), budget))
  {
    var whole := system + kept;
    LastResort(whole, budget);
    assert forall i :: 0 <= i < |system| ==> whole[i] == system[i];
    assert forall i :: 0 <= i < |kept| ==> whole[|system| + i] == kept[i];
  }

  /** The output of trimming is all system messages, unchanged and in order,
      followed by a suffix of the body in which only contents may be shortened. */
  lemma TrimKeepsSystemAndSuffix(messages: seq<Message>, budget: real, minKeep: int, result: seq<Message>, start: nat)
    requires IsTrim(messages, budget, minKeep, result, start)
    ensures start <= |BodyOf(messages)|
    ensures SystemThenKept(SystemOf(messages), BodyOf(messages)[start..], budget, result)
  {
    RolesOf(messages);
    LastResortOnSplit(SystemOf(messages), BodyOf(messages)[start..], budget);
  }

  /** Trimming never separates a tool result from its call: if every tool message
      of the body is headed, so is every tool message that is sent. */
  lemma TrimKeepsToolRuns(messages: seq<Message>, budget: real, minKeep: int, result: seq<Message>, start: nat)
    requires IsTrim(messages, budget, minKeep, result, start)
    requires ToolsAreHeaded(BodyOf(messages))
    ensures ToolsAreHeaded(result)
  {
    var system, body := SystemOf(messages), BodyOf(messages);
    var p :| IsCut(system, Groups(body), budget, minKeep, p) && start == Offset(Groups(body), p);
    SuffixKeepsHeads(body, p);
    RolesOf(messages);
    PrefixKeepsHeads(system, body[start..]);
    LastResort(system + body[start..], budget);
    SameShapeKeepsHeads(system + body[start..], result);
  }

  ghost predicate Increasing(at: seq<nat>) { forall k, l :: 0 <= k < l < |at| ==> at[k] < at[l] }

  /** The output of trimming in terms of positions in the input: all system messages
      unchanged and in order, then all other messages from a point on, in order and
      changed at most by truncation. */
  lemma TrimInPositions(messages: seq<Message>, budget: real, minKeep: int, result: seq<Message>, start: nat)
    returns (system: seq<nat>, rest: seq<nat>)
    requires IsTrim(messages, budget, minKeep, result, start)
    ensures Increasing(system) && Increasing(rest)
    ensures forall i: nat :: i in system <==> i < |messages| && messages[i].role == System
    ensures forall i: nat :: i in rest <==> i < |messages| && messages[i].role != System
    ensures start <= |rest| && |result| == |system| + |rest| - start
    ensures forall k :: 0 <= k < |system| ==> system[k] < |messages| && result[k] == messages[system[k]]
    ensures forall k :: start <= k < |rest| ==>
      && rest[k] < |messages|
      && (result[|system| + k - start] == messages[rest[k]] || result[|system| + k - start] == Truncated(messages[rest[k]]))
  {
    TrimKeepsSystemAndSuffix(messages, budget, minKeep, result, start);
    system := SystemPositions(messages);
    rest := BodyPositions(messages);
    KeptInPositions(messages, budget, result, start, system, rest);
  }

  lemma KeptInPositions(messages: seq<Message>, budget: real, result: seq<Message>, start: nat, system: seq<nat>, rest: seq<nat>)
    requires start <= |BodyOf(messages)|
    requires SystemThenKept(SystemOf(messages), BodyOf(messages)[start..], budget, result)
    requires IsSelection(messages, IsSystem, Same, system, SystemOf(messages))
    requires IsSelection(messages, IsBody, Same, rest, BodyOf(messages))
    ensures |result| == |system| + |rest| - start
    ensures forall k :: 0 <= k < |system| ==> system[k] < |messages| && result[k] == messages[system[k]]
    ensures forall k :: start <= k < |rest| ==>
      && rest[k] < |messages|
      && (result[|system| + k - start] == messages[rest[k]] || result[|system| + k - start] == Truncated(messages[rest[k]]))
  {
    var front, kept := SystemOf(messages), BodyOf(messages)[start..];
    forall k | 0 <= k < |system| ensures system[k] < |messages| && result[k] == messages[system[k]] {
      assert result[k] == result[..|front|][k] == front[k];
    }
    forall k | start <= k < |rest|
      ensures rest[k] < |messages| && (result[|system| + k - start] == messages[rest[k]] ||
              result[|system| + k - start] == Truncated(messages[rest[k]]))
    {
      assert kept[k - start] == BodyOf(messages)[k] == messages[rest[k]];
    }
  }
}
