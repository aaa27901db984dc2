/** Conversation stickiness: a table from conversation fingerprints to
    credentials with a time to live and least-recently-used eviction
    (src/engine/affinity.py). Digests are modelled as free constructors, that is,
    as a hash without collisions. */
module Affinity {
  import opened Options
  import opened Text

  /** `message` is a message in its canonical JSON form. */
  datatype Digest = Seed(user: string) | Link(prev: Digest, message: string) | Explicit(text: string)

  datatype Entry = Entry(key: Digest, credential: string, expires: real)

  /** Entries in insertion order; a refreshed entry moves to the end. */
  type Table = seq<Entry>

  datatype Field = Str(text: string) | NotText

  type Fields = map<string, Field>

  datatype Request =
    | NotAnObject
    | Object(metadata: Option<Fields>, fields: Fields, messages: Option<seq<string>>)

  const EXPLICIT_KEYS: seq<string> := ["conversation_id", "conversationId", "prompt_cache_key", "session_id"]

  // ----------------------------------------------------------- fingerprints

  function NonEmpty(fields: Fields, name: string): Option<string> {
    if name in fields && fields[name].Str? && Strip(fields[name].text) != "" then Some(Strip(fields[name].text)) else None
  }

  function Containers(req: Request): seq<Fields>
    requires req.Object?
  {
    if req.metadata.Some? then [req.metadata.value, req.fields] else [req.fields]
  }

  function FirstIn(containers: seq<Fields>, name: string): Option<string> {
    if containers == [] then None
    else
      match NonEmpty(containers[0], name)
      case Some(value) => Some(name + ":" + value)
      case None => FirstIn(containers[1..], name)
  }

  function FirstNamed(containers: seq<Fields>, names: seq<string>): Option<string> {
    if names == [] then None
    else
      match FirstIn(containers, names[0])
      case Some(key) => Some(key)
      case None => FirstNamed(containers, names[1..])
  }

  function ExplicitKey(req: Request): Option<string>
    requires req.Object?
  {
    FirstNamed(Containers(req), EXPLICIT_KEYS)
  }

  predicate HasUserId(req: Request)
    requires req.Object?
  {
    FirstIn(Containers(req), "user_id").Some?
  }

  predicate SessionIdChar(c: char) {
    'A' <= c <= 'Z' || 'a' <= c <= 'z' || '0' <= c <= '9' || c in {'.', '_', ':', '-'}
  }

  function SanitizeSessionId(header: Option<string>): Option<string> {
    if header.None? then None
    else
      var text := Strip(header.value);
      if 1 <= |text| <= 128 && (forall i :: 0 <= i < |text| ==> SessionIdChar(text[i])) then Some(text) else None
  }

  /** A key in the body outranks the session header. */
  function ResolveExplicit(req: Request, header: Option<string>): Option<string>
    requires req.Object?
  {
    match ExplicitKey(req)
    case Some(key) => Some(key)
    case None =>
      match SanitizeSessionId(header)
      case Some(id) => Some("header:" + id)
      case None => None
  }

  function Mix(user: string, key: string): string { "explicit|" + user + "|" + key }

  function Chain(user: string, messages: seq<string>): Digest {
    if messages == [] then Seed(user) else Link(Chain(user, messages[..|messages| - 1]), messages[|messages| - 1])
  }

  /** How a request is identified: by an explicit key, by its messages, or not. */
  datatype Identity = ByKey(key: Digest) | ByMessages(messages: seq<string>) | Unidentified

  function Identify(req: Request, header: Option<string>, user: string): Identity {
    if req.NotAnObject? then Unidentified
    else
      match ResolveExplicit(req, header)
      case Some(key) => ByKey(Explicit(Mix(user, key)))
      case None =>
        if HasUserId(req) || req.messages.None? || req.messages.value == [] then Unidentified
        else ByMessages(req.messages.value)
  }

  lemma {:induction false} ChainInjective(u: string, ms: seq<string>, v: string, ns: seq<string>)
    requires Chain(u, ms) == Chain(v, ns)
    ensures u == v && ms == ns
  {
    if ms != [] && ns != [] {
      ChainInjective(u, ms[..|ms| - 1], v, ns[..|ns| - 1]);
      assert ms == ms[..|ms| - 1] + [ms[|ms| - 1]] && ns == ns[..|ns| - 1] + [ns[|ns| - 1]];
    }
  }

  // ---------------------------------------------------------------- identity

  /** The field holds a text that is not blank. */
  ghost predicate Filled(fields: Fields, name: string) {
    name in fields && fields[name].Str? && !AllSpace(fields[name].text)
  }

  ghost predicate FilledAnywhere(req: Request, name: string)
    requires req.Object?
  {
    Filled(req.fields, name) || (req.metadata.Some? && Filled(req.metadata.value, name))
  }

  /** The metadata outrank the top level. */
  ghost predicate Carries(req: Request, name: string, value: string)
    requires req.Object?
  {
    if req.metadata.Some? && Filled(req.metadata.value, name) then value == Strip(req.metadata.value[name].text)
    else Filled(req.fields, name) && value == Strip(req.fields[name].text)
  }

  ghost predicate ValidHeader(header: Option<string>, id: string) {
    header.Some? && id == Strip(header.value) && 1 <= |id| <= 128 && forall c :: c in id ==> SessionIdChar(c)
  }

  lemma CarriedIsFirst(req: Request, name: string)
    requires req.Object?
    ensures FirstIn(Containers(req), name).Some? <==> FilledAnywhere(req, name)
    ensures forall value :: Carries(req, name, value) ==> FirstIn(Containers(req), name) == Some(name + ":" + value)
  {
    if name in req.fields && req.fields[name].Str? {
      StripOfBlank(req.fields[name].text);
    }
    if req.metadata.Some? {
      var metadata := req.metadata.value;
      if name in metadata && metadata[name].Str? {
        StripOfBlank(metadata[name].text);
      }
      assert Containers(req)[1..] == [req.fields];
    }
    assert FirstIn([req.fields][1..], name) == None;
  }

  lemma {:induction false} FirstFilledName(req: Request, names: seq<string>, i: nat)
    requires req.Object? && i <= |names| && forall j :: 0 <= j < i ==> !FilledAnywhere(req, names[j])
    ensures i == |names| ==> FirstNamed(Containers(req), names) == None
    ensures forall value :: i < |names| && Carries(req, names[i], value) ==>
              FirstNamed(Containers(req), names) == Some(names[i] + ":" + value)
  {
    if names != [] {
      CarriedIsFirst(req, names[0]);
      if i > 0 {
        FirstFilledName(req, names[1..], i - 1);
        assert FirstNamed(Containers(req), names) == FirstNamed(Containers(req), names[1..]);
      }
    }
  }

  lemma HeaderIsValid(header: Option<string>)
    ensures forall id :: SanitizeSessionId(header) == Some(id) <==> ValidHeader(header, id)
  {
    if header.Some? {
      var text := Strip(header.value);
      assert (forall c :: c in text ==> SessionIdChar(c)) <==> forall i :: 0 <= i < |text| ==> SessionIdChar(text[i]);
    }
  }

  /** Keys in the body go first, in the order of their names; a valid session header
      counts only without one; and messages only without either, and only if the
      request names no user of its own. */
  lemma IdentityRules(req: Request, header: Option<string>, user: string, i: nat)
    requires req.Object? && i <= |EXPLICIT_KEYS| && forall j :: 0 <= j < i ==> !FilledAnywhere(req, EXPLICIT_KEYS[j])
    ensures forall value :: i < |EXPLICIT_KEYS| && Carries(req, EXPLICIT_KEYS[i], value) ==>
              Identify(req, header, user) == ByKey(Explicit("explicit|" + user + "|" + (EXPLICIT_KEYS[i] + ":" + value)))
    ensures forall id :: i == |EXPLICIT_KEYS| && ValidHeader(header, id) ==>
              Identify(req, header, user) == ByKey(Explicit("explicit|" + user + "|" + ("header:" + id)))
    ensures i == |EXPLICIT_KEYS| && (forall id :: !ValidHeader(header, id)) ==>
              Identify(req, header, user) ==
              if !FilledAnywhere(req, "user_id") && req.messages.Some? && req.messages.value != []
              then ByMessages(req.messages.value) else Unidentified
  {
    FirstFilledName(req, EXPLICIT_KEYS, i);
    HeaderIsValid(header);
    CarriedIsFirst(req, "user_id");
  }

  // ------------------------------------------------------------------ table

  function Without(t: Table, key: Digest): Table {
    if t == [] then []
    else Without(t[..|t| - 1], key) + if t[|t| - 1].key == key then [] else [t[|t| - 1]]
  }

  function Find(t: Table, key: Digest): Option<Entry> {
    if t == [] then None else if t[|t| - 1].key == key then Some(t[|t| - 1]) else Find(t[..|t| - 1], key)
  }

  ghost predicate DistinctKeys(t: Table) {
    forall i, j :: 0 <= i < j < |t| ==> t[i].key != t[j].key
  }

  function Touch(t: Table, key: Digest, credential: string, now: real, ttl: real): Table {
    Without(t, key) + [Entry(key, credential, now + ttl)]
  }

  /** The credential of a live entry. */
  function Live(t: Table, key: Digest, now: real): Option<string> {
    match Find(t, key)
    case Some(e) => if now < e.expires then Some(e.credential) else None
    case None => None
  }

  /** A hit refreshes its entry, an expired entry is deleted. */
  function Lookup(t: Table, key: Digest, now: real, ttl: real): Table {
    match Find(t, key)
    case None => t
    case Some(e) => if e.expires <= now then Without(t, key) else Touch(t, key, e.credential, now, ttl)
  }

  /** The specification of the prefix search: the longest live prefix wins. */
  function LongestLive(t: Table, user: string, messages: seq<string>, now: real): Option<string> {
    if messages == [] then None
    else
      match Live(t, Chain(user, messages), now)
      case Some(credential) => Some(credential)
      case None => LongestLive(t, user, messages[..|messages| - 1], now)
  }

  /** The table after the prefix search has looked up the first n prefixes. */
  function Scanned(t: Table, user: string, messages: seq<string>, n: nat, now: real, ttl: real): Table
    requires n <= |messages|
  {
    if n == 0 then t else Lookup(Scanned(t, user, messages, n - 1, now, ttl), Chain(user, messages[..n]), now, ttl)
  }

  function NotExpired(t: Table, now: real): Table {
    if t == [] then [] else NotExpired(t[..|t| - 1], now) + if now < t[|t| - 1].expires then [t[|t| - 1]] else []
  }

  function Newest(t: Table, count: nat): Table {
    if |t| <= count then t else t[|t| - count..]
  }

  function Evict(t: Table, now: real, maxEntries: nat): Table {
    if |t| <= maxEntries then t else Newest(NotExpired(t, now), maxEntries)
  }

  // ------------------------------------------------------------ table lemmas

  lemma FindSnoc(t: Table, e: Entry, key: Digest)
    ensures Find(t + [e], key) == if e.key == key then Some(e) else Find(t, key)
  {
    assert (t + [e])[..|t|] == t;
  }

  lemma WithoutSnoc(t: Table, e: Entry, key: Digest)
    ensures Without(t + [e], key) == if e.key == key then Without(t, key) else Without(t, key) + [e]
  {
    assert (t + [e])[..|t|] == t;
  }

  lemma {:induction false} FindWithout(t: Table, key: Digest, other: Digest)
    ensures Find(Without(t, key), other) == if other == key then None else Find(t, other)
  {
    if t != [] {
      var before, last := t[..|t| - 1], t[|t| - 1];
      assert t == before + [last];
      FindWithout(before, key, other);
      WithoutSnoc(before, last, key);
      FindSnoc(before, last, other);
      FindSnoc(Without(before, key), last, other);
    }
  }

  lemma FindTouch(t: Table, key: Digest, credential: string, now: real, ttl: real, other: Digest)
    ensures Find(Touch(t, key, credential, now, ttl), other) ==
      if other == key then Some(Entry(key, credential, now + ttl)) else Find(t, other)
  {
    FindWithout(t, key, other);
    FindSnoc(Without(t, key), Entry(key, credential, now + ttl), other);
  }

  /** Looking something up changes no answer, for this key or any other. */
  lemma LookupKeepsAnswers(t: Table, key: Digest, now: real, ttl: real, other: Digest)
    requires ttl > 0.0
    ensures Live(Lookup(t, key, now, ttl), other, now) == Live(t, other, now)
  {
    match Find(t, key)
    case None =>
    case Some(e) =>
      FindWithout(t, key, other);
      FindTouch(t, key, e.credential, now, ttl, other);
      FindKey(t, key);
  }

  lemma {:induction false} FindKey(t: Table, key: Digest)
    ensures Find(t, key).Some? ==> Find(t, key).value.key == key && Find(t, key).value in t
  {
    if t != [] {
      FindKey(t[..|t| - 1], key);
    }
  }

  lemma {:induction false} ScanKeepsAnswers(t: Table, user: string, messages: seq<string>, n: nat, now: real, ttl: real, other: Digest)
    requires ttl > 0.0 && n <= |messages|
    ensures Live(Scanned(t, user, messages, n, now, ttl), other, now) == Live(t, other, now)
  {
    if n > 0 {
      ScanKeepsAnswers(t, user, messages, n - 1, now, ttl, other);
      LookupKeepsAnswers(Scanned(t, user, messages, n - 1, now, ttl), Chain(user, messages[..n]), now, ttl, other);
    }
  }

  /** Tables that agree on every key give the same longest live prefix. */
  lemma {:induction false} ScanKeepsLongest(t: Table, t': Table, user: string, messages: seq<string>, now: real)
    requires forall key :: Live(t', key, now) == Live(t, key, now)
    ensures LongestLive(t', user, messages, now) == LongestLive(t, user, messages, now)
  {
    if messages != [] {
      ScanKeepsLongest(t, t', user, messages[..|messages| - 1], now);
    }
  }

  lemma {:induction false} WithoutMember(t: Table, key: Digest, e: Entry)
    ensures e in Without(t, key) <==> e in t && e.key != key
  {
    if t != [] {
      var before, last := t[..|t| - 1], t[|t| - 1];
      assert t == before + [last];
      WithoutMember(before, key, e);
      WithoutSnoc(before, last, key);
    }
  }

  lemma DistinctSnoc(t: Table, e: Entry)
    requires DistinctKeys(t) && forall x :: x in t ==> x.key != e.key
    ensures DistinctKeys(t + [e])
  {
  }

  lemma {:induction false} WithoutKeepsDistinct(t: Table, key: Digest)
    requires DistinctKeys(t)
    ensures DistinctKeys(Without(t, key))
  {
    if t != [] {
      var before, last := t[..|t| - 1], t[|t| - 1];
      assert t == before + [last];
      WithoutKeepsDistinct(before, key);
      WithoutSnoc(before, last, key);
      if last.key != key {
        forall e | e in Without(before, key) ensures e.key != last.key {
          WithoutMember(before, key, e);
        }
        DistinctSnoc(Without(before, key), last);
      }
    }
  }

  lemma TouchKeepsDistinct(t: Table, key: Digest, credential: string, now: real, ttl: real)
    requires DistinctKeys(t)
    ensures DistinctKeys(Touch(t, key, credential, now, ttl))
  {
    WithoutKeepsDistinct(t, key);
    forall e | e in Without(t, key) ensures e.key != key {
      WithoutMember(t, key, e);
    }
    DistinctSnoc(Without(t, key), Entry(key, credential, now + ttl));
  }

  // ---------------------------------------------------------------- recency

  /** Least recently used first: expiry times ascend, none beyond now + ttl. */
  ghost predicate ByRecency(t: Table, now: real, ttl: real) {
    && (forall i, j :: 0 <= i < j < |t| ==> t[i].expires <= t[j].expires)
    && (forall i :: 0 <= i < |t| ==> t[i].expires <= now + ttl)
  }

  lemma RecencySnoc(t: Table, e: Entry, now: real, ttl: real)
    requires ByRecency(t, now, ttl) && e.expires <= now + ttl
    requires forall x :: x in t ==> x.expires <= e.expires
    ensures ByRecency(t + [e], now, ttl)
  {
  }

  lemma {:induction false} WithoutKeepsRecency(t: Table, key: Digest, now: real, ttl: real)
    requires ByRecency(t, now, ttl)
    ensures ByRecency(Without(t, key), now, ttl)
  {
    if t != [] {
      var before, last := t[..|t| - 1], t[|t| - 1];
      assert t == before + [last];
      WithoutKeepsRecency(before, key, now, ttl);
      WithoutSnoc(before, last, key);
      forall e | e in Without(before, key) ensures e.expires <= last.expires {
        WithoutMember(before, key, e);
      }
      RecencySnoc(Without(before, key), last, now, ttl);
    }
  }

  lemma TouchKeepsRecency(t: Table, key: Digest, credential: string, now: real, ttl: real)
    requires ByRecency(t, now, ttl)
    ensures ByRecency(Touch(t, key, credential, now, ttl), now, ttl)
  {
    WithoutKeepsRecency(t, key, now, ttl);
    RecencySnoc(Without(t, key), Entry(key, credential, now + ttl), now, ttl);
  }

  lemma LookupKeepsRecency(t: Table, key: Digest, now: real, ttl: real)
    requires ByRecency(t, now, ttl)
    ensures ByRecency(Lookup(t, key, now, ttl), now, ttl)
  {
    WithoutKeepsRecency(t, key, now, ttl);
    match Find(t, key)
    case None =>
    case Some(e) => TouchKeepsRecency(t, key, e.credential, now, ttl);
  }

  lemma SuffixKeepsOrder(t: Table, n: nat, now: real, ttl: real)
    requires n <= |t|
    ensures DistinctKeys(t) ==> DistinctKeys(t[n..])
    ensures ByRecency(t, now, ttl) ==> ByRecency(t[n..], now, ttl)
  {
  }

  /** The entries before position `n` have expired, the others have not. */
  ghost predicate ExpiresBefore(t: Table, n: int, now: real) {
    && 0 <= n <= |t|
    && (forall i :: 0 <= i < n ==> t[i].expires <= now)
    && (forall i :: n <= i < |t| ==> now < t[i].expires)
  }

  lemma NotExpiredSnoc(t: Table, e: Entry, now: real)
    ensures NotExpired(t + [e], now) == if now < e.expires then NotExpired(t, now) + [e] else NotExpired(t, now)
  {
    assert (t + [e])[..|t|] == t;
  }

  lemma ExpiresSnoc(t: Table, e: Entry, n: nat, now: real)
    requires ExpiresBefore(t, n, now) && forall i :: 0 <= i < |t| ==> t[i].expires <= e.expires
    ensures now < e.expires ==> ExpiresBefore(t + [e], n, now)
    ensures e.expires <= now ==> n == |t| && ExpiresBefore(t + [e], |t| + 1, now)
  {
    assert n < |t| ==> now < t[n].expires && t[n].expires <= e.expires;
  }

  lemma NotExpiredStep(t: Table, e: Entry, n: nat, now: real) returns (m: nat)
    requires ExpiresBefore(t, n, now) && NotExpired(t, now) == t[n..]
    requires forall i :: 0 <= i < |t| ==> t[i].expires <= e.expires
    ensures ExpiresBefore(t + [e], m, now) && NotExpired(t + [e], now) == (t + [e])[m..]
  {
    NotExpiredSnoc(t, e, now);
    assert t[n..] + [e] == (t + [e])[n..];
    ExpiresSnoc(t, e, n, now);
    m := if now < e.expires then n else |t| + 1;
  }

  lemma RecencyInit(t: Table, e: Entry, now: real, ttl: real)
    requires ByRecency(t + [e], now, ttl)
    ensures ByRecency(t, now, ttl)
    ensures forall i :: 0 <= i < |t| ==> t[i].expires <= e.expires
  {
    var all := t + [e];
    forall i | 0 <= i < |t| ensures t[i].expires <= e.expires {
      assert all[i].expires <= all[|t|].expires;
    }
    forall i, j | 0 <= i < j < |t| ensures t[i].expires <= t[j].expires {
      assert all[i].expires <= all[j].expires;
    }
    forall i | 0 <= i < |t| ensures t[i].expires <= now + ttl {
      assert all[i].expires <= now + ttl;
    }
  }

  /** Expired entries form a prefix, so dropping them leaves a suffix. */
  lemma {:induction false} NotExpiredIsSuffix(t: Table, now: real, ttl: real) returns (n: nat)
    requires ByRecency(t, now, ttl)
    ensures ExpiresBefore(t, n, now) && NotExpired(t, now) == t[n..]
  {
    if t == [] {
      n := 0;
    } else {
      var before, last := t[..|t| - 1], t[|t| - 1];
      assert t == before + [last];
      RecencyInit(before, last, now, ttl);
      n := NotExpiredIsSuffix(before, now, ttl);
      n := NotExpiredStep(before, last, n, now);
    }
  }

  /** Eviction, exactly: nothing goes up to capacity; over it, the expired entries
      and then the least recently used surplus go, together a prefix of the table. */
  lemma EvictionIsExact(t: Table, now: real, ttl: real, maxEntries: nat) returns (n: nat)
    requires ByRecency(t, now, ttl)
    ensures n <= |t| && Evict(t, now, maxEntries) == t[n..] && |t| - n <= maxEntries
    ensures |t| <= maxEntries ==> n == 0
    ensures forall i :: 0 <= i < n ==> t[i].expires <= now || i < |t| - maxEntries
    ensures maxEntries < |t| ==> forall i :: n <= i < |t| ==> now < t[i].expires
  {
    n := NotExpiredIsSuffix(t, now, ttl);
    if |t| <= maxEntries {
      n := 0;
    } else if maxEntries < |t| - n {
      assert t[n..][|t| - n - maxEntries..] == t[|t| - maxEntries..];
      n := |t| - maxEntries;
    }
  }

  lemma EvictKeepsLast(t: Table, e: Entry, now: real, maxEntries: nat) returns (rest: Table)
    requires now < e.expires && maxEntries > 0
    ensures Evict(t + [e], now, maxEntries) == rest + [e]
  {
    NotExpiredSnoc(t, e, now);
    var live := NotExpired(t, now);
    if |t + [e]| <= maxEntries {
      rest := t;
    } else if |live + [e]| <= maxEntries {
      rest := live;
    } else {
      rest := live[|live| + 1 - maxEntries..];
    }
  }

  /** The entry just written is never evicted. */
  lemma RememberedSurvives(t: Table, key: Digest, credential: string, now: real, ttl: real, maxEntries: nat)
    requires ttl > 0.0 && maxEntries > 0
    ensures Find(Evict(Touch(t, key, credential, now, ttl), now, maxEntries), key) == Some(Entry(key, credential, now + ttl))
  {
    var e := Entry(key, credential, now + ttl);
    var rest := EvictKeepsLast(Without(t, key), e, now, maxEntries);
    FindSnoc(rest, e, key);
  }

  // ------------------------------------------------------------------ runs

  datatype Op =
    | Pin(req: Request, header: Option<string>, user: string, at: real)
    | Remember(req: Request, header: Option<string>, user: string, credential: string, at: real)
  {
    function Identity(): Identity { Identify(req, header, user) }

    /** The one key a remembered request is stored under. */
    function Key(): Option<Digest> {
      match Identity()
      case ByKey(key) => Some(key)
      case ByMessages(messages) => Some(Chain(user, messages))
      case Unidentified => None
    }
  }

  function PinAnswer(t: Table, op: Op, ttl: real): Option<string>
  {
    if ttl <= 0.0 then None
    else
      match op.Identity()
      case ByKey(key) => Live(t, key, op.at)
      case ByMessages(messages) => LongestLive(t, op.user, messages, op.at)
      case Unidentified => None
  }

  function Step(t: Table, op: Op, ttl: real, maxEntries: nat): Table {
    if ttl <= 0.0 then t
    else
      match op
      case Pin(_, _, user, at) =>
        (match op.Identity()
         case ByKey(key) => Lookup(t, key, at, ttl)
         case ByMessages(messages) => Scanned(t, user, messages, |messages|, at, ttl)
         case Unidentified => t)
      case Remember(_, _, _, credential, at) =>
        (match op.Key()
         case Some(key) => Evict(Touch(t, key, credential, at, ttl), at, maxEntries)
         case None => t)
  }

  function Exec(run: seq<Op>, ttl: real, maxEntries: nat): Table {
    if run == [] then [] else Step(Exec(run[..|run| - 1], ttl, maxEntries), run[|run| - 1], ttl, maxEntries)
  }

  ghost predicate Clocked(run: seq<Op>) {
    forall i, j :: 0 <= i < j < |run| ==> run[i].at <= run[j].at
  }

  ghost predicate Invariant(t: Table, now: real, ttl: real, maxEntries: nat) {
    DistinctKeys(t) && ByRecency(t, now, ttl) && |t| <= maxEntries
  }

  lemma LookupKeepsInvariant(t: Table, key: Digest, now: real, ttl: real, maxEntries: nat)
    requires Invariant(t, now, ttl, maxEntries)
    ensures Invariant(Lookup(t, key, now, ttl), now, ttl, maxEntries)
  {
    LookupKeepsRecency(t, key, now, ttl);
    WithoutKeepsDistinct(t, key);
    WithoutIsShorter(t, key);
    match Find(t, key)
    case None =>
    case Some(e) => TouchKeepsDistinct(t, key, e.credential, now, ttl);
  }

  lemma {:induction false} WithoutIsShorter(t: Table, key: Digest)
    ensures |Without(t, key)| <= |t|
    ensures Find(t, key).Some? ==> |Without(t, key)| < |t|
  {
    if t != [] {
      var before, last := t[..|t| - 1], t[|t| - 1];
      assert t == before + [last];
      WithoutIsShorter(before, key);
      WithoutSnoc(before, last, key);
      FindSnoc(before, last, key);
    }
  }

  lemma {:induction false} ScanKeepsInvariant(t: Table, user: string, messages: seq<string>, n: nat, now: real, ttl: real, maxEntries: nat)
    requires n <= |messages| && Invariant(t, now, ttl, maxEntries)
    ensures Invariant(Scanned(t, user, messages, n, now, ttl), now, ttl, maxEntries)
  {
    if n > 0 {
      ScanKeepsInvariant(t, user, messages, n - 1, now, ttl, maxEntries);
      LookupKeepsInvariant(Scanned(t, user, messages, n - 1, now, ttl), Chain(user, messages[..n]), now, ttl, maxEntries);
    }
  }

  lemma RememberKeepsInvariant(t: Table, key: Digest, credential: string, now: real, ttl: real, maxEntries: nat)
    requires Invariant(t, now, ttl, maxEntries)
    ensures Invariant(Evict(Touch(t, key, credential, now, ttl), now, maxEntries), now, ttl, maxEntries)
  {
    var touched := Touch(t, key, credential, now, ttl);
    TouchKeepsDistinct(t, key, credential, now, ttl);
    TouchKeepsRecency(t, key, credential, now, ttl);
    var n := EvictionIsExact(touched, now, ttl, maxEntries);
    SuffixKeepsOrder(touched, n, now, ttl);
  }

  lemma StepKeepsInvariant(t: Table, op: Op, ttl: real, maxEntries: nat)
    requires Invariant(t, op.at, ttl, maxEntries)
    ensures Invariant(Step(t, op, ttl, maxEntries), op.at, ttl, maxEntries)
  {
    if op.Key().Some? {
      if op.Remember? {
        RememberKeepsInvariant(t, op.Key().value, op.credential, op.at, ttl, maxEntries);
      } else if op.Identity().ByKey? {
        LookupKeepsInvariant(t, op.Identity().key, op.at, ttl, maxEntries);
      } else {
        var messages := op.Identity().messages;
        ScanKeepsInvariant(t, op.user, messages, |messages|, op.at, ttl, maxEntries);
      }
    }
  }

  /** In every run with a constant positive time to live, the table never holds
      more than its maximum between calls and stays in recency order. */
  lemma {:induction false} RunKeepsInvariant(run: seq<Op>, now: real, ttl: real, maxEntries: nat)
    requires ttl > 0.0 && Clocked(run) && (run != [] ==> run[|run| - 1].at <= now)
    ensures Invariant(Exec(run, ttl, maxEntries), now, ttl, maxEntries)
  {
    if run != [] {
      var op, before := run[|run| - 1], run[..|run| - 1];
      RunKeepsInvariant(before, op.at, ttl, maxEntries);
      StepKeepsInvariant(Exec(before, ttl, maxEntries), op, ttl, maxEntries);
    }
  }

  // ------------------------------------------------------------- provenance

  /** Some earlier request was served by the credential and stored under the key. */
  ghost predicate Remembered(run: seq<Op>, key: Digest, credential: string) {
    exists i :: 0 <= i < |run| && run[i].Remember? && run[i].Key() == Some(key) && run[i].credential == credential
  }

  ghost predicate AllRemembered(run: seq<Op>, t: Table) {
    forall e :: e in t ==> Remembered(run, e.key, e.credential)
  }

  lemma LookupKeepsOrigins(run: seq<Op>, t: Table, key: Digest, now: real, ttl: real)
    requires AllRemembered(run, t)
    ensures AllRemembered(run, Lookup(t, key, now, ttl))
  {
    FindKey(t, key);
    forall e | e in Lookup(t, key, now, ttl) ensures Remembered(run, e.key, e.credential) {
      WithoutMember(t, key, e);
    }
  }

  lemma {:induction false} ScanKeepsOrigins(run: seq<Op>, t: Table, user: string, messages: seq<string>, n: nat, now: real, ttl: real)
    requires AllRemembered(run, t) && n <= |messages|
    ensures AllRemembered(run, Scanned(t, user, messages, n, now, ttl))
  {
    if n > 0 {
      ScanKeepsOrigins(run, t, user, messages, n - 1, now, ttl);
      LookupKeepsOrigins(run, Scanned(t, user, messages, n - 1, now, ttl), Chain(user, messages[..n]), now, ttl);
    }
  }

  lemma {:induction false} EvictIsSubset(t: Table, now: real, maxEntries: nat)
    ensures forall e :: e in NotExpired(t, now) ==> e in t
    ensures forall e :: e in Evict(t, now, maxEntries) ==> e in t
  {
    if t != [] {
      EvictIsSubset(t[..|t| - 1], now, maxEntries);
      assert t == t[..|t| - 1] + [t[|t| - 1]];
    }
  }

  lemma OriginsGrow(run: seq<Op>, op: Op, t: Table)
    requires AllRemembered(run, t)
    ensures AllRemembered(run + [op], t)
  {
    forall e | e in t ensures Remembered(run + [op], e.key, e.credential) {
      assert Remembered(run, e.key, e.credential);
      var i :| 0 <= i < |run| && run[i].Remember? && run[i].Key() == Some(e.key) && run[i].credential == e.credential;
      assert (run + [op])[i] == run[i];
    }
  }

  lemma RememberKeepsOrigins(run: seq<Op>, t: Table, key: Digest, credential: string, now: real, ttl: real, maxEntries: nat)
    requires AllRemembered(run, t) && Remembered(run, key, credential)
    ensures AllRemembered(run, Evict(Touch(t, key, credential, now, ttl), now, maxEntries))
  {
    var touched := Touch(t, key, credential, now, ttl);
    forall e | e in Evict(touched, now, maxEntries) ensures Remembered(run, e.key, e.credential) {
      EvictIsSubset(touched, now, maxEntries);
      WithoutMember(t, key, e);
    }
  }

  lemma {:induction false} EntriesAreRemembered(run: seq<Op>, ttl: real, maxEntries: nat)
    ensures AllRemembered(run, Exec(run, ttl, maxEntries))
  {
    if run != [] {
      var op, before := run[|run| - 1], run[..|run| - 1];
      var t := Exec(before, ttl, maxEntries);
      EntriesAreRemembered(before, ttl, maxEntries);
      OriginsGrow(before, op, t);
      assert run == before + [op];
      if ttl > 0.0 && op.Key().Some? {
        var key := op.Key().value;
        if op.Remember? {
          assert Remembered(run, key, op.credential) by {
            assert run[|run| - 1] == op;
          }
          RememberKeepsOrigins(run, t, key, op.credential, op.at, ttl, maxEntries);
        } else if op.Identity().ByKey? {
          LookupKeepsOrigins(run, t, key, op.at, ttl);
        } else {
          var messages := op.Identity().messages;
          ScanKeepsOrigins(run, t, op.user, messages, |messages|, op.at, ttl);
        }
      }
    }
  }

  lemma {:induction false} LongestLiveIsAPrefix(t: Table, user: string, messages: seq<string>, now: real)
    ensures LongestLive(t, user, messages, now).Some? ==>
      exists n :: 0 < n <= |messages| && Live(t, Chain(user, messages[..n]), now) == LongestLive(t, user, messages, now)
                  && forall m :: n < m <= |messages| ==> Live(t, Chain(user, messages[..m]), now) == None
    ensures LongestLive(t, user, messages, now).None? ==>
      forall n :: 0 < n <= |messages| ==> Live(t, Chain(user, messages[..n]), now) == None
  {
    if messages != [] {
      var k := |messages| - 1;
      LongestLiveIsAPrefix(t, user, messages[..k], now);
      assert messages[..k + 1] == messages;
      assert forall n :: 0 <= n <= k ==> messages[..k][..n] == messages[..n];
    }
  }

  /** With user names free of the separator, the text of an explicit entry tells
      user and key apart. */
  lemma MixInjective(u: string, k: string, v: string, l: string)
    requires Mix(u, k) == Mix(v, l)
    ensures |u| <= |v| ==> u <= v && (|u| < |v| ==> v[|u|] == '|')
    ensures '|' !in u && '|' !in v ==> u == v && k == l
  {
    var a, b := Mix(u, k), Mix(v, l);
    assert a[9..] == u + "|" + k && b[9..] == v + "|" + l;
    assert a[9..][..|u|] == u && a[9..][|u|] == '|' && a[9..][|u| + 1..] == k;
    assert b[9..][..|v|] == v && b[9..][|v|] == '|' && b[9..][|v| + 1..] == l;
    if |u| <= |v| {
      assert v[..|u|] == u;
      assert |u| < |v| ==> v[|u|] == '|';
    } else {
      assert u[|v|] == '|';
    }
  }

  // ------------------------------------------------------------ refreshing

  lemma {:induction false} AbsentKey(t: Table, key: Digest)
    ensures Find(t, key) == None <==> forall e :: e in t ==> e.key != key
  {
    if t != [] {
      AbsentKey(t[..|t| - 1], key);
      assert t == t[..|t| - 1] + [t[|t| - 1]];
    }
  }

  /** A lookup leaves of its key a refreshed entry, or none at all. */
  lemma LookupRefreshes(t: Table, key: Digest, now: real, ttl: real)
    ensures Find(Lookup(t, key, now, ttl), key) ==
      if Live(t, key, now).Some? then Some(Entry(key, Live(t, key, now).value, now + ttl)) else None
    ensures forall other :: other != key ==> Find(Lookup(t, key, now, ttl), other) == Find(t, other)
  {
    forall other ensures Find(Without(t, key), other) == if other == key then None else Find(t, other) {
      FindWithout(t, key, other);
    }
    if Live(t, key, now).Some? {
      forall other
        ensures Find(Lookup(t, key, now, ttl), other) ==
          if other == key then Some(Entry(key, Live(t, key, now).value, now + ttl)) else Find(t, other)
      {
        FindTouch(t, key, Live(t, key, now).value, now, ttl, other);
      }
    }
  }

  /** So does the scan of every prefix it has looked up. */
  lemma {:induction false} ScanRefreshes(t: Table, user: string, messages: seq<string>, n: nat, m: nat, now: real, ttl: real)
    requires ttl > 0.0 && 0 < m <= n <= |messages|
    ensures
      var key := Chain(user, messages[..m]);
      Find(Scanned(t, user, messages, n, now, ttl), key) ==
      if Live(t, key, now).Some? then Some(Entry(key, Live(t, key, now).value, now + ttl)) else None
  {
    var before, looked := Scanned(t, user, messages, n - 1, now, ttl), Chain(user, messages[..n]);
    LookupRefreshes(before, looked, now, ttl);
    if m == n {
      ScanKeepsAnswers(t, user, messages, n - 1, now, ttl, looked);
    } else {
      ScanRefreshes(t, user, messages, n - 1, m, now, ttl);
      if Chain(user, messages[..m]) == looked {
        ChainInjective(user, messages[..m], user, messages[..n]);
      }
    }
  }

  /** The entry of the key was written at time `now` and nothing has been written since. */
  ghost predicate NewestIs(t: Table, key: Digest, credential: string, now: real, ttl: real) {
    t != [] && t[|t| - 1] == Entry(key, credential, now + ttl)
  }

  lemma MissKeepsNewest(t: Table, key: Digest, credential: string, missed: Digest, now: real, ttl: real)
    requires NewestIs(t, key, credential, now, ttl) && missed != key && Live(t, missed, now) == None
    ensures NewestIs(Lookup(t, missed, now, ttl), key, credential, now, ttl)
  {
    assert t == t[..|t| - 1] + [t[|t| - 1]];
    WithoutSnoc(t[..|t| - 1], t[|t| - 1], missed);
  }

  lemma {:induction false} LongestIsNewest(t: Table, user: string, messages: seq<string>, m: nat, n: nat, credential: string, now: real, ttl: real)
    requires ttl > 0.0 && 0 < m <= n <= |messages| && Live(t, Chain(user, messages[..m]), now) == Some(credential)
    requires forall k :: m < k <= |messages| ==> Live(t, Chain(user, messages[..k]), now) == None
    ensures NewestIs(Scanned(t, user, messages, n, now, ttl), Chain(user, messages[..m]), credential, now, ttl)
  {
    var before, looked := Scanned(t, user, messages, n - 1, now, ttl), Chain(user, messages[..n]);
    ScanKeepsAnswers(t, user, messages, n - 1, now, ttl, looked);
    if m < n {
      LongestIsNewest(t, user, messages, m, n - 1, credential, now, ttl);
      if Chain(user, messages[..m]) == looked {
        ChainInjective(user, messages[..m], user, messages[..n]);
      }
      MissKeepsNewest(before, Chain(user, messages[..m]), credential, looked, now, ttl);
    }
  }

  /** A key whose entry can answer the request. */
  ghost predicate Consults(op: Op, key: Digest) {
    || op.Identity() == ByKey(key)
    || (op.Identity().ByMessages?
        && exists n: nat :: 0 < n <= |op.Identity().messages| && key == Chain(op.user, op.Identity().messages[..n]))
  }

  /** The table holds one entry that answers the request, and no other. */
  ghost predicate Settled(t: Table, op: Op, key: Digest, credential: string, expires: real, n: nat) {
    && Find(t, key) == Some(Entry(key, credential, expires))
    && (op.Identity().ByMessages? ==>
          && 0 < n <= |op.Identity().messages| && key == Chain(op.user, op.Identity().messages[..n])
          && forall m :: n < m <= |op.Identity().messages| ==> Find(t, Chain(op.user, op.Identity().messages[..m])) == None)
    && (op.Identity().ByMessages? || op.Identity() == ByKey(key))
  }

  /** The same question, asked at another time. */
  function Again(op: Op, at: real): Op { Pin(op.req, op.header, op.user, at) }

  lemma SettledLater(t: Table, op: Op, key: Digest, credential: string, expires: real, n: nat, ttl: real, at: real)
    requires ttl > 0.0 && Settled(t, op, key, credential, expires, n) && at < expires
    ensures PinAnswer(t, Again(op, at), ttl) == Some(credential)
  {
    assert Again(op, at).Identity() == op.Identity();
    if op.Identity().ByMessages? {
      LongestLiveIsAPrefix(t, op.user, op.Identity().messages, at);
      assert Live(t, Chain(op.user, op.Identity().messages[..n]), at) == Some(credential);
    }
  }

  lemma ScanSettles(t: Table, user: string, messages: seq<string>, credential: string, now: real, ttl: real) returns (n: nat)
    requires ttl > 0.0 && LongestLive(t, user, messages, now) == Some(credential)
    ensures 0 < n <= |messages|
    ensures var key, t' := Chain(user, messages[..n]), Scanned(t, user, messages, |messages|, now, ttl);
      Find(t', key) == Some(Entry(key, credential, now + ttl)) && NewestIs(t', key, credential, now, ttl)
    ensures forall m :: n < m <= |messages| ==>
              Find(Scanned(t, user, messages, |messages|, now, ttl), Chain(user, messages[..m])) == None
  {
    LongestLiveIsAPrefix(t, user, messages, now);
    n :| 0 < n <= |messages| && Live(t, Chain(user, messages[..n]), now) == Some(credential)
         && forall m :: n < m <= |messages| ==> Live(t, Chain(user, messages[..m]), now) == None;
    ScanRefreshes(t, user, messages, |messages|, n, now, ttl);
    LongestIsNewest(t, user, messages, n, |messages|, credential, now, ttl);
    forall m | n < m <= |messages|
      ensures Find(Scanned(t, user, messages, |messages|, now, ttl), Chain(user, messages[..m])) == None
    {
      ScanRefreshes(t, user, messages, |messages|, m, now, ttl);
    }
  }

  /** A hit leaves its own entry refreshed, the newest, and the only one to answer. */
  lemma HitSettles(t: Table, op: Op, credential: string, ttl: real, maxEntries: nat) returns (key: Digest, n: nat)
    requires op.Pin? && PinAnswer(t, op, ttl) == Some(credential)
    ensures Consults(op, key) && Settled(Step(t, op, ttl, maxEntries), op, key, credential, op.at + ttl, n)
    ensures NewestIs(Step(t, op, ttl, maxEntries), key, credential, op.at, ttl)
  {
    n := 0;
    if op.Identity().ByKey? {
      key := op.Identity().key;
      LookupRefreshes(t, key, op.at, ttl);
    } else {
      n := ScanSettles(t, op.user, op.Identity().messages, credential, op.at, ttl);
      key := Chain(op.user, op.Identity().messages[..n]);
    }
  }

  /** A hit renews the pin: the same request is answered the same up to a full time
      to live after it, and in a table of the program's own no longer. */
  lemma PinRefreshes(t: Table, op: Op, credential: string, ttl: real, maxEntries: nat, at: real)
    requires op.Pin? && PinAnswer(t, op, ttl) == Some(credential)
    ensures at < op.at + ttl ==> PinAnswer(Step(t, op, ttl, maxEntries), Again(op, at), ttl) == Some(credential)
    ensures Invariant(t, op.at, ttl, maxEntries) && op.at + ttl <= at ==>
              PinAnswer(Step(t, op, ttl, maxEntries), Again(op, at), ttl) == None
  {
    var key, n := HitSettles(t, op, credential, ttl, maxEntries);
    var t' := Step(t, op, ttl, maxEntries);
    if at < op.at + ttl {
      SettledLater(t', op, key, credential, op.at + ttl, n, ttl, at);
    } else if Invariant(t, op.at, ttl, maxEntries) {
      StepKeepsInvariant(t, op, ttl, maxEntries);
      NothingOutlives(t', Again(op, at), op.at, ttl);
    }
  }

  lemma NothingOutlives(t: Table, op: Op, now: real, ttl: real)
    requires ByRecency(t, now, ttl) && now + ttl <= op.at
    ensures PinAnswer(t, op, ttl) == None
  {
    forall key ensures Live(t, key, op.at) == None {
      FindKey(t, key);
    }
    if op.Identity().ByMessages? {
      LongestLiveIsAPrefix(t, op.user, op.Identity().messages, op.at);
    }
  }

  lemma EvictKeepsLastTwo(t: Table, d: Entry, e: Entry, now: real, maxEntries: nat) returns (rest: Table)
    requires now < d.expires && now < e.expires && maxEntries >= 2
    ensures Evict(t + [d] + [e], now, maxEntries) == rest + [d] + [e]
  {
    NotExpiredSnoc(t, d, now);
    NotExpiredSnoc(t + [d], e, now);
    var live := NotExpired(t, now);
    if |t + [d] + [e]| <= maxEntries {
      rest := t;
    } else if |live + [d] + [e]| <= maxEntries {
      rest := live;
    } else {
      rest := live[|live| + 2 - maxEntries..];
    }
  }

  lemma EvictKeepsAbsence(t: Table, key: Digest, now: real, maxEntries: nat)
    requires Find(t, key) == None
    ensures Find(Evict(t, now, maxEntries), key) == None
  {
    EvictIsSubset(t, now, maxEntries);
    AbsentKey(t, key);
    AbsentKey(Evict(t, now, maxEntries), key);
  }

  lemma NewestSurvives(t: Table, key: Digest, credential: string, at: real, other: Digest, served: string,
                       now: real, ttl: real, maxEntries: nat)
    requires NewestIs(t, key, credential, at, ttl) && other != key && at <= now < at + ttl && maxEntries >= 2
    ensures Find(Evict(Touch(t, other, served, now, ttl), now, maxEntries), key) == Some(Entry(key, credential, at + ttl))
  {
    var before, d, e := t[..|t| - 1], t[|t| - 1], Entry(other, served, now + ttl);
    assert t == before + [d];
    WithoutSnoc(before, d, other);
    var rest := EvictKeepsLastTwo(Without(before, other), d, e, now, maxEntries);
    FindSnoc(rest + [d], e, key);
    FindSnoc(rest, d, key);
  }

  lemma RememberKeepsAbsence(t: Table, k: Digest, served: string, absent: Digest, now: real, ttl: real, maxEntries: nat)
    requires absent != k && Find(t, absent) == None
    ensures Find(Evict(Touch(t, k, served, now, ttl), now, maxEntries), absent) == None
  {
    FindTouch(t, k, served, now, ttl, absent);
    EvictKeepsAbsence(Touch(t, k, served, now, ttl), absent, now, maxEntries);
  }

  lemma RememberKeepsSettled(t: Table, op: Op, key: Digest, n: nat, credential: string, at: real,
                             k: Digest, served: string, now: real, ttl: real, maxEntries: nat)
    requires Settled(t, op, key, credential, at + ttl, n) && NewestIs(t, key, credential, at, ttl) && Consults(op, key)
    requires !Consults(op, k) && at <= now < at + ttl && maxEntries >= 2
    ensures Settled(Evict(Touch(t, k, served, now, ttl), now, maxEntries), op, key, credential, at + ttl, n)
  {
    NewestSurvives(t, key, credential, at, k, served, now, ttl, maxEntries);
    if op.Identity().ByMessages? {
      var messages := op.Identity().messages;
      forall m | n < m <= |messages|
        ensures Find(Evict(Touch(t, k, served, now, ttl), now, maxEntries), Chain(op.user, messages[..m])) == None
      {
        RememberKeepsAbsence(t, k, served, Chain(op.user, messages[..m]), now, ttl, maxEntries);
      }
    }
  }

  /** A conversation in use is not pushed out: after a hit, remembering a request
      that has nothing to do with it changes nothing for it. */
  lemma ConversationInUseStays(t: Table, op: Op, other: Op, credential: string, ttl: real, maxEntries: nat, at: real)
    requires op.Pin? && PinAnswer(t, op, ttl) == Some(credential) && maxEntries >= 2
    requires other.Remember? && (other.Key().Some? ==> !Consults(op, other.Key().value))
    requires op.at <= other.at < op.at + ttl && at < op.at + ttl
    ensures PinAnswer(Step(Step(t, op, ttl, maxEntries), other, ttl, maxEntries), Again(op, at), ttl) == Some(credential)
  {
    var key, n := HitSettles(t, op, credential, ttl, maxEntries);
    var t' := Step(t, op, ttl, maxEntries);
    if other.Key().Some? {
      RememberKeepsSettled(t', op, key, n, credential, op.at, other.Key().value, other.credential, other.at, ttl, maxEntries);
    }
    SettledLater(Step(t', other, ttl, maxEntries), op, key, credential, op.at + ttl, n, ttl, at);
  }

  /** And a request that has been served is pinned, for a full time to live. */
  lemma ServedIsPinned(t: Table, served: Op, again: Op, ttl: real, maxEntries: nat)
    requires served.Remember? && again.Pin? && ttl > 0.0 && maxEntries > 0 && !served.Identity().Unidentified?
    requires again.req == served.req && again.header == served.header && again.user == served.user
    requires again.at < served.at + ttl
    ensures PinAnswer(Step(t, served, ttl, maxEntries), again, ttl) == Some(served.credential)
  {
    RememberedSurvives(t, served.Key().value, served.credential, served.at, ttl, maxEntries);
    if served.Identity().ByMessages? {
      assert served.Identity().messages != [];
    }
  }

  // ------------------------------------------- exact reach of the separator

  /** A key as a request body can produce it. */
  ghost predicate BodyKey(key: string) {
    exists name, value :: BodyKeyOf(key, name, value)
  }

  predicate BodyKeyOf(key: string, name: string, value: string) {
    name in EXPLICIT_KEYS && value != "" && Stripped(value) && key == name + ":" + value
  }

  /** v's name continues u's with a separator and the beginning of a key. */
  ghost predicate Tangled(u: string, v: string) {
    exists name, rest :: TangledBy(u, v, name, rest)
  }

  predicate TangledBy(u: string, v: string, name: string, rest: string) {
    name in EXPLICIT_KEYS && (rest == "" || !IsSpace(rest[0])) && v == u + "|" + name + ":" + rest
  }

  /** Whenever the names are tangled, some pair of ordinary keys of the two users
      is stored under one entry. */
  lemma TangledUsersCollide(u: string, v: string)
    requires Tangled(u, v)
    ensures exists k, l :: BodyKey(k) && BodyKey(l) && Mix(u, k) == Mix(v, l)
  {
    var name, rest :| TangledBy(u, v, name, rest);
    var l := SomeBodyKey();
    var value := rest + "|" + l;
    var k := name + ":" + value;
    assert BodyKeyOf(k, name, value) by {
      assert Stripped(value) by {
        assert value[|value| - 1] == l[|l| - 1];
      }
    }
    Regroup("explicit|", u, "|", name, ":", rest, l);
    assert Mix(u, k) == Mix(v, l);
  }

  lemma SomeBodyKey() returns (key: string)
    ensures BodyKey(key) && key != "" && !IsSpace(key[|key| - 1])
  {
    key := EXPLICIT_KEYS[3] + ":" + "s";
    assert Stripped("s");
    assert BodyKeyOf(key, EXPLICIT_KEYS[3], "s");
    assert key[|key| - 1] == 's';
  }

  lemma Regroup(p: string, u: string, bar: string, name: string, colon: string, rest: string, l: string)
    ensures p + (u + bar + name + colon + rest) + bar + l == p + u + bar + (name + colon + (rest + bar + l))
  {
    var head, tail := u + bar + name + colon, rest + bar + l;
    assert head + rest + bar + l == head + tail;
    assert head + tail == u + bar + (name + colon + tail);
  }

  lemma KeyNamesHaveNoSeparator(name: string)
    requires name in EXPLICIT_KEYS
    ensures '|' !in name
  {
  }

  /** Equal texts of different users: the longer name continues the shorter. */
  lemma Overlap(u: string, k: string, v: string, l: string) returns (x: string)
    requires u != v && |u| <= |v| && Mix(u, k) == Mix(v, l)
    ensures v == u + "|" + x && k == x + "|" + l
  {
    MixInjective(u, k, v, l);
    x := v[|u| + 1..];
    assert v == u + "|" + x;
    assert Mix(v, l)[9 + |u| + 1..] == x + "|" + l;
    assert Mix(u, k)[9 + |u| + 1..] == k;
  }

  lemma KeyStart(x: string, l: string, name: string, value: string) returns (rest: string)
    requires '|' !in name && x + "|" + l == name + ":" + value
    ensures x == name + ":" + rest && value == rest + "|" + l
  {
    var k := x + "|" + l;
    assert k[|x|] == '|';
    assert forall j :: 0 <= j <= |name| ==> k[j] == (name + ":")[j] && k[j] != '|';
    rest := x[|name| + 1..];
    assert k[..|name| + 1] == name + ":" && k[..|name| + 1] == x[..|name| + 1];
    assert k[|name| + 1..] == value && k[|name| + 1..] == rest + "|" + l;
  }

  /** And only then: entries of two users whose names are not tangled never meet. */
  lemma CollidingUsersAreTangled(u: string, k: string, v: string, l: string)
    requires u != v && |u| <= |v| && BodyKey(k) && Mix(u, k) == Mix(v, l)
    ensures Tangled(u, v)
  {
    var x := Overlap(u, k, v, l);
    var name, value :| BodyKeyOf(k, name, value);
    KeyNamesHaveNoSeparator(name);
    var rest := KeyStart(x, l, name, value);
    assert rest != "" ==> rest[0] == value[0];
    assert TangledBy(u, v, name, rest);
  }

  /** What a pin may rest on: the same user was served by the credential for the
      same explicit key, or for a conversation this one continues. */
  ghost predicate Justifies(earlier: Op, op: Op, credential: string) {
    && earlier.Remember? && earlier.user == op.user && earlier.credential == credential
    && ((op.Identity().ByKey? && earlier.Key() == Some(op.Identity().key))
        || (op.Identity().ByMessages? && earlier.Identity().ByMessages?
            && earlier.Identity().messages <= op.Identity().messages))
  }

  /** A key that a request can produce: from its body, or from the session header,
      whose texts cannot contain the separator. */
  ghost predicate RequestKey(key: string) { BodyKey(key) || '|' !in key }

  lemma {:induction false} FirstInForm(containers: seq<Fields>, name: string)
    requires name in EXPLICIT_KEYS
    ensures FirstIn(containers, name).Some? ==> BodyKey(FirstIn(containers, name).value)
  {
    if containers != [] {
      FirstInForm(containers[1..], name);
      if NonEmpty(containers[0], name).Some? {
        var value := NonEmpty(containers[0], name).value;
        StripEffect(containers[0][name].text);
        assert BodyKeyOf(name + ":" + value, name, value);
      }
    }
  }

  lemma {:induction false} FirstNamedForm(containers: seq<Fields>, names: seq<string>)
    requires forall i :: 0 <= i < |names| ==> names[i] in EXPLICIT_KEYS
    ensures FirstNamed(containers, names).Some? ==> BodyKey(FirstNamed(containers, names).value)
  {
    if names != [] {
      FirstInForm(containers, names[0]);
      FirstNamedForm(containers, names[1..]);
    }
  }

  lemma HeaderForm(header: Option<string>)
    ensures SanitizeSessionId(header).Some? ==> '|' !in "header:" + SanitizeSessionId(header).value
  {
    if SanitizeSessionId(header).Some? {
      var id := SanitizeSessionId(header).value;
      assert !SessionIdChar('|');
      assert forall i :: 0 <= i < |id| ==> id[i] != '|';
    }
  }

  lemma KeyOfKind(op: Op) returns (k: string)
    ensures op.Identity().ByKey? ==> op.Identity().key == Explicit(Mix(op.user, k)) && RequestKey(k)
    ensures op.Identity().ByMessages? ==> op.Identity().messages != []
  {
    k := "";
    if op.Identity().ByKey? {
      k := ResolveExplicit(op.req, op.header).value;
      FirstNamedForm(Containers(op.req), EXPLICIT_KEYS);
      HeaderForm(op.header);
    }
  }

  /** Names of which neither continues the other as far as a key. */
  ghost predicate Apart(u: string, v: string) { !Tangled(u, v) && !Tangled(v, u) }

  lemma KeysStayApart(u: string, k: string, v: string, l: string)
    requires Apart(u, v) && RequestKey(k) && RequestKey(l) && Mix(u, k) == Mix(v, l)
    ensures u == v
  {
    if u != v && |u| <= |v| {
      ShorterIsTangled(u, k, v, l);
    } else if u != v {
      ShorterIsTangled(v, l, u, k);
    }
  }

  lemma ShorterIsTangled(u: string, k: string, v: string, l: string)
    requires u != v && |u| <= |v| && RequestKey(k) && Mix(u, k) == Mix(v, l)
    ensures Tangled(u, v)
  {
    var x := Overlap(u, k, v, l);
    assert k[|x|] == '|';
    CollidingUsersAreTangled(u, k, v, l);
  }

  /** In every run, a pinned credential served the same user before, under the
      same explicit key or on a prefix of the same conversation, provided that no
      two of the names are tangled: nothing leaks, and nothing is invented. */
  lemma PinsAreJustified(run: seq<Op>, op: Op, ttl: real, maxEntries: nat, credential: string)
    requires op.Pin? && PinAnswer(Exec(run, ttl, maxEntries), op, ttl) == Some(credential)
    requires forall i :: 0 <= i < |run| ==> Apart(run[i].user, op.user)
    ensures exists i :: 0 <= i < |run| && Justifies(run[i], op, credential)
  {
    var t := Exec(run, ttl, maxEntries);
    EntriesAreRemembered(run, ttl, maxEntries);
    var key: Digest;
    if op.Identity().ByKey? {
      key := op.Identity().key;
    } else {
      var messages := op.Identity().messages;
      LongestLiveIsAPrefix(t, op.user, messages, op.at);
      var n :| 0 < n <= |messages| && Live(t, Chain(op.user, messages[..n]), op.at) == Some(credential);
      key := Chain(op.user, messages[..n]);
    }
    FindKey(t, key);
    assert Remembered(run, key, credential);
    var i :| 0 <= i < |run| && run[i].Remember? && run[i].Key() == Some(key) && run[i].credential == credential;
    SameKeySameUser(run[i], op, key);
  }

  lemma SameKeySameUser(earlier: Op, op: Op, key: Digest)
    requires Apart(earlier.user, op.user) && earlier.Key() == Some(key)
    requires (op.Identity().ByKey? && key == op.Identity().key) ||
             (op.Identity().ByMessages? &&
              exists n :: 0 < n <= |op.Identity().messages| && key == Chain(op.user, op.Identity().messages[..n]))
    ensures earlier.user == op.user
    ensures op.Identity().ByMessages? ==>
              earlier.Identity().ByMessages? && earlier.Identity().messages <= op.Identity().messages
  {
    var l := KeyOfKind(earlier);
    var k := KeyOfKind(op);
    if op.Identity().ByKey? {
      if earlier.Identity().ByKey? {
        KeysStayApart(earlier.user, l, op.user, k);
      }
    } else {
      var n :| 0 < n <= |op.Identity().messages| && key == Chain(op.user, op.Identity().messages[..n]);
      if earlier.Identity().ByMessages? {
        ChainInjective(earlier.user, earlier.Identity().messages, op.user, op.Identity().messages[..n]);
      }
    }
  }

  lemma TangledHasSeparator(u: string, v: string)
    requires Tangled(u, v)
    ensures '|' in v
  {
    var name, rest :| TangledBy(u, v, name, rest);
    assert v[|u|] == '|';
  }

  /** Names without the separator are apart. */
  lemma PlainNamesAreApart(u: string, v: string)
    requires '|' !in u && '|' !in v
    ensures Apart(u, v)
  {
    if Tangled(u, v) {
      TangledHasSeparator(u, v);
    }
    if Tangled(v, u) {
      TangledHasSeparator(v, u);
    }
  }

  /** A request whose body carries exactly the given key. */
  lemma RequestWithKey(key: string) returns (req: Request)
    requires BodyKey(key)
    ensures req.Object? && ResolveExplicit(req, None) == Some(key)
  {
    var name, value :| BodyKeyOf(key, name, value);
    var fields: Fields := map[name := Str(value)];
    req := Object(None, fields, None);
    StripOfStripped(value);
    assert NonEmpty(fields, name) == Some(value);
    OnlyField([fields], name, value, EXPLICIT_KEYS);
  }

  lemma StripOfStripped(value: string)
    requires Stripped(value)
    ensures Strip(value) == value
  {
    StripEffect(value);
  }

  lemma {:induction false} OnlyField(containers: seq<Fields>, name: string, value: string, names: seq<string>)
    requires |containers| == 1 && containers[0].Keys == {name} && NonEmpty(containers[0], name) == Some(value)
    requires name in names
    ensures FirstNamed(containers, names) == Some(name + ":" + value)
  {
    if names[0] != name {
      assert NonEmpty(containers[0], names[0]) == None;
      assert FirstIn(containers[1..], names[0]) == None;
      OnlyField(containers, name, value, names[1..]);
    }
  }

  lemma SameKeyLeaks(asker: string, k: string, server: string, l: string, credential: string, ttl: real, maxEntries: nat)
    returns (earlier: Op, op: Op)
    requires BodyKey(k) && BodyKey(l) && Mix(asker, k) == Mix(server, l) && ttl > 0.0 && maxEntries > 0
    ensures earlier.Remember? && earlier.user == server && op.Pin? && op.user == asker
    ensures PinAnswer(Exec([earlier], ttl, maxEntries), op, ttl) == Some(credential)
  {
    var asked := RequestWithKey(k);
    var served := RequestWithKey(l);
    earlier, op := Remember(served, None, server, credential, 0.0), Pin(asked, None, asker, 0.0);
    var key := Explicit(Mix(asker, k));
    assert earlier.Key() == Some(key) && op.Identity() == ByKey(key);
    assert [earlier][..0] == [];
    assert Exec([earlier], ttl, maxEntries) == Evict(Touch([], key, credential, 0.0, ttl), 0.0, maxEntries);
    RememberedSurvives([], key, credential, 0.0, ttl, maxEntries);
  }

  /** And whenever two names are tangled, either user's request can be pinned to a
      credential that has only ever served the other. */
  lemma TangledNamesLeak(asker: string, server: string, credential: string, ttl: real, maxEntries: nat)
    returns (earlier: Op, op: Op)
    requires !Apart(asker, server) && ttl > 0.0 && maxEntries > 0
    ensures earlier.Remember? && earlier.user == server && op.Pin? && op.user == asker != server
    ensures PinAnswer(Exec([earlier], ttl, maxEntries), op, ttl) == Some(credential)
  {
    if Tangled(asker, server) {
      TangledNamesDiffer(asker, server);
      TangledUsersCollide(asker, server);
      var k, l :| BodyKey(k) && BodyKey(l) && Mix(asker, k) == Mix(server, l);
      earlier, op := SameKeyLeaks(asker, k, server, l, credential, ttl, maxEntries);
    } else {
      TangledNamesDiffer(server, asker);
      TangledUsersCollide(server, asker);
      var k, l :| BodyKey(k) && BodyKey(l) && Mix(server, k) == Mix(asker, l);
      earlier, op := SameKeyLeaks(asker, l, server, k, credential, ttl, maxEntries);
    }
  }

  lemma TangledNamesDiffer(u: string, v: string)
    requires Tangled(u, v)
    ensures u != v
  {
    var name, rest :| TangledBy(u, v, name, rest);
    assert |u| < |v|;
  }

  // -------------------------------------------------------- next turn sticks

  /** The next turn of a conversation gets the credential that served this one,
      unless a longer prefix of it has a live entry of its own. */
  lemma NextTurnSticks(t: Table, user: string, messages: seq<string>, more: seq<string>, credential: string,
                       at: real, now: real, ttl: real, maxEntries: nat)
    requires ttl > 0.0 && maxEntries > 0 && messages != [] && at <= now < at + ttl
    ensures
      var t' := Evict(Touch(t, Chain(user, messages), credential, at, ttl), at, maxEntries);
      (forall n :: |messages| < n <= |messages + more| ==> Live(t', Chain(user, (messages + more)[..n]), now) == None) ==>
        LongestLive(t', user, messages + more, now) == Some(credential)
  {
    var t' := Evict(Touch(t, Chain(user, messages), credential, at, ttl), at, maxEntries);
    RememberedSurvives(t, Chain(user, messages), credential, at, ttl, maxEntries);
    var all := messages + more;
    assert all[..|messages|] == messages;
    LongestLiveIsAPrefix(t', user, all, now);
    assert Live(t', Chain(user, all[..|messages|]), now) == Some(credential);
  }

  /** Answering a question about one conversation changes no other answer. */
  lemma PinKeepsAnswers(t: Table, op: Op, ttl: real, maxEntries: nat, other: Digest)
    requires op.Pin?
    ensures Live(Step(t, op, ttl, maxEntries), other, op.at) == Live(t, other, op.at)
  {
    if ttl > 0.0 {
      match op.Identity()
      case ByKey(key) => LookupKeepsAnswers(t, key, op.at, ttl, other);
      case ByMessages(messages) => ScanKeepsAnswers(t, op.user, messages, |messages|, op.at, ttl, other);
      case Unidentified =>
    }
  }

  /** So asking twice, or asking about two conversations in either order, gives
      the same answers. */
  lemma PinIsRepeatable(t: Table, op: Op, next: Op, ttl: real, maxEntries: nat)
    requires op.Pin? && next.Pin? && next.at == op.at
    ensures PinAnswer(Step(t, op, ttl, maxEntries), next, ttl) == PinAnswer(t, next, ttl)
  {
    var t' := Step(t, op, ttl, maxEntries);
    forall key ensures Live(t', key, op.at) == Live(t, key, op.at) {
      PinKeepsAnswers(t, op, ttl, maxEntries, key);
    }
    if next.Identity().ByMessages? {
      ScanKeepsLongest(t, t', next.user, next.Identity().messages, next.at);
    }
  }

  // --------------------------------------------------------------- objects

  class ConversationAffinity {
    const maxEntries: nat
    var entries: Table

    constructor (maxEntries: nat)
      ensures this.maxEntries == maxEntries && entries == []
    {
      this.maxEntries, entries := maxEntries, [];
    }

    method Delete(key: Digest)
      modifies this
      ensures entries == Without(old(entries), key)
    {
      var kept: Table := [];
      for i := 0 to |entries|
        invariant entries == old(entries) && kept == Without(entries[..i], key)
      {
        assert entries[..i + 1][..i] == entries[..i];
        if entries[i].key != key {
          kept := kept + [entries[i]];
        }
      }
      assert entries[..|entries|] == entries;
      entries := kept;
    }

    method DoTouch(key: Digest, credential: string, now: real, ttl: real)
      modifies this
      ensures entries == Touch(old(entries), key, credential, now, ttl)
    {
      Delete(key);
      entries := entries + [Entry(key, credential, now + ttl)];
    }

    method DoLookup(key: Digest, now: real, ttl: real) returns (credential: Option<string>)
      modifies this
      ensures entries == Lookup(old(entries), key, now, ttl)
      ensures credential == Live(old(entries), key, now)
    {
      var found := Find(entries, key);
      if found.None? {
        return None;
      }
      if found.value.expires <= now {
        Delete(key);
        return None;
      }
      DoTouch(key, found.value.credential, now, ttl);
      credential := Some(found.value.credential);
    }

    /** One fingerprint per prefix, each computed from the previous one. */
    method ChainDigests(messages: seq<string>, user: string) returns (digests: seq<Digest>)
      ensures |digests| == |messages| && forall n :: 0 <= n < |messages| ==> digests[n] == Chain(user, messages[..n + 1])
    {
      var chain := Seed(user);
      digests := [];
      for i := 0 to |messages|
        invariant chain == Chain(user, messages[..i])
        invariant |digests| == i && forall n :: 0 <= n < i ==> digests[n] == Chain(user, messages[..n + 1])
      {
        assert messages[..i + 1][..i] == messages[..i];
        chain := Link(chain, messages[i]);
        digests := digests + [chain];
      }
    }

    /** Scans all prefixes, the last hit wins. */
    method PinChain(messages: seq<string>, user: string, now: real, ttl: real) returns (pinned: Option<string>)
      requires ttl > 0.0
      modifies this
      ensures entries == Scanned(old(entries), user, messages, |messages|, now, ttl)
      ensures pinned == LongestLive(old(entries), user, messages, now)
    {
      var digests := ChainDigests(messages, user);
      pinned := None;
      for i := 0 to |messages|
        invariant entries == Scanned(old(entries), user, messages, i, now, ttl)
        invariant pinned == LongestLive(old(entries), user, messages[..i], now)
      {
        assert messages[..i + 1][..i] == messages[..i];
        ScanKeepsAnswers(old(entries), user, messages, i, now, ttl, digests[i]);
        var credential := DoLookup(digests[i], now, ttl);
        if credential.Some? {
          pinned := credential;
        }
      }
      assert messages[..|messages|] == messages;
    }

    method DoEvict(now: real)
      modifies this
      ensures entries == Evict(old(entries), now, maxEntries)
    {
      if |entries| <= maxEntries {
        return;
      }
      var kept: Table := [];
      for i := 0 to |entries|
        invariant entries == old(entries) && kept == NotExpired(entries[..i], now)
      {
        assert entries[..i + 1][..i] == entries[..i];
        if now < entries[i].expires {
          kept := kept + [entries[i]];
        }
      }
      assert entries[..|entries|] == entries;
      entries := kept;
      ghost var dropped := 0;
      while |entries| > maxEntries
        invariant dropped <= |kept| && entries == kept[dropped..]
        invariant dropped == 0 || |entries| >= maxEntries
      {
        assert kept[dropped..][1..] == kept[dropped + 1..];
        entries, dropped := entries[1..], dropped + 1;
      }
    }

    method PinFor(req: Request, header: Option<string>, user: string, now: real, ttl: real) returns (credential: Option<string>)
      modifies this
      ensures entries == Step(old(entries), Pin(req, header, user, now), ttl, maxEntries)
      ensures credential == PinAnswer(old(entries), Pin(req, header, user, now), ttl)
    {
      if ttl <= 0.0 || req.NotAnObject? {
        return None;
      }
      var explicit := ResolveExplicit(req, header);
      if explicit.Some? {
        credential := DoLookup(Explicit(Mix(user, explicit.value)), now, ttl);
        return;
      }
      if HasUserId(req) || req.messages.None? || req.messages.value == [] {
        return None;
      }
      credential := PinChain(req.messages.value, user, now, ttl);
    }

    method RememberServed(req: Request, header: Option<string>, user: string, credential: string, now: real, ttl: real)
      modifies this
      ensures entries == Step(old(entries), Remember(req, header, user, credential, now), ttl, maxEntries)
    {
      if ttl <= 0.0 || req.NotAnObject? {
        return;
      }
      var explicit := ResolveExplicit(req, header);
      if explicit.Some? {
        DoTouch(Explicit(Mix(user, explicit.value)), credential, now, ttl);
        DoEvict(now);
        return;
      }
      if HasUserId(req) || req.messages.None? || req.messages.value == [] {
        return;
      }
      var messages := req.messages.value;
      var digests := ChainDigests(messages, user);
      assert messages[..|messages|] == messages;
      DoTouch(digests[|digests| - 1], credential, now, ttl);
      DoEvict(now);
    }
  }
}
