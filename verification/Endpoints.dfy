/** The two-layer lease protocol of the request exits (src/api/endpoints.py and
    the keep-alive exit in src/api/streaming.py): every request takes a key
    lease and a user lease and has to give both back. */
module Endpoints {
  import opened KeyQuota

  /** Awaiting: the completion is still being computed. Unread: a streaming
      body was handed to the server, which has not pulled its first frame.
      Reading: the body generator has been entered. Closed: nothing more runs. */
  datatype Phase = Awaiting | Unread | Reading | Closed

  /** How the steps between admission and the response go. The translators in use
      only assign fields; one that raises is the case no handler covers. */
  datatype Checks = Checks(stream: bool, preflightFails: bool, translatorFails: bool)

  datatype Outcome =
    | KeyRefused(verdict: Verdict)
    | UserRefused(verdict: Verdict)
    | PreflightFailed
    | TranslatorFailed
    | Opened

  /** The key layer decides first; only what it admits reaches the user layer. */
  function Decide(key: (Guard, Verdict), user: (Guard, Verdict)): Outcome {
    if key.1.Refused? then KeyRefused(key.1) else if user.1.Refused? then UserRefused(user.1) else Opened
  }

  /** The key guard afterwards: a refusal of the user layer returns the slot, if
      one was taken, but not the place in the window. */
  function KeyAfter(key: (Guard, Verdict), user: (Guard, Verdict), id: string): Guard {
    if key.1 == Admitted(true) && user.1.Refused? then AfterRelease(key.0, id) else key.0
  }

  /** A request in progress and its combined lease. */
  class Reply {
    const keyLease: Lease
    const userLease: Lease
    var phase: Phase

    constructor (keyLease: Lease, userLease: Lease, phase: Phase)
      ensures this.keyLease == keyLease && this.userLease == userLease && this.phase == phase
    {
      this.keyLease, this.userLease, this.phase := keyLease, userLease, phase;
    }
  }

  ghost function KeyLeases(replies: set<Reply>): set<Lease> {
    set r | r in replies && r.keyLease.counted :: r.keyLease
  }

  ghost function UserLeases(replies: set<Reply>): set<Lease> {
    set r | r in replies && r.userLease.counted :: r.userLease
  }

  ghost predicate Separate(replies: set<Reply>) {
    forall r, q :: r in replies && q in replies && r != q ==> r.keyLease != q.keyLease && r.userLease != q.userLease
  }

  lemma LeasesWithout(replies: set<Reply>, reply: Reply)
    requires reply in replies && Separate(replies)
    ensures KeyLeases(replies - {reply}) == KeyLeases(replies) - {reply.keyLease}
    ensures UserLeases(replies - {reply}) == UserLeases(replies) - {reply.userLease}
  {
  }

  class Gateway {
    const keyGuard: KeyQuotaGuard
    const userGuard: KeyQuotaGuard
    /** Requests whose leases have not been given back, and those among them
        that no code path will ever give back. */
    ghost var holders: set<Reply>
    ghost var stranded: set<Reply>

    /** Both guards count exactly the leases of the holders. */
    ghost predicate Valid()
      reads this, keyGuard, userGuard, keyGuard.outstanding, userGuard.outstanding, holders, Locks()
    {
      && keyGuard != userGuard && keyGuard.Valid() && userGuard.Valid()
      && keyGuard.outstanding == KeyLeases(holders)
      && userGuard.outstanding == UserLeases(holders)
      && Separate(holders)
      && stranded <= holders
      && (forall r :: r in holders ==>
            && r.keyLease.guard == keyGuard && r.userLease.guard == userGuard
            && !r.keyLease.released && !r.userLease.released
            && (r in stranded <==> r.phase == Closed))
    }

    ghost function Locks(): set<Lease> reads this {
      (set r | r in holders :: r.keyLease) + (set r | r in holders :: r.userLease)
    }

    constructor (keyGuard: KeyQuotaGuard, userGuard: KeyQuotaGuard)
      requires keyGuard != userGuard && keyGuard.Valid() && userGuard.Valid()
      requires keyGuard.outstanding == {} && userGuard.outstanding == {}
      ensures Valid() && holders == {} && stranded == {}
      ensures this.keyGuard == keyGuard && this.userGuard == userGuard
    {
      this.keyGuard, this.userGuard, holders, stranded := keyGuard, userGuard, {}, {};
    }

    /** The combined release: both layers, whichever of them counted. */
    method GiveBack(reply: Reply)
      requires Valid() && reply in holders && reply !in stranded
      modifies this, keyGuard, userGuard, reply, reply.keyLease, reply.userLease
      ensures Valid() && holders == old(holders) - {reply} && stranded == old(stranded)
      ensures reply.phase == Closed && reply.keyLease.released && reply.userLease.released
      ensures keyGuard.outstanding == old(keyGuard.outstanding) - {reply.keyLease}
      ensures userGuard.outstanding == old(userGuard.outstanding) - {reply.userLease}
    {
      LeasesWithout(holders, reply);
      reply.keyLease.Release();
      reply.userLease.Release();
      reply.phase := Closed;
      holders := holders - {reply};
    }

    /** Key layer first, then user layer; a user-layer refusal returns the key
        slot. Both leases are new, so nobody else can hold them. */
    method AdmitBoth(keyReq: Request, userReq: Request)
      returns (outcome: Outcome, keyLease: Lease?, userLease: Lease?)
      requires Valid()
      modifies keyGuard, userGuard
      ensures keyGuard.Valid() && userGuard.Valid()
      ensures
        var key := Admission(old(keyGuard.Model()), keyGuard.width, keyReq);
        var user := Admission(old(userGuard.Model()), userGuard.width, userReq);
        && outcome == Decide(key, user) && keyGuard.Model() == KeyAfter(key, user, keyReq.key)
        && userGuard.Model() == if outcome.KeyRefused? then old(userGuard.Model()) else user.0
      ensures !outcome.Opened? ==>
        && Valid()
        && userGuard.outstanding == old(userGuard.outstanding) && keyGuard.outstanding == old(keyGuard.outstanding)
      ensures outcome.Opened? ==>
        && keyLease != null && userLease != null && fresh(keyLease) && fresh(userLease)
        && keyLease.guard == keyGuard && userLease.guard == userGuard
        && keyLease.key == keyReq.key && userLease.key == userReq.key
        && !keyLease.released && !userLease.released
        && keyGuard.outstanding == old(keyGuard.outstanding) + (if keyLease.counted then {keyLease} else {})
        && userGuard.outstanding == old(userGuard.outstanding) + (if userLease.counted then {userLease} else {})
    {
      var verdict;
      userLease := null;
      verdict, keyLease := keyGuard.Admit(keyReq);
      if verdict.Refused? {
        return KeyRefused(verdict), null, null;
      }
      verdict, userLease := userGuard.Admit(userReq);
      if verdict.Refused? {
        keyLease.Release();
        return UserRefused(verdict), null, null;
      }
      outcome := Opened;
    }

    /** Admission of a request, entered into the books when both layers agree. */
    method Book(keyReq: Request, userReq: Request, phase: Phase) returns (outcome: Outcome, reply: Reply?)
      requires Valid() && phase != Closed
      modifies this, keyGuard, userGuard
      ensures Valid() && stranded == old(stranded)
      ensures outcome == Decide(Admission(old(keyGuard.Model()), keyGuard.width, keyReq),
                                Admission(old(userGuard.Model()), userGuard.width, userReq))
      ensures !outcome.Opened? ==>
        && reply == null && holders == old(holders)
        && keyGuard.outstanding == old(keyGuard.outstanding) && userGuard.outstanding == old(userGuard.outstanding)
      ensures outcome.Opened? ==>
        && reply != null && fresh(reply) && fresh(reply.keyLease) && fresh(reply.userLease)
        && holders == old(holders) + {reply} && reply.phase == phase
        && reply.keyLease.key == keyReq.key && reply.userLease.key == userReq.key
        && keyGuard.outstanding - {reply.keyLease} == old(keyGuard.outstanding)
        && userGuard.outstanding - {reply.userLease} == old(userGuard.outstanding)
    {
      var keyLease, userLease;
      outcome, keyLease, userLease := AdmitBoth(keyReq, userReq);
      reply := null;
      if outcome.Opened? {
        reply := new Reply(keyLease, userLease, phase);
        holders := holders + {reply};
      }
    }

    /** From admission to the point where the request waits for its upstream.
        Every refusal and a failed preflight leave both guards with the leases
        they had; a failing translator strands the new request's leases. */
    method Open(keyReq: Request, userReq: Request, checks: Checks) returns (outcome: Outcome, reply: Reply?)
      requires Valid()
      modifies this, keyGuard, userGuard
      ensures Valid()
      ensures outcome ==
        var decided := Decide(Admission(old(keyGuard.Model()), keyGuard.width, keyReq),
                              Admission(old(userGuard.Model()), userGuard.width, userReq));
        if !decided.Opened? || !checks.stream then decided
        else if checks.preflightFails then PreflightFailed
        else if checks.translatorFails then TranslatorFailed
        else Opened
      ensures !outcome.Opened? && !outcome.TranslatorFailed? ==>
        && reply == null && holders == old(holders) && stranded == old(stranded)
        && keyGuard.outstanding == old(keyGuard.outstanding) && userGuard.outstanding == old(userGuard.outstanding)
      ensures outcome.Opened? || outcome.TranslatorFailed? ==>
        && reply != null && fresh(reply) && holders == old(holders) + {reply}
        && reply.keyLease.key == keyReq.key && reply.userLease.key == userReq.key
      ensures outcome.Opened? ==>
        stranded == old(stranded) && reply.phase == if checks.stream then Unread else Awaiting
      ensures outcome.TranslatorFailed? ==> stranded == old(stranded) + {reply}
    {
      outcome, reply := Book(keyReq, userReq, if checks.stream then Unread else Awaiting);
      if !outcome.Opened? || !checks.stream {
        return;
      }
      if checks.preflightFails {
        GiveBack(reply);
        return PreflightFailed, null;
      }
      if checks.translatorFails {
        reply.phase := Closed;
        stranded := stranded + {reply};
        outcome := TranslatorFailed;
      }
    }

    /** The awaited completion ends, with a result or with an exception. */
    method Complete(reply: Reply)
      requires Valid() && reply in holders && reply.phase == Awaiting
      modifies this, keyGuard, userGuard, reply, reply.keyLease, reply.userLease
      ensures Valid() && holders == old(holders) - {reply} && stranded == old(stranded)
    {
      GiveBack(reply);
    }

    /** The keep-alive grace period passes: the pending completion becomes a
        streaming body. */
    method Defer(reply: Reply)
      requires Valid() && reply in holders && reply.phase == Awaiting
      modifies reply`phase
      ensures Valid() && reply.phase == Unread
    {
      reply.phase := Unread;
    }

    /** The server pulls on the body; `ends` when the frames run out or raise. */
    method Pull(reply: Reply, ends: bool)
      requires Valid() && reply in holders && reply.phase in {Unread, Reading}
      modifies this, keyGuard, userGuard, reply, reply.keyLease, reply.userLease
      ensures Valid() && stranded == old(stranded)
      ensures holders == if ends then old(holders) - {reply} else old(holders)
      ensures reply.phase == if ends then Closed else Reading
    {
      reply.phase := Reading;
      if ends {
        GiveBack(reply);
      }
    }

    /** The body is closed early. Closing a generator that was entered runs its
        cleanup; closing one that was never entered runs nothing. */
    method Abort(reply: Reply)
      requires Valid() && reply in holders && reply.phase in {Unread, Reading}
      modifies this, keyGuard, userGuard, reply, reply.keyLease, reply.userLease
      ensures Valid() && reply.phase == Closed
      ensures old(reply.phase) == Reading ==> holders == old(holders) - {reply} && stranded == old(stranded)
      ensures old(reply.phase) == Unread ==> holders == old(holders) && stranded == old(stranded) + {reply}
    {
      if reply.phase == Reading {
        GiveBack(reply);
      } else {
        reply.phase := Closed;
        stranded := stranded + {reply};
      }
    }

    /** Once every request has finished, the in-flight counts consist of the
        stranded leases and nothing else; without those both layers are idle. */
    lemma Quiescent(key: string)
      requires Valid() && holders == stranded
      ensures keyGuard.Model().Inflight(key) == |Held(KeyLeases(stranded), key)|
      ensures userGuard.Model().Inflight(key) == |Held(UserLeases(stranded), key)|
      ensures stranded == {} ==> keyGuard.Model().Inflight(key) == 0 && userGuard.Model().Inflight(key) == 0
    {
      assert stranded == {} ==> Held(KeyLeases(stranded), key) == {} && Held(UserLeases(stranded), key) == {};
    }
  }
}
