/** api115/snap.go: `Client.List` over the proxy manager, retrying through fresh proxies. */
module Client {
  import opened Basics
  import opened Snapshots
  import opened Proxies

  /** How the reply to one request is classified. */
  datatype Body =
    | Listing(page: Page)
    | EmptyData(page: Page)
    | ProxyFailed(message: string)
    | OtherFailure(message: string)

  /** One reply: the cookies it sets, if it came at all, and what it says. */
  datatype Reply = Reply(setCookie: Option<string>, body: Body)

  /** What the world does at one turn of the loop. */
  datatype Turn = Turn(cancelled: bool, now: int, offers: seq<Offer>, reply: Reply)

  datatype ListError = Cancelled | PoolExhausted | Reported(body: Body)

  /** One request: through which proxy, with which cookie, and what was answered. */
  datatype Sent = Sent(proxyId: string, proxyUrl: string, cookie: string, body: Body)

  /** An empty list past the first page is the end of the directory. */
  predicate Accepted(body: Body, offset: nat) {
    body.Listing? || (body.EmptyData? && offset > 0)
  }

  function Answer(body: Body, offset: nat): Result<Page, ListError> {
    if Accepted(body, offset) then Ok(body.page) else Err(Reported(body))
  }

  /** A failure charged to a proxy: the only outcome after which a call goes on. */
  predicate ChargedFailure(sent: Sent) {
    sent.proxyId != "" && sent.body.ProxyFailed?
  }

  /** The pool after a turn that sent `sent`: a success or a charged failure is recorded, anything else is not. */
  function AfterRequest(cfg: Config, s: Pool, sent: Sent, offset: nat): Pool {
    if Accepted(sent.body, offset) then AfterSuccess(s, sent.proxyId)
    else if ChargedFailure(sent) then AfterFailure(cfg, s, sent.proxyId)
    else s
  }

  /** What is fixed for a call: the pool's settings and its state at the start, the page's offset, the answers. */
  datatype Call = Call(cfg: Config, pool: Pool, jar: Jar, offset: nat, world: nat -> Turn)

  /** The cookies a client has: its own, and those of the cookie store if there is one. */
  datatype Jar = Jar(cookie: string, stored: Option<string>)

  function Sendable(jar: Jar): string {
    if jar.stored.Some? && jar.stored.value != "" then jar.stored.value else jar.cookie
  }

  function Cleared(jar: Jar): Jar {
    Jar("", if jar.stored.Some? then Some("") else None)
  }

  /** A store keeps the cookies a reply sets; an empty first page makes all cookies go. */
  function AfterReply(jar: Jar, reply: Reply, offset: nat): Jar {
    var kept := if jar.stored.Some? && reply.setCookie.Some? then jar.(stored := reply.setCookie) else jar;
    if reply.body.EmptyData? && offset == 0 then Cleared(kept) else kept
  }

  /** The pool after the requests of `log`, each made in its turn. */
  function PoolAfter(c: Call, log: seq<Sent>): Pool {
    if log == [] then c.pool
    else
      var n := |log| - 1;
      var taken := Acquired(PoolAfter(c, log[..n]), c.world(n).now, c.world(n).offers);
      AfterRequest(c.cfg, taken, log[n], c.offset)
  }

  /** The cookies a request goes out with: a change of proxy drops them. */
  function JarFor(jar: Jar, log: seq<Sent>, proxyId: string): Jar {
    if log != [] && log[|log| - 1].proxyId != proxyId then Cleared(jar) else jar
  }

  function JarAfter(c: Call, log: seq<Sent>): Jar {
    if log == [] then c.jar
    else
      var n := |log| - 1;
      AfterReply(JarFor(JarAfter(c, log[..n]), log[..n], log[n].proxyId), c.world(n).reply, c.offset)
  }

  /** The pool as the next turn finds it grants nothing. */
  ghost predicate Refuses(c: Call, log: seq<Sent>) {
    Granted(PoolAfter(c, log), c.world(|log|).now, c.world(|log|).offers) == NoRef
  }

  /** `sent` is the request of the turn after `log`, which was not cancelled and was granted its proxy. */
  ghost predicate Sends(c: Call, log: seq<Sent>, sent: Sent) {
    var turn := c.world(|log|);
    && !turn.cancelled && sent.body == turn.reply.body
    && Granted(PoolAfter(c, log), turn.now, turn.offers) == Ref(sent.proxyId, sent.proxyUrl)
    && sent.cookie == Sendable(JarFor(JarAfter(c, log), log, sent.proxyId))
  }

  /** Each request is the one its turn makes, and every one but the last failed at its proxy. */
  ghost predicate SentInTurn(c: Call, log: seq<Sent>) {
    && (forall i :: 0 <= i < |log| ==> Sends(c, log[..i], log[i]))
    && (forall i :: 0 <= i < |log| - 1 ==> ChargedFailure(log[i]))
  }

  ghost predicate AllFailed(log: seq<Sent>) {
    forall i :: 0 <= i < |log| ==> ChargedFailure(log[i])
  }

  /** How a call ends after the requests of `log`, and the pool it leaves. */
  ghost predicate EndsWith(c: Call, log: seq<Sent>, r: Result<Page, ListError>, pool: Pool) {
    var n := |log|;
    if !AllFailed(log) then r == Answer(log[n - 1].body, c.offset) && pool == PoolAfter(c, log)
    else if c.world(n).cancelled then r == Err(Cancelled) && pool == PoolAfter(c, log)
    else
      && Refuses(c, log) && pool == Acquired(PoolAfter(c, log), c.world(n).now, c.world(n).offers)
      && r == if n == 0 then Err(PoolExhausted) else Err(Reported(log[n - 1].body))
  }

  /** A call that goes on after the requests of `log`. */
  ghost predicate Going(c: Call, log: seq<Sent>, pool: Pool, jar: Jar) {
    match pool
    case Pool(_, _, _) =>
      SentInTurn(c, log) && AllFailed(log) && pool == PoolAfter(c, log) && jar == JarAfter(c, log)
  }

  /** A call that is over. */
  ghost predicate Gone(c: Call, log: seq<Sent>, r: Result<Page, ListError>, pool: Pool, jar: Jar) {
    match pool
    case Pool(_, _, _) => SentInTurn(c, log) && EndsWith(c, log, r, pool) && jar == JarAfter(c, log)
  }

  /** A turn with a request either goes on or ends the call. */
  lemma TurnSent(c: Call, log: seq<Sent>, pool: Pool, jar: Jar, sent: Sent, pool': Pool, jar': Jar)
    requires Going(c, log, pool, jar) && !c.world(|log|).cancelled && sent.body == c.world(|log|).reply.body
    requires Granted(pool, c.world(|log|).now, c.world(|log|).offers) == Ref(sent.proxyId, sent.proxyUrl)
    requires sent.cookie == Sendable(JarFor(jar, log, sent.proxyId))
    requires pool' == AfterRequest(c.cfg, Acquired(pool, c.world(|log|).now, c.world(|log|).offers), sent, c.offset)
    requires jar' == AfterReply(JarFor(jar, log, sent.proxyId), c.world(|log|).reply, c.offset)
    ensures if ChargedFailure(sent) then Going(c, log + [sent], pool', jar')
            else Gone(c, log + [sent], Answer(sent.body, c.offset), pool', jar')
  {
    SentNext(c, log, sent);
    assert (log + [sent])[|log|] == sent;
  }

  lemma TurnEnds(c: Call, log: seq<Sent>, pool: Pool, jar: Jar, r: Result<Page, ListError>, pool': Pool)
    requires Going(c, log, pool, jar)
    requires if c.world(|log|).cancelled then r == Err(Cancelled) && pool' == pool
             else Granted(pool, c.world(|log|).now, c.world(|log|).offers) == NoRef
                  && pool' == Acquired(pool, c.world(|log|).now, c.world(|log|).offers)
                  && r == if log == [] then Err(PoolExhausted) else Err(Reported(log[|log| - 1].body))
    ensures Gone(c, log, r, pool', jar)
  {
  }

  lemma SentNext(c: Call, log: seq<Sent>, sent: Sent)
    requires SentInTurn(c, log) && AllFailed(log) && Sends(c, log, sent)
    ensures SentInTurn(c, log + [sent])
    ensures AllFailed(log + [sent]) <==> ChargedFailure(sent)
    ensures PoolAfter(c, log + [sent])
            == AfterRequest(c.cfg, Acquired(PoolAfter(c, log), c.world(|log|).now, c.world(|log|).offers), sent,
                c.offset)
    ensures JarAfter(c, log + [sent])
            == AfterReply(JarFor(JarAfter(c, log), log, sent.proxyId), c.world(|log|).reply, c.offset)
  {
    var longer := log + [sent];
    assert longer[..|log|] == log && longer[|log|] == sent;
    forall i | 0 <= i < |longer|
      ensures Sends(c, longer[..i], longer[i])
    {
      assert i < |log| ==> longer[..i] == log[..i];
    }
  }

  function PreviousId(log: seq<Sent>): string {
    if log == [] then "" else log[|log| - 1].proxyId
  }

  function LastAnswer(log: seq<Sent>): Result<Page, ListError> {
    if log == [] then Err(PoolExhausted) else Err(Reported(log[|log| - 1].body))
  }

  lemma LastSent(log: seq<Sent>, sent: Sent)
    ensures PreviousId(log + [sent]) == sent.proxyId && LastAnswer(log + [sent]) == Err(Reported(sent.body))
    ensures AllFailed(log + [sent]) <==> AllFailed(log) && ChargedFailure(sent)
  {
    assert (log + [sent])[|log|] == sent;
    assert forall i :: 0 <= i < |log| ==> (log + [sent])[i] == log[i];
  }

  predicate CancelledAt(c: Call, k: nat) {
    c.world(k).cancelled
  }

  // ----- what that means -----

  lemma SendsOne(c: Call, log: seq<Sent>, a: Sent, b: Sent)
    requires Sends(c, log, a) && Sends(c, log, b)
    ensures a == b
  {
  }

  lemma {:induction false} SamePrefix(c: Call, a: seq<Sent>, b: seq<Sent>, n: nat)
    requires SentInTurn(c, a) && SentInTurn(c, b) && n <= |a| && n <= |b|
    ensures a[..n] == b[..n]
  {
    if n > 0 {
      SamePrefix(c, a, b, n - 1);
      SameNext(c, a, b, n - 1);
    }
  }

  lemma SameNext(c: Call, a: seq<Sent>, b: seq<Sent>, n: nat)
    requires SentInTurn(c, a) && SentInTurn(c, b) && n < |a| && n < |b| && a[..n] == b[..n]
    ensures a[..n + 1] == b[..n + 1]
  {
    WentOn(c, a, n);
    WentOn(c, b, n);
    SendsOne(c, a[..n], a[n], b[n]);
    PrefixNext(a, n);
    PrefixNext(b, n);
  }

  lemma PrefixNext(log: seq<Sent>, n: nat)
    requires n < |log|
    ensures log[..n + 1] == log[..n] + [log[n]]
  {
  }

  /** Past a prefix of its requests a call went on because all of those failed at their proxies. */
  lemma WentOn(c: Call, log: seq<Sent>, n: nat)
    requires SentInTurn(c, log) && n < |log|
    ensures AllFailed(log[..n]) && Sends(c, log[..n], log[n])
  {
  }

  lemma EndedStops(c: Call, log: seq<Sent>, r: Result<Page, ListError>, pool: Pool, sent: Sent)
    requires EndsWith(c, log, r, pool) && AllFailed(log)
    ensures !Sends(c, log, sent)
  {
  }

  lemma NoLonger(c: Call, a: seq<Sent>, r: Result<Page, ListError>, pool: Pool, b: seq<Sent>)
    requires SentInTurn(c, a) && EndsWith(c, a, r, pool) && SentInTurn(c, b)
    ensures |b| <= |a|
  {
    if |a| < |b| {
      SamePrefix(c, a, b, |a|);
      assert a[..|a|] == a;
      WentOn(c, b, |a|);
      EndedStops(c, a, r, pool, b[|a|]);
    }
  }

  /** The answers leave one way for a call to go. */
  lemma CallGoesOneWay(c: Call, a: seq<Sent>, ra: Result<Page, ListError>, pa: Pool,
                       b: seq<Sent>, rb: Result<Page, ListError>, pb: Pool)
    requires SentInTurn(c, a) && EndsWith(c, a, ra, pa) && SentInTurn(c, b) && EndsWith(c, b, rb, pb)
    ensures a == b && ra == rb && pa == pb
  {
    NoLonger(c, a, ra, pa, b);
    NoLonger(c, b, rb, pb, a);
    SamePrefix(c, a, b, |a|);
    assert a[..|a|] == a && b[..|b|] == b;
  }

  /**
   Giving up follows a refused turn: a pool that has not stopped and holds a good proxy, or is
   offered a valid one, is used, and it is used through that proxy.
   */
  lemma UsesWhatItCanGet(c: Call, log: seq<Sent>, r: Result<Page, ListError>, pool: Pool, n: nat, k: nat)
    requires SentInTurn(c, log) && EndsWith(c, log, r, pool) && n <= |log| && AllFailed(log[..n])
    requires var s, turn := PoolAfter(c, log[..n]), c.world(n);
             !s.fatal && !turn.cancelled && (Good(s, turn.now) || FirstValid(turn.offers, k))
    ensures n < |log|
    ensures var s, turn := PoolAfter(c, log[..n]), c.world(n);
            if Good(s, turn.now)
            then log[n].proxyId == s.current.proxy.id && log[n].proxyUrl == s.current.proxy.url
            else log[n].proxyId == turn.offers[k].proxy.id && log[n].proxyUrl == turn.offers[k].proxy.url
  {
    GrantsWhatItCan(PoolAfter(c, log[..n]), c.world(n).now, c.world(n).offers, k);
    assert !Refuses(c, log[..n]);
    assert log[..|log|] == log;
    if n < |log| {
      WentOn(c, log, n);
    }
  }

  /**
   The cookies of consecutive requests: none follow to another proxy; to the same one go those the
   store has just been given, or else the same as before.
   */
  lemma CookieTrail(c: Call, log: seq<Sent>, i: nat)
    requires SentInTurn(c, log) && 0 < i < |log|
    ensures log[i].proxyId != log[i - 1].proxyId ==> log[i].cookie == ""
    ensures var given := c.world(i - 1).reply.setCookie;
            log[i].proxyId == log[i - 1].proxyId ==>
              if c.jar.stored.Some? && given.Some? && given.value != ""
              then log[i].cookie == given.value
              else c.jar.stored.None? || given.None? ==> log[i].cookie == log[i - 1].cookie
  {
    assert Sends(c, log[..i], log[i]) && Sends(c, log[..i - 1], log[i - 1]);
    assert log[..i][..i - 1] == log[..i - 1] && log[..i][i - 1] == log[i - 1];
    StoreStays(c, log[..i - 1]);
    assert ChargedFailure(log[i - 1]);
  }

  lemma {:induction false} StoreStays(c: Call, log: seq<Sent>)
    ensures JarAfter(c, log).stored.Some? <==> c.jar.stored.Some?
  {
    if log != [] {
      StoreStays(c, log[..|log| - 1]);
    }
  }

  /** The pool is steady until `last` and `left` charged failures in a row away from stopping. */
  ghost predicate FailuresLeft(cfg: Config, s: Pool, last: int, left: int) {
    match s
    case Pool(_, _, _) => Steady(cfg, s, last) && left == Budget(cfg, s)
  }

  /**
   The calls the retry bound speaks of: proxies come fresh, none expires before `last`, and the
   call is over by then.
   */
  ghost predicate Bounded(cfg: Config, s: Pool, world: nat -> Turn, last: int, left: int) {
    match s
    case Pool(_, _, _) =>
      FailuresLeft(cfg, s, last, left) && forall k: nat :: world(k).now <= last && FreshOffers(world(k).offers, last)
  }

  lemma LeftNonnegative(cfg: Config, s: Pool, last: int, left: int)
    requires FailuresLeft(cfg, s, last, left)
    ensures left >= 0
    ensures left == 0 <==> s.fatal
  {
    BudgetPositive(cfg, s, last);
  }

  /**
   What one turn does to the failure budget: a charged failure takes one, a success refills it, and
   a request needs some left.
   */
  lemma TurnBudget(cfg: Config, s: Pool, turn: Turn, sent: Sent, offset: nat, last: int, left: int)
    requires FailuresLeft(cfg, s, last, left) && turn.now <= last && FreshOffers(turn.offers, last)
    ensures left >= 0 && FailuresLeft(cfg, Acquired(s, turn.now, turn.offers), last, left)
    ensures var s1 := Acquired(s, turn.now, turn.offers);
            Granted(s, turn.now, turn.offers) == Ref(sent.proxyId, sent.proxyUrl) ==>
              && left > 0
              && (Accepted(sent.body, offset) ==>
                    FailuresLeft(cfg, AfterRequest(cfg, s1, sent, offset), last,
                        cfg.fatalThreshold * cfg.failureThreshold))
              && (ChargedFailure(sent) ==> FailuresLeft(cfg, AfterRequest(cfg, s1, sent, offset), last, left - 1))
  {
    var s1 := Acquired(s, turn.now, turn.offers);
    BudgetPositive(cfg, s, last);
    ApplyBudget(cfg, s, Acquire(turn.now, turn.offers), last);
    if Accepted(sent.body, offset) {
      ApplyBudget(cfg, s1, Success(sent.proxyId), last);
    } else {
      ApplyBudget(cfg, s1, Failure(sent.proxyId), last);
    }
  }

  /** A steady pool takes T failures for each of the F - replacements proxies left, less those the present one has. */
  lemma SteadyLeft(cfg: Config, s: Pool, last: int)
    requires Steady(cfg, s, last)
    ensures FailuresLeft(cfg, s, last, (cfg.fatalThreshold - s.replacements) * cfg.failureThreshold - FailureCount(s))
    ensures var left := (cfg.fatalThreshold - s.replacements) * cfg.failureThreshold - FailureCount(s);
            0 <= left <= cfg.fatalThreshold * cfg.failureThreshold
  {
    BudgetPositive(cfg, s, last);
    assert s.replacements * cfg.failureThreshold >= 0;
    assert (cfg.fatalThreshold - s.replacements) * cfg.failureThreshold
        == cfg.fatalThreshold * cfg.failureThreshold - s.replacements * cfg.failureThreshold;
  }

  /** A call started with `left` failures left and every request so far failed at its proxy, except perhaps the last. */
  ghost predicate LeftAfter(cfg: Config, log: seq<Sent>, accepted: bool, pool: Pool, last: int, left: int) {
    match pool
    case Pool(_, _, _) =>
      && |log| <= left
      && (AllFailed(log) ==> FailuresLeft(cfg, pool, last, left - |log|))
      && (accepted ==> FailuresLeft(cfg, pool, last, cfg.fatalThreshold * cfg.failureThreshold))
  }

  lemma LeftNext(c: Call, log: seq<Sent>, pool: Pool, sent: Sent, last: int, left: int)
    requires LeftAfter(c.cfg, log, false, pool, last, left) && AllFailed(log)
    requires var turn := c.world(|log|); turn.now <= last && FreshOffers(turn.offers, last)
    ensures var s1 := Acquired(pool, c.world(|log|).now, c.world(|log|).offers);
            && LeftAfter(c.cfg, log, false, s1, last, left)
            && (Granted(pool, c.world(|log|).now, c.world(|log|).offers) == Ref(sent.proxyId, sent.proxyUrl) ==>
                  LeftAfter(c.cfg, log + [sent], Accepted(sent.body, c.offset), AfterRequest(c.cfg, s1, sent, c.offset),
                      last, left))
  {
    TurnBudget(c.cfg, pool, c.world(|log|), sent, c.offset, last, left - |log|);
    LastSent(log, sent);
  }

  class ListClient {
    const pool: Manager?
    var cookie: string
    var stored: Option<string>

    constructor (pool: Manager?, cookie: string, stored: Option<string>)
      ensures this.pool == pool && this.cookie == cookie && this.stored == stored
    {
      this.pool, this.cookie, this.stored := pool, cookie, stored;
    }

    function Cookies(): Jar
      reads this
    {
      Jar(cookie, stored)
    }

    function CookieToSend(): string
      reads this
    {
      if stored.Some? && stored.value != "" then stored.value else cookie
    }

    method ClearCookies()
      modifies this`cookie, this`stored
      ensures cookie == "" && stored == (if old(stored).Some? then Some("") else None)
    {
      cookie := "";
      if stored.Some? {
        stored := Some("");
      }
    }

    method ListOnce(offset: nat, proxyId: string, proxyUrl: string, reply: Reply)
      returns (r: Result<Page, ListError>, sent: Sent)
      modifies this`cookie, this`stored
      ensures r == if reply.body.Listing? || (reply.body.EmptyData? && offset > 0)
                   then Ok(reply.body.page) else Err(Reported(reply.body))
      ensures sent == Sent(proxyId, proxyUrl, old(CookieToSend()), reply.body)
      ensures Cookies() == AfterReply(old(Cookies()), reply, offset)
    {
      sent := Sent(proxyId, proxyUrl, CookieToSend(), reply.body);
      if stored.Some? && reply.setCookie.Some? {
        stored := reply.setCookie;
      }
      if reply.body.EmptyData? && offset == 0 {
        ClearCookies();
      }
      r := if reply.body.Listing? || (reply.body.EmptyData? && offset > 0)
           then Ok(reply.body.page) else Err(Reported(reply.body));
    }

    /** One turn through the pool: take a proxy, drop the cookies if it is not the previous one, send, record. */
    method ListThrough(offset: nat, turn: Turn, previous: string)
      returns (ref: ProxyRef, r: Result<Page, ListError>, sent: Sent)
      requires pool != null
      modifies this`cookie, this`stored, pool
      ensures ref == Granted(old(pool.State()), turn.now, turn.offers)
      ensures ref.NoRef? ==>
                pool.State() == Acquired(old(pool.State()), turn.now, turn.offers) && Cookies() == old(Cookies())
      ensures ref.Ref? ==>
                var jar := if previous != "" && ref.id != previous then Cleared(old(Cookies())) else old(Cookies());
                && sent == Sent(ref.id, ref.url, Sendable(jar), turn.reply.body) && r == Answer(sent.body, offset)
                && Cookies() == AfterReply(jar, turn.reply, offset)
                && pool.State() == AfterRequest(pool.cfg, Acquired(old(pool.State()), turn.now, turn.offers), sent,
                    offset)
    {
      sent, r := Sent("", "", "", turn.reply.body), Err(PoolExhausted);
      ref := pool.Acquire(turn.now, turn.offers);
      if ref.Ref? {
        if previous != "" && ref.id != previous {
          ClearCookies();
        }
        r, sent := ListOnce(offset, ref.id, ref.url, turn.reply);
        if r.Ok? {
          pool.RecordSuccess(ref.id);
        } else if ref.id != "" && sent.body.ProxyFailed? {
          pool.RecordFailure(ref.id);
        }
      }
    }

    ghost function CallNow(offset: nat, world: nat -> Turn): Call
      requires pool != null
      reads this, pool
    {
      Call(pool.cfg, pool.State(), Cookies(), offset, world)
    }

    /** One turn of the loop, after the requests of `log`. */
    method TakeTurn(offset: nat, turn: Turn, previous: string, r: Result<Page, ListError>, log: seq<Sent>,
                    ghost c: Call, ghost last: int, ghost left: int)
      returns (over: bool, r': Result<Page, ListError>, log': seq<Sent>)
      requires pool != null && c.cfg == pool.cfg && c.offset == offset && turn == c.world(|log|)
      requires Going(c, log, pool.State(), Cookies()) && previous == PreviousId(log) && r == LastAnswer(log)
      modifies this`cookie, this`stored, pool
      ensures over ==> Gone(c, log', r', pool.State(), Cookies())
      ensures !over ==> Going(c, log', pool.State(), Cookies()) && r' == LastAnswer(log')
                        && |log'| == |log| + 1 && !CancelledAt(c, |log|)
      ensures turn.now <= last && FreshOffers(turn.offers, last)
              && LeftAfter(c.cfg, log, false, old(pool.State()), last, left) ==>
                LeftAfter(c.cfg, log', r'.Ok?, pool.State(), last, left)
    {
      ghost var before, jar := pool.State(), Cookies();
      over, r', log' := true, r, log;
      if turn.cancelled {
        r' := Err(Cancelled);
        TurnEnds(c, log, before, jar, r', before);
      } else {
        var ref, answer, sent := ListThrough(offset, turn, previous);
        if turn.now <= last && FreshOffers(turn.offers, last) && LeftAfter(c.cfg, log, false, before, last, left) {
          LeftNext(c, log, before, sent, last, left);
        }
        if ref.NoRef? {
          TurnEnds(c, log, before, jar, r', pool.State());
        } else {
          TurnSent(c, log, before, jar, sent, pool.State(), Cookies());
          LastSent(log, sent);
          over, r', log' := !ChargedFailure(sent), answer, log + [sent];
        }
      }
    }

    /**
     Lists one page. A request that fails at its proxy is charged to that proxy and repeated,
     through another one when it is used up. `world` answers turn by turn; a call ends by
     turn `limit` because the context does, or else after at most `left` requests.
     */
    method List(offset: nat, world: nat -> Turn, ghost limit: nat, ghost last: int, ghost left: int)
      returns (r: Result<Page, ListError>, log: seq<Sent>)
      requires pool == null || world(limit).cancelled || Bounded(pool.cfg, pool.State(), world, last, left)
      modifies this`cookie, this`stored, pool
      ensures pool == null ==>
                && log == [Sent("", "", old(CookieToSend()), world(0).reply.body)]
                && r == Answer(world(0).reply.body, offset)
      ensures pool != null ==>
                var c := old(CallNow(offset, world));
                SentInTurn(c, log) && EndsWith(c, log, r, pool.State()) && Cookies() == JarAfter(c, log)
      ensures pool != null && Bounded(pool.cfg, old(pool.State()), world, last, left) ==>
                LeftAfter(pool.cfg, log, r.Ok?, pool.State(), last, left)
    {
      log := [];
      if pool == null {
        var sent;
        r, sent := ListOnce(offset, "", "", world(0).reply);
        return r, [sent];
      }
      ghost var c := CallNow(offset, world);
      ghost var bounded := Bounded(pool.cfg, pool.State(), world, last, left);
      if bounded {
        LeftNonnegative(pool.cfg, pool.State(), last, left);
      }
      var over := false;
      r := Err(PoolExhausted);
      while !over
        invariant if over then Gone(c, log, r, pool.State(), Cookies()) else Going(c, log, pool.State(), Cookies())
        invariant !over ==> r == LastAnswer(log)
        invariant bounded || (CancelledAt(c, limit) && (!over ==> |log| <= limit))
        invariant bounded ==> LeftAfter(pool.cfg, log, r.Ok?, pool.State(), last, left)
        decreases !over, if bounded then left - |log| else limit - |log|
      {
        ghost var n := |log|;
        over, r, log := TakeTurn(offset, world(|log|), PreviousId(log), r, log, c, last, left);
        assert over || (|log| == n + 1 && !CancelledAt(c, n));
        assert over || bounded || n != limit;
      }
    }
  }
}
