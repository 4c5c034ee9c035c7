/** proxy/manager.go: which proxy is in use, when it is replaced, and when the whole subsystem stops. */
module Proxies {
  import opened Basics

  const ACTIVE := "ACTIVE"

  datatype Proxy = Proxy(id: string, url: string, state: string, failureCount: int, deadline: Option<int>)

  datatype Current = NoProxy | Held(proxy: Proxy)

  datatype ProxyRef = NoRef | Ref(id: string, url: string)

  /** What the provider answers to one fetch, and what the validator then says. */
  datatype Offer = FetchFailed | Fetched(proxy: Proxy, valid: bool)

  datatype Config = Config(failureThreshold: nat, fatalThreshold: int)

  datatype Pool = Pool(current: Current, replacements: nat, fatal: bool)

  const NEW_POOL := Pool(NoProxy, 0, false)

  // ----- the transitions -----

  predicate Expired(p: Proxy, now: int) {
    p.deadline.Some? && p.deadline.value <= now
  }

  predicate Usable(current: Current, now: int) {
    current.Held? && current.proxy.state == ACTIVE && !Expired(current.proxy, now)
  }

  function Reference(current: Current): ProxyRef {
    if current.Held? then Ref(current.proxy.id, current.proxy.url) else NoRef
  }

  /** The first offer that passes validation, unless a fetch fails before it; the offers end when the context does. */
  function Chosen(offers: seq<Offer>): Current {
    if offers == [] || offers[0].FetchFailed? then NoProxy
    else if !offers[0].valid then Chosen(offers[1..])
    else
      var p := offers[0].proxy;
      Held(if p.state == "" then p.(state := ACTIVE) else p)
  }

  function Acquired(s: Pool, now: int, offers: seq<Offer>): Pool {
    if s.fatal || Usable(s.current, now) then s else s.(current := Chosen(offers))
  }

  function Granted(s: Pool, now: int, offers: seq<Offer>): ProxyRef {
    if s.fatal then NoRef else Reference(Acquired(s, now, offers).current)
  }

  predicate Holds(s: Pool, id: string) {
    s.current.Held? && s.current.proxy.id == id
  }

  function AfterFailure(cfg: Config, s: Pool, id: string): Pool {
    if !Holds(s, id) then s
    else
      var count := s.current.proxy.failureCount + 1;
      if count < cfg.failureThreshold then s.(current := Held(s.current.proxy.(failureCount := count)))
      else
        Pool(NoProxy, s.replacements + 1, s.fatal || 0 < cfg.fatalThreshold <= s.replacements + 1)
  }

  function AfterSuccess(s: Pool, id: string): Pool {
    if Holds(s, id) then Pool(Held(s.current.proxy.(failureCount := 0, state := ACTIVE)), 0, s.fatal) else s
  }

  datatype Op = Acquire(now: int, offers: seq<Offer>) | Failure(id: string) | Success(id: string)

  function Apply(cfg: Config, s: Pool, op: Op): Pool {
    match op
    case Acquire(now, offers) => Acquired(s, now, offers)
    case Failure(id) => AfterFailure(cfg, s, id)
    case Success(id) => AfterSuccess(s, id)
  }

  function Run(cfg: Config, s: Pool, ops: seq<Op>): Pool
    decreases |ops|
  {
    if ops == [] then s else Run(cfg, Apply(cfg, s, ops[0]), ops[1..])
  }

  // ----- what every run keeps -----

  /** Fatal means exactly that the threshold of consecutive replacements was reached, and then no proxy is held. */
  predicate Coherent(cfg: Config, s: Pool) {
    && (s.fatal <==> 0 < cfg.fatalThreshold <= s.replacements)
    && (s.fatal ==> s.current.NoProxy?)
  }

  lemma {:induction false} RunCoherent(cfg: Config, s: Pool, ops: seq<Op>)
    requires Coherent(cfg, s)
    ensures Coherent(cfg, Run(cfg, s, ops))
    decreases |ops|
  {
    if ops != [] {
      RunCoherent(cfg, Apply(cfg, s, ops[0]), ops[1..]);
    }
  }

  /** Once the subsystem stopped, nothing changes it any more, so no proxy is ever granted again. */
  lemma {:induction false} FatalForever(cfg: Config, s: Pool, ops: seq<Op>, now: int, offers: seq<Offer>)
    requires Coherent(cfg, s) && s.fatal
    ensures Run(cfg, s, ops) == s
    ensures Granted(Run(cfg, s, ops), now, offers) == NoRef
  {
    if ops != [] {
      FatalForever(cfg, s, ops[1..], now, offers);
    }
  }

  /** Over every run of a manager from the start: stopped once, stopped for good. */
  lemma StaysStopped(cfg: Config, before: seq<Op>, after: seq<Op>, now: int, offers: seq<Offer>)
    requires Run(cfg, NEW_POOL, before).fatal
    ensures Run(cfg, Run(cfg, NEW_POOL, before), after).fatal
    ensures Granted(Run(cfg, Run(cfg, NEW_POOL, before), after), now, offers) == NoRef
  {
    RunCoherent(cfg, NEW_POOL, before);
    FatalForever(cfg, Run(cfg, NEW_POOL, before), after, now, offers);
  }

  /** The offer in use came from the provider, passed validation, and nothing before it did. */
  lemma {:induction false} ChosenIsFirstValid(offers: seq<Offer>) returns (k: nat)
    ensures k <= |offers|
    ensures forall i :: 0 <= i < k ==> offers[i].Fetched? && !offers[i].valid
    ensures Chosen(offers).Held? <==> k < |offers| && offers[k].Fetched?
    ensures k < |offers| && offers[k].Fetched? ==>
              offers[k].valid && Reference(Chosen(offers)) == Ref(offers[k].proxy.id, offers[k].proxy.url)
  {
    k := 0;
    if offers != [] && offers[0].Fetched? && !offers[0].valid {
      var j := ChosenIsFirstValid(offers[1..]);
      k := j + 1;
      assert forall i :: 0 < i < k ==> offers[i] == offers[1..][i - 1];
    }
  }

  /** Active, and not past its deadline. */
  predicate Good(s: Pool, now: int) {
    match s.current
    case NoProxy => false
    case Held(proxy) => proxy.state == "ACTIVE" && (proxy.deadline.None? || now < proxy.deadline.value)
  }

  /** The first of the offers to pass validation is the `k`th, and no fetch failed before. */
  predicate FirstValid(offers: seq<Offer>, k: nat) {
    && k < |offers| && offers[k].Fetched? && offers[k].valid
    && forall i :: 0 <= i < k ==> offers[i].Fetched? && !offers[i].valid
  }

  lemma {:induction false} ChosenAt(offers: seq<Offer>, k: nat)
    requires FirstValid(offers, k)
    ensures Reference(Chosen(offers)) == Ref(offers[k].proxy.id, offers[k].proxy.url)
  {
    if k > 0 {
      assert offers[0].Fetched? && !offers[0].valid;
      ChosenAt(offers[1..], k - 1);
    }
  }

  /** Unless the subsystem has stopped, the good proxy in hand is granted, or else the first valid offer. */
  lemma GrantsWhatItCan(s: Pool, now: int, offers: seq<Offer>, k: nat)
    requires !s.fatal && (Good(s, now) || FirstValid(offers, k))
    ensures Granted(s, now, offers)
            == if Good(s, now) then Ref(s.current.proxy.id, s.current.proxy.url)
               else Ref(offers[k].proxy.id, offers[k].proxy.url)
  {
    if !Good(s, now) {
      ChosenAt(offers, k);
    }
  }

  /** And nothing else is granted. */
  lemma RefusedIff(s: Pool, now: int, offers: seq<Offer>)
    ensures Granted(s, now, offers) == NoRef
            <==> s.fatal || (!Good(s, now) && forall k: nat :: !FirstValid(offers, k))
  {
    var k := ChosenIsFirstValid(offers);
    forall j: nat | FirstValid(offers, j)
      ensures Chosen(offers).Held?
    {
      ChosenAt(offers, j);
    }
    assert k < |offers| && offers[k].Fetched? ==> FirstValid(offers, k);
  }

  // ----- the failure budget -----

  /** A proxy as the provider makes them, lasting past `last`. */
  predicate Lasting(p: Proxy, last: int) {
    (p.state == "" || p.state == ACTIVE) && !Expired(p, last)
  }

  predicate FreshOffers(offers: seq<Offer>, last: int) {
    forall i :: 0 <= i < |offers| && offers[i].Fetched? && offers[i].valid ==>
      Lasting(offers[i].proxy, last) && offers[i].proxy.failureCount == 0
  }

  /** The proxy in use, if any, is active, lasts past `last`, and has not used up its failures. */
  predicate Steady(cfg: Config, s: Pool, last: int) {
    && 0 < cfg.failureThreshold && 0 < cfg.fatalThreshold && Coherent(cfg, s)
    && (s.fatal ==> s.replacements == cfg.fatalThreshold)
    && (s.current.Held? ==> s.current.proxy.state == ACTIVE && Lasting(s.current.proxy, last)
                            && 0 <= s.current.proxy.failureCount < cfg.failureThreshold)
  }

  function FailureCount(s: Pool): int {
    if s.current.Held? then s.current.proxy.failureCount else 0
  }

  /**
   How many more failures in a row the pool takes before it stops: the measure (F - replacements, T
   - failures) as one number.
   */
  function Budget(cfg: Config, s: Pool): int {
    (cfg.fatalThreshold - s.replacements) * cfg.failureThreshold - FailureCount(s)
  }

  lemma {:induction false} ChosenFresh(offers: seq<Offer>, last: int)
    requires FreshOffers(offers, last)
    ensures Chosen(offers).Held? ==>
              Chosen(offers).proxy.state == ACTIVE && Lasting(Chosen(offers).proxy, last)
                  && Chosen(offers).proxy.failureCount == 0
  {
    if offers != [] && offers[0].Fetched? && !offers[0].valid {
      assert forall i :: 0 <= i < |offers[1..]| ==> offers[1..][i] == offers[i + 1];
      ChosenFresh(offers[1..], last);
    }
  }

  /** The budget is used up exactly when the subsystem has stopped. */
  lemma BudgetPositive(cfg: Config, s: Pool, last: int)
    requires Steady(cfg, s, last)
    ensures Budget(cfg, s) >= 0
    ensures Budget(cfg, s) == 0 <==> s.fatal
  {
    var left := cfg.fatalThreshold - s.replacements;
    if s.fatal {
      assert left == 0;
    } else {
      assert left >= 1;
      assert left * cfg.failureThreshold == (left - 1) * cfg.failureThreshold + cfg.failureThreshold;
      assert (left - 1) * cfg.failureThreshold >= 0;
    }
  }

  /** Taking a proxy costs nothing; a failure of the proxy in use costs one; a success refills. */
  lemma ApplyBudget(cfg: Config, s: Pool, op: Op, last: int)
    requires Steady(cfg, s, last)
    requires op.Acquire? ==> op.now <= last && FreshOffers(op.offers, last)
    ensures Steady(cfg, Apply(cfg, s, op), last)
    ensures op.Acquire? ==> Budget(cfg, Apply(cfg, s, op)) == Budget(cfg, s)
    ensures op.Failure? ==> Budget(cfg, Apply(cfg, s, op)) == Budget(cfg, s) - if Holds(s, op.id) then 1 else 0
    ensures op.Success? && Holds(s, op.id) ==>
            Budget(cfg, Apply(cfg, s, op)) == cfg.fatalThreshold * cfg.failureThreshold
  {
    match op
    case Acquire(now, offers) => ChosenFresh(offers, last);
    case Failure(id) =>
      var left := cfg.fatalThreshold - s.replacements;
      assert left * cfg.failureThreshold == (left - 1) * cfg.failureThreshold + cfg.failureThreshold;
    case Success(id) =>
  }

  /** The failures of the proxy in use along a run. */
  function Counted(cfg: Config, s: Pool, ops: seq<Op>): nat
    decreases |ops|
  {
    if ops == [] then 0
    else
      (if ops[0].Failure? && Holds(s, ops[0].id) then 1 else 0) + Counted(cfg, Apply(cfg, s, ops[0]), ops[1..])
  }

  predicate NoRefill(ops: seq<Op>, last: int) {
    forall i :: 0 <= i < |ops| ==>
      !ops[i].Success? && (ops[i].Acquire? ==> ops[i].now <= last && FreshOffers(ops[i].offers, last))
  }

  /** With no success and no expiry in between, the subsystem stops at the F*T-th failure, not before. */
  lemma {:induction false} StopsAfterBudget(cfg: Config, s: Pool, ops: seq<Op>, last: int)
    requires Steady(cfg, s, last) && NoRefill(ops, last)
    ensures Budget(cfg, Run(cfg, s, ops)) == Budget(cfg, s) - Counted(cfg, s, ops)
    ensures Counted(cfg, s, ops) <= Budget(cfg, s)
    ensures Run(cfg, s, ops).fatal <==> Counted(cfg, s, ops) == Budget(cfg, s)
    decreases |ops|
  {
    if ops == [] {
      BudgetPositive(cfg, s, last);
    } else {
      ApplyBudget(cfg, s, ops[0], last);
      assert forall i :: 0 <= i < |ops[1..]| ==> ops[1..][i] == ops[i + 1];
      StopsAfterBudget(cfg, Apply(cfg, s, ops[0]), ops[1..], last);
    }
  }

  lemma FreshBudget(cfg: Config, ops: seq<Op>, last: int)
    requires 0 < cfg.failureThreshold && 0 < cfg.fatalThreshold && NoRefill(ops, last)
    ensures Run(cfg, NEW_POOL, ops).fatal <==> Counted(cfg, NEW_POOL, ops) == cfg.fatalThreshold * cfg.failureThreshold
  {
    StopsAfterBudget(cfg, NEW_POOL, ops, last);
  }

  // ----- the manager -----

  class Manager {
    const cfg: Config
    var current: Current
    var consecutiveReplacements: nat
    var fatalErr: bool

    function State(): Pool
      reads this
    {
      Pool(current, consecutiveReplacements, fatalErr)
    }

    constructor (failureThreshold: int, fatalThreshold: int)
      ensures cfg == Config(if failureThreshold <= 0 then 3 else failureThreshold, fatalThreshold)
      ensures State() == NEW_POOL
    {
      cfg := Config(if failureThreshold <= 0 then 3 else failureThreshold, fatalThreshold);
      current, consecutiveReplacements, fatalErr := NoProxy, 0, false;
    }

    method Acquire(now: int, offers: seq<Offer>) returns (ref: ProxyRef)
      modifies this
      ensures State() == Acquired(old(State()), now, offers)
      ensures ref == Granted(old(State()), now, offers)
    {
      if fatalErr {
        return NoRef;
      }
      if Usable(current, now) {
        return Reference(current);
      }
      current := NoProxy;
      for i := 0 to |offers|
        invariant State() == Pool(NoProxy, old(consecutiveReplacements), old(fatalErr))
        invariant Chosen(offers) == Chosen(offers[i..])
      {
        assert offers[i..][1..] == offers[i + 1..];
        if offers[i].FetchFailed? {
          return NoRef;
        }
        if offers[i].valid {
          var p := offers[i].proxy;
          if p.state == "" {
            p := p.(state := ACTIVE);
          }
          current := Held(p);
          return Reference(current);
        }
      }
      ref := NoRef;
    }

    method RecordFailure(id: string)
      modifies this
      ensures State() == AfterFailure(cfg, old(State()), id)
    {
      if current.NoProxy? || current.proxy.id != id {
        return;
      }
      var failed := current.proxy.(failureCount := current.proxy.failureCount + 1);
      current := Held(failed);
      if failed.failureCount < cfg.failureThreshold {
        return;
      }
      current := NoProxy;
      consecutiveReplacements := consecutiveReplacements + 1;
      if cfg.fatalThreshold > 0 && consecutiveReplacements >= cfg.fatalThreshold {
        fatalErr := true;
      }
    }

    method RecordSuccess(id: string)
      modifies this
      ensures State() == AfterSuccess(old(State()), id)
    {
      if current.NoProxy? || current.proxy.id != id {
        return;
      }
      current := Held(current.proxy.(failureCount := 0, state := ACTIVE));
      consecutiveReplacements := 0;
    }
  }
}
