/**
 * The bounded authorize round trip (crates/core/src/identity.rs) as interleaved steps of callers awaiting a verdict
 * and resolvers delivering one. Every atomic operation on the counter or the pending table is its own step.
 */
module Authorizer {
  import opened Prelude

  type Caller = nat
  type Resolver = nat
  type RequestId = nat

  datatype Outcome = Accept(user: Option<string>) | Reject(code: nat)

  datatype Resolution =
    | Accepted(user: Option<string>, request: RequestId)
    | Refused(code: nat)
    | TimedOut
    | Unavailable
    | TableFull

  /** Where a call is. From `Permitted` to `Leaving` it holds one permit; one that was shed never had a request. */
  datatype Pc =
    | Start
    | Shedding
    | Permitted
    | Numbered(req: RequestId)
    | Emitting(req: RequestId)
    | Waiting(req: RequestId)
    | Settled(req: RequestId, res: Resolution)
    | Leaving(req: RequestId, res: Resolution)
    | Done(asked: Option<RequestId>, res: Resolution)

  /**
   * `hands` are verdicts taken from the table but not yet sent; `mail` verdicts sent but not yet read; `taken`
   * remembers the first resolve of each request. The engine-to-bridge queue holds `queued` events of at most
   * `capacity`.
   */
  datatype State = State(
    calls: map<Caller, Pc>,
    hands: map<Resolver, (RequestId, Outcome)>,
    pending: set<RequestId>,
    mail: map<RequestId, Outcome>,
    taken: map<RequestId, Outcome>,
    nextId: RequestId,
    inFlight: nat,
    maxPending: nat,
    queued: nat,
    capacity: nat,
    bridgeGone: bool)

  datatype Step =
    | FetchAdd(c: Caller)
    | Shed(c: Caller)
    | TakeId(c: Caller)
    | InsertPending(c: Caller)
    | Emit(c: Caller)
    | Receive(c: Caller)
    | Expire(c: Caller)
    | SenderGone(c: Caller)
    | RemovePending(c: Caller)
    | DropPermit(c: Caller)
    | ResolveTake(r: Resolver, req: RequestId, outcome: Outcome)
    | ResolveSend(r: Resolver)
    | BridgeMoves(queued: nat, gone: bool)

  /** The engine-to-bridge queue has no room and is still read. */
  predicate BridgeFull(st: State)
  {
    !st.bridgeGone && st.queued >= st.capacity
  }

  ghost predicate SenderHeld(st: State, req: RequestId)
  {
    req in st.pending || exists r | r in st.hands :: st.hands[r].0 == req
  }

  ghost predicate Enabled(st: State, step: Step)
  {
    match step
    case ResolveTake(r, _, _) => r !in st.hands
    case ResolveSend(r) => r in st.hands
    case BridgeMoves(queued, gone) => queued <= st.capacity && (st.bridgeGone ==> gone)
    case _ =>
      step.c in st.calls &&
      var pc := st.calls[step.c];
      match step
      case FetchAdd(_) => pc.Start?
      case Shed(_) => pc.Shedding?
      case TakeId(_) => pc.Permitted?
      case InsertPending(_) => pc.Numbered?
      case Emit(_) => pc.Emitting? && !BridgeFull(st)
      case Receive(_) => pc.Waiting? && pc.req in st.mail
      case Expire(_) => pc.Waiting? && pc.req !in st.mail
      case SenderGone(_) => pc.Waiting? && pc.req !in st.mail && !SenderHeld(st, pc.req)
      case RemovePending(_) => pc.Settled?
      case DropPermit(_) => pc.Leaving?
  }

  function Resolved(req: RequestId, outcome: Outcome): Resolution
  {
    match outcome
    case Accept(user) => Accepted(user, req)
    case Reject(code) => Refused(code)
  }

  ghost function Next(st: State, step: Step): State
    requires Enabled(st, step)
  {
    match step
    case FetchAdd(c) =>
      st.(inFlight := st.inFlight + 1,
          calls := st.calls[c := if st.inFlight >= st.maxPending then Shedding else Permitted])
    case Shed(c) => st.(inFlight := Dec(st.inFlight), calls := st.calls[c := Done(None, TableFull)])
    case TakeId(c) => st.(nextId := st.nextId + 1, calls := st.calls[c := Numbered(st.nextId)])
    case InsertPending(c) =>
      st.(pending := st.pending + {st.calls[c].req}, calls := st.calls[c := Emitting(st.calls[c].req)])
    case Emit(c) =>
      st.(queued := if st.bridgeGone then st.queued else st.queued + 1,
          calls := st.calls[c := Waiting(st.calls[c].req)])
    case Receive(c) =>
      var req := st.calls[c].req;
      st.(mail := st.mail - {req}, calls := st.calls[c := Settled(req, Resolved(req, st.mail[req]))])
    case Expire(c) => st.(calls := st.calls[c := Settled(st.calls[c].req, TimedOut)])
    case SenderGone(c) => st.(calls := st.calls[c := Settled(st.calls[c].req, Unavailable)])
    case RemovePending(c) =>
      st.(pending := st.pending - {st.calls[c].req}, calls := st.calls[c := Leaving(st.calls[c].req, st.calls[c].res)])
    case DropPermit(c) =>
      st.(inFlight := Dec(st.inFlight), calls := st.calls[c := Done(Some(st.calls[c].req), st.calls[c].res)])
    case ResolveTake(r, req, outcome) =>
      if req !in st.pending then st
      else st.(pending := st.pending - {req}, hands := st.hands[r := (req, outcome)], taken := st.taken[req := outcome])
    case ResolveSend(r) =>
      var (req, outcome) := st.hands[r];
      st.(hands := st.hands - {r}, mail := if Awaited(st, req) then st.mail[req := outcome] else st.mail)
    case BridgeMoves(queued, gone) => st.(queued := queued, bridgeGone := gone)
  }

  function Dec(n: nat): nat
  {
    if n == 0 then 0 else n - 1
  }

  /** The receiver still exists: its call has not settled. */
  ghost predicate Awaited(st: State, req: RequestId)
  {
    exists c | c in st.calls :: st.calls[c] == Emitting(req) || st.calls[c] == Waiting(req)
  }

  ghost predicate Init(st: State)
  {
    && (forall c | c in st.calls :: st.calls[c].Start?)
    && st.hands == map[] && st.pending == {} && st.mail == map[] && st.taken == map[] && st.inFlight == 0
  }

  ghost predicate Run(a: State, steps: seq<Step>, b: State)
    decreases |steps|
  {
    if steps == [] then a == b else Enabled(a, steps[0]) && Run(Next(a, steps[0]), steps[1..], b)
  }

  // ── counting ──

  predicate HoldsPermit(pc: Pc)
  {
    pc.Permitted? || pc.Numbered? || pc.Emitting? || pc.Waiting? || pc.Settled? || pc.Leaving?
  }

  function Permits(st: State): set<Caller>
  {
    set c | c in st.calls && HoldsPermit(st.calls[c])
  }

  function Shedders(st: State): set<Caller>
  {
    set c | c in st.calls && st.calls[c].Shedding?
  }

  ghost predicate Counted(st: State)
  {
    st.inFlight == |Permits(st)| + |Shedders(st)| && |Permits(st)| <= st.maxPending
  }

  lemma Replaced(a: set<Caller>, c: Caller, stays: bool)
    ensures |(a - {c}) + (if stays then {c} else {})| == |a| - (if c in a then 1 else 0) + (if stays then 1 else 0)
  {
  }

  lemma PermitsAfter(st: State, st': State, c: Caller)
    requires c in st.calls && c in st'.calls && st'.calls == st.calls[c := st'.calls[c]]
    ensures Permits(st') == (Permits(st) - {c}) + (if HoldsPermit(st'.calls[c]) then {c} else {})
    ensures Shedders(st') == (Shedders(st) - {c}) + (if st'.calls[c].Shedding? then {c} else {})
  {
  }

  /** Moving one caller moves it in or out of each count. */
  lemma Moved(st: State, st': State, c: Caller)
    requires c in st.calls && c in st'.calls && st'.calls == st.calls[c := st'.calls[c]]
    ensures |Permits(st')| ==
      |Permits(st)| - (if HoldsPermit(st.calls[c]) then 1 else 0) + (if HoldsPermit(st'.calls[c]) then 1 else 0)
    ensures |Shedders(st')| ==
      |Shedders(st)| - (if st.calls[c].Shedding? then 1 else 0) + (if st'.calls[c].Shedding? then 1 else 0)
  {
    PermitsAfter(st, st', c);
    Replaced(Permits(st), c, HoldsPermit(st'.calls[c]));
    Replaced(Shedders(st), c, st'.calls[c].Shedding?);
  }

  predicate OfCall(step: Step)
  {
    !step.ResolveTake? && !step.ResolveSend? && !step.BridgeMoves?
  }

  lemma StepKeepsCount(st: State, step: Step)
    requires Counted(st) && Enabled(st, step)
    ensures Counted(Next(st, step))
  {
    if OfCall(step) {
      Moved(st, Next(st, step), step.c);
    } else {
      assert Next(st, step).calls == st.calls;
    }
  }

  // ── requests and verdicts ──

  /** The request a call made. */
  function IdOf(pc: Pc): Option<RequestId>
  {
    match pc
    case Numbered(req) => Some(req)
    case Emitting(req) => Some(req)
    case Waiting(req) => Some(req)
    case Settled(req, _) => Some(req)
    case Leaving(req, _) => Some(req)
    case Done(asked, _) => asked
    case _ => None
  }

  /** Each call, returned or not, has its own request id, below the next one. */
  ghost predicate OwnIds(st: State)
  {
    && (forall c | c in st.calls && IdOf(st.calls[c]).Some? :: IdOf(st.calls[c]).value < st.nextId)
    && (forall c, d | c in st.calls && d in st.calls && c != d && IdOf(st.calls[c]).Some? ::
          IdOf(st.calls[c]) != IdOf(st.calls[d]))
  }

  /** Where the verdict of one request is, as seen by its call. */
  ghost predicate CallOk(st: State, c: Caller)
    requires c in st.calls
  {
    match st.calls[c]
    case Numbered(req) => req !in st.pending && req !in st.taken
    case Emitting(req) => req in st.pending || req in st.taken
    case Waiting(req) => req in st.pending || req in st.taken
    case Settled(req, res) => Verdict(st, req, res)
    case Leaving(req, res) => req !in st.pending && Verdict(st, req, res)
    case Done(None, res) => res == TableFull
    case Done(Some(req), res) => req !in st.pending && Verdict(st, req, res)
    case _ => true
  }

  /** The resolution is what the first resolve said, or a timeout. */
  ghost predicate Verdict(st: State, req: RequestId, res: Resolution)
  {
    res == TimedOut || (req in st.taken && res == Resolved(req, st.taken[req]))
  }

  /** A taken request has left the table for good; its verdict is in one resolver's hands, in the mail, or spent. */
  ghost predicate TakenOk(st: State, req: RequestId)
    requires req in st.taken
  {
    && req < st.nextId && req !in st.pending
    && (req in st.mail ==> st.mail[req] == st.taken[req] && forall r | r in st.hands :: st.hands[r].0 != req)
    && (Awaited(st, req) ==> req in st.mail || exists r | r in st.hands :: st.hands[r].0 == req)
  }

  ghost predicate HandOk(st: State, r: Resolver)
    requires r in st.hands
  {
    var (req, outcome) := st.hands[r];
    req in st.taken && st.taken[req] == outcome && forall q | q in st.hands && q != r :: st.hands[q].0 != req
  }

  ghost predicate PendingOk(st: State, req: RequestId)
  {
    exists c | c in st.calls :: Open(st.calls[c]) && st.calls[c].req == req
  }

  /** The call is between the pending insert and the pending remove. */
  predicate Open(pc: Pc)
  {
    pc.Emitting? || pc.Waiting? || pc.Settled?
  }

  ghost predicate Inv(st: State)
  {
    && Counted(st) && OwnIds(st)
    && (forall c | c in st.calls :: CallOk(st, c))
    && (forall req | req in st.taken :: TakenOk(st, req))
    && (forall r | r in st.hands :: HandOk(st, r))
    && (forall req | req in st.mail :: req in st.taken)
    && (forall req | req in st.pending :: PendingOk(st, req) && req < st.nextId)
  }

  /** While a call waits its sender is in the table, in a resolver's hands, or the verdict is in the mail. */
  lemma SenderGoneNeverHappens(st: State, c: Caller)
    requires Inv(st)
    ensures !Enabled(st, SenderGone(c))
  {
    if c in st.calls && st.calls[c].Waiting? {
      assert CallOk(st, c);
      var req := st.calls[c].req;
      assert Awaited(st, req);
      if req in st.taken {
        assert TakenOk(st, req);
      }
    }
  }

  /** A step moves one call, which keeps its request or takes the next id. */
  lemma MovesOne(st: State, step: Step, c: Caller)
    requires Enabled(st, step) && c in st.calls
    ensures var st' := Next(st, step);
      && st'.calls.Keys == st.calls.Keys && st'.nextId >= st.nextId
      && (if step == TakeId(c) then IdOf(st'.calls[c]) == Some(st.nextId) && st'.nextId == st.nextId + 1
          else IdOf(st'.calls[c]) == IdOf(st.calls[c]))
  {
  }

  lemma StepKeepsOwnIds(st: State, step: Step)
    requires OwnIds(st) && Enabled(st, step)
    ensures OwnIds(Next(st, step))
  {
    forall c | c in st.calls
      ensures var st' := Next(st, step);
        && st'.calls.Keys == st.calls.Keys && st'.nextId >= st.nextId
        && (if step == TakeId(c) then IdOf(st'.calls[c]) == Some(st.nextId) && st'.nextId == st.nextId + 1
            else IdOf(st'.calls[c]) == IdOf(st.calls[c]))
    {
      MovesOne(st, step, c);
    }
  }

  lemma StepKeepsCall(st: State, step: Step, c: Caller)
    requires Inv(st) && Enabled(st, step) && c in st.calls
    ensures CallOk(Next(st, step), c)
  {
    if IsOf(step, c) {
      OwnStepKeepsCall(st, step, c);
    } else {
      OthersKeepCall(st, step, c);
    }
  }

  lemma OwnStepKeepsCall(st: State, step: Step, c: Caller)
    requires Inv(st) && Enabled(st, step) && c in st.calls && IsOf(step, c)
    ensures CallOk(Next(st, step), c)
  {
    assert CallOk(st, c);
    SenderGoneNeverHappens(st, c);
    if step.Receive? {
      assert TakenOk(st, st.calls[c].req);
    }
  }

  lemma OthersKeepCall(st: State, step: Step, c: Caller)
    requires Inv(st) && Enabled(st, step) && c in st.calls && !IsOf(step, c)
    ensures CallOk(Next(st, step), c)
  {
    CallStays(st, step, c);
    if IdOf(st.calls[c]).Some? {
      RequestAfter(st, step, c, IdOf(st.calls[c]).value);
    }
    SameCallOk(st, Next(st, step), c);
  }

  lemma CallStays(st: State, step: Step, c: Caller)
    requires Enabled(st, step) && c in st.calls && !IsOf(step, c)
    ensures c in Next(st, step).calls && Next(st, step).calls[c] == st.calls[c]
  {
  }

  /** A request stays where it is, or goes from the table to a resolver. */
  predicate Stays(st: State, st': State, req: RequestId)
  {
    || ((req in st'.pending <==> req in st.pending) && (req in st'.taken <==> req in st.taken) &&
        (req in st.taken ==> st'.taken[req] == st.taken[req]))
    || (req in st.pending && req !in st'.pending && req !in st.taken && req in st'.taken)
  }

  lemma RequestAfter(st: State, step: Step, c: Caller, req: RequestId)
    requires Inv(st) && Enabled(st, step) && c in st.calls && !IsOf(step, c) && IdOf(st.calls[c]) == Some(req)
    ensures Stays(st, Next(st, step), req)
  {
    if req in st.taken {
      assert TakenOk(st, req);
    }
    if OfCall(step) {
      assert IdOf(st.calls[step.c]) != Some(req);
    }
  }

  lemma SameCallOk(st: State, st': State, c: Caller)
    requires c in st.calls && c in st'.calls && st'.calls[c] == st.calls[c] && CallOk(st, c)
    requires IdOf(st.calls[c]).Some? ==> Stays(st, st', IdOf(st.calls[c]).value)
    ensures CallOk(st', c)
  {
  }

  /** A request that is taken and awaited after a step was taken and awaited before, or was pending. */
  lemma AwaitedBefore(st: State, step: Step, req: RequestId)
    requires Inv(st) && Enabled(st, step) && req in st.taken && Awaited(Next(st, step), req)
    ensures Awaited(st, req) && !(step.Receive? && st.calls[step.c].req == req)
  {
    var c :| c in Next(st, step).calls &&
      (Next(st, step).calls[c] == Emitting(req) || Next(st, step).calls[c] == Waiting(req));
    if IsOf(step, c) {
      assert CallOk(st, c);
      assert step.Emit? && st.calls[c] == Emitting(req);
    } else {
      CallStays(st, step, c);
    }
  }

  /** A verdict in the mail is the one taken and in nobody's hands. */
  ghost predicate MailOk(st: State, req: RequestId)
    requires req in st.taken
  {
    req in st.mail ==> st.mail[req] == st.taken[req] && forall r | r in st.hands :: st.hands[r].0 != req
  }

  lemma StepKeepsMail(st: State, step: Step, req: RequestId)
    requires Inv(st) && Enabled(st, step) && req in st.taken
    ensures req in Next(st, step).taken && MailOk(Next(st, step), req)
    ensures req !in Next(st, step).pending && req < Next(st, step).nextId
  {
    assert TakenOk(st, req);
    if step.ResolveSend? {
      assert HandOk(st, step.r);
    }
    if step.InsertPending? {
      assert CallOk(st, step.c);
    }
  }

  lemma StepKeepsOldTaken(st: State, step: Step, req: RequestId)
    requires Inv(st) && Enabled(st, step) && req in st.taken
    ensures TakenOk(Next(st, step), req)
  {
    var st' := Next(st, step);
    StepKeepsMail(st, step, req);
    if Awaited(st', req) {
      AwaitedBefore(st, step, req);
      assert TakenOk(st, req);
      if req !in st.mail {
        var r :| r in st.hands && st.hands[r].0 == req;
        HandMoves(st, step, r);
      } else {
        MailStays(st, step, req);
      }
    }
  }

  /** A verdict in hand stays there until it is sent. */
  lemma HandMoves(st: State, step: Step, r: Resolver)
    requires Enabled(st, step) && r in st.hands && Awaited(st, st.hands[r].0)
    ensures var st' := Next(st, step); st.hands[r].0 in st'.mail || (r in st'.hands && st'.hands[r] == st.hands[r])
  {
  }

  lemma MailStays(st: State, step: Step, req: RequestId)
    requires Enabled(st, step) && req in st.mail && !(step.Receive? && st.calls[step.c].req == req)
    ensures req in Next(st, step).mail
  {
  }

  lemma StepKeepsTaken(st: State, step: Step, req: RequestId)
    requires Inv(st) && Enabled(st, step) && req in Next(st, step).taken
    ensures TakenOk(Next(st, step), req)
  {
    if req in st.taken {
      StepKeepsOldTaken(st, step, req);
    } else {
      assert Next(st, step).hands[step.r].0 == req;
    }
  }

  lemma StepKeepsHand(st: State, step: Step, r: Resolver)
    requires Inv(st) && Enabled(st, step) && r in Next(st, step).hands
    ensures HandOk(Next(st, step), r)
  {
    if r in st.hands {
      assert HandOk(st, r);
    }
    if step.ResolveTake? {
      TakeKeepsHand(st, step, r);
    } else {
      HandsStay(st, step);
    }
  }

  lemma HandsStay(st: State, step: Step)
    requires Enabled(st, step) && !step.ResolveTake?
    ensures Next(st, step).taken == st.taken
    ensures Next(st, step).hands == if step.ResolveSend? then st.hands - {step.r} else st.hands
  {
  }

  /** A pending request is in nobody's hands yet. */
  lemma TakeKeepsHand(st: State, step: Step, r: Resolver)
    requires Inv(st) && Enabled(st, step) && step.ResolveTake? && r in Next(st, step).hands
    ensures HandOk(Next(st, step), r)
  {
    if step.req in st.pending {
      assert step.req in st.taken ==> TakenOk(st, step.req);
      forall q | q in st.hands ensures st.hands[q].0 != step.req && HandOk(st, q) {
        assert HandOk(st, q);
      }
    }
  }

  lemma StepKeepsPending(st: State, step: Step, req: RequestId)
    requires Inv(st) && Enabled(st, step) && req in Next(st, step).pending
    ensures PendingOk(Next(st, step), req) && req < Next(st, step).nextId
  {
    var st' := Next(st, step);
    if req in st.pending {
      assert PendingOk(st, req);
      var c :| c in st.calls && Open(st.calls[c]) && st.calls[c].req == req;
      if !IsOf(step, c) {
        CallStays(st, step, c);
      }
      assert Open(st'.calls[c]) && st'.calls[c].req == req;
    } else {
      assert st'.calls[step.c] == Emitting(req);
    }
  }

  lemma StepKeepsInv(st: State, step: Step)
    requires Inv(st) && Enabled(st, step)
    ensures Inv(Next(st, step))
  {
    var st' := Next(st, step);
    StepKeepsCount(st, step);
    StepKeepsOwnIds(st, step);
    forall c | c in st'.calls ensures CallOk(st', c) {
      StepKeepsCall(st, step, c);
    }
    forall req | req in st'.taken ensures TakenOk(st', req) {
      StepKeepsTaken(st, step, req);
    }
    forall r | r in st'.hands ensures HandOk(st', r) {
      StepKeepsHand(st, step, r);
    }
    forall req | req in st'.pending ensures PendingOk(st', req) && req < st'.nextId {
      StepKeepsPending(st, step, req);
    }
    forall req | req in st'.mail ensures req in st'.taken {
      if step.ResolveSend? {
        assert HandOk(st, step.r);
      }
    }
  }

  lemma {:induction false} RunKeepsInv(a: State, steps: seq<Step>, b: State)
    requires Inv(a) && Run(a, steps, b)
    ensures Inv(b)
    decreases |steps|
  {
    if steps != [] {
      StepKeepsInv(a, steps[0]);
      RunKeepsInv(Next(a, steps[0]), steps[1..], b);
    }
  }

  lemma InitInv(st: State)
    requires Init(st)
    ensures Inv(st)
  {
    assert Permits(st) == {} && Shedders(st) == {};
  }

  /**
   * In every interleaving: held permits never exceed the bound, the counter is permits plus callers being shed, no
   * sender is lost, no two calls make the same request, and a call returns that the table was full, that it timed out,
   * or what the first resolve of its own request said. So one resolve admits at most one call.
   */
  lemma AuthorizeSafe(a: State, steps: seq<Step>, b: State)
    requires Init(a) && Run(a, steps, b)
    ensures |Permits(b)| <= b.maxPending && b.inFlight == |Permits(b)| + |Shedders(b)|
    ensures forall c | c in b.calls && b.calls[c].Done? ::
      match b.calls[c].asked
      case None => b.calls[c].res == TableFull
      case Some(req) => b.calls[c].res == TimedOut || (req in b.taken && b.calls[c].res == Resolved(req, b.taken[req]))
    ensures forall c, d | c in b.calls && d in b.calls && c != d && IdOf(b.calls[c]).Some? ::
      IdOf(b.calls[c]) != IdOf(b.calls[d])
    ensures forall c :: !Enabled(b, SenderGone(c))
  {
    InitInv(a);
    RunKeepsInv(a, steps, b);
    forall c ensures !Enabled(b, SenderGone(c)) {
      SenderGoneNeverHappens(b, c);
    }
    assert forall c | c in b.calls :: CallOk(b, c);
  }

  /**
   * A verdict that has arrived is the one the call returns: with one in its mail a waiting call can only read it, and
   * then settles on what the first resolve of its request said.
   */
  lemma ArrivedVerdictIsTaken(a: State, steps: seq<Step>, b: State, c: Caller, step: Step)
    requires Init(a) && Run(a, steps, b) && c in b.calls && b.calls[c].Waiting? && b.calls[c].req in b.mail
    requires Enabled(b, step) && IsOf(step, c)
    ensures var req := b.calls[c].req;
      req in b.taken &&
      match b.taken[req]
      case Accept(user) => Next(b, step).calls[c] == Settled(req, Accepted(user, req))
      case Reject(code) => Next(b, step).calls[c] == Settled(req, Refused(code))
  {
    InitInv(a);
    RunKeepsInv(a, steps, b);
    assert TakenOk(b, b.calls[c].req);
  }

  /** A call is shed exactly when the permits held and the calls being shed already reach the bound. */
  lemma ShedExactlyWhenFull(a: State, steps: seq<Step>, b: State, c: Caller)
    requires Init(a) && Run(a, steps, b) && Enabled(b, FetchAdd(c))
    ensures Next(b, FetchAdd(c)).calls[c].Shedding? <==> |Permits(b)| + |Shedders(b)| >= b.maxPending
    ensures !Next(b, FetchAdd(c)).calls[c].Shedding? ==> c in Permits(Next(b, FetchAdd(c)))
  {
    InitInv(a);
    RunKeepsInv(a, steps, b);
  }

  /** How many events the calls hand to the bridge. */
  function Emitted(steps: seq<Step>): nat
  {
    if steps == [] then 0 else (if steps[0].Emit? then 1 else 0) + Emitted(steps[1..])
  }

  /** Between two moves of its own a live bridge's queue grows by one per event handed over, never past its capacity. */
  lemma {:induction false} BridgeFills(a: State, steps: seq<Step>, b: State)
    requires Run(a, steps, b) && !a.bridgeGone && a.queued <= a.capacity
    requires forall step | step in steps :: !step.BridgeMoves?
    ensures !b.bridgeGone && b.queued == a.queued + Emitted(steps) <= a.capacity
    decreases |steps|
  {
    if steps != [] {
      assert !steps[0].BridgeMoves?;
      BridgeFills(Next(a, steps[0]), steps[1..], b);
    }
  }

  lemma PendingMeansBusy(st: State)
    requires Inv(st)
    ensures st.pending != {} ==> exists c :: c in st.calls && !st.calls[c].Done?
  {
    if req :| req in st.pending {
      assert PendingOk(st, req);
    }
  }

  /** Once every call has returned, the table is empty and the counter is zero: nothing leaks. */
  lemma NothingLeaks(a: State, steps: seq<Step>, b: State)
    requires Init(a) && Run(a, steps, b) && forall c | c in b.calls :: b.calls[c].Done?
    ensures b.pending == {} && b.inFlight == 0
  {
    InitInv(a);
    RunKeepsInv(a, steps, b);
    assert Permits(b) == {} && Shedders(b) == {};
    PendingMeansBusy(b);
  }

  lemma PendingIsOpen(st: State, req: RequestId)
    requires Inv(st)
    ensures req in st.pending ==>
      req !in st.taken && exists c :: c in st.calls && Open(st.calls[c]) && st.calls[c].req == req
  {
    if req in st.taken {
      assert TakenOk(st, req);
    }
    if req in st.pending {
      assert PendingOk(st, req);
    }
  }

  /** A late or repeated resolve changes nothing: the request was taken before, or its call has left. */
  lemma LateResolveIsNoOp(a: State, steps: seq<Step>, b: State, r: Resolver, req: RequestId, outcome: Outcome)
    requires Init(a) && Run(a, steps, b) && Enabled(b, ResolveTake(r, req, outcome))
    requires req in b.taken || forall c | c in b.calls && IdOf(b.calls[c]) == Some(req) ::
      b.calls[c].Leaving? || b.calls[c].Done?
    ensures Next(b, ResolveTake(r, req, outcome)) == b
  {
    InitInv(a);
    RunKeepsInv(a, steps, b);
    PendingIsOpen(b, req);
  }

  /** What a call has settled on. */
  function ResOf(pc: Pc): Option<Resolution>
  {
    if pc.Settled? || pc.Leaving? || pc.Done? then Some(pc.res) else None
  }

  lemma StepSettles(st: State, step: Step, c: Caller)
    requires Enabled(st, step) && c in st.calls
    ensures var st' := Next(st, step);
      && c in st'.calls && (IdOf(st.calls[c]).Some? ==> IdOf(st'.calls[c]) == IdOf(st.calls[c]))
      && (ResOf(st.calls[c]).Some? ==> ResOf(st'.calls[c]) == ResOf(st.calls[c]))
  {
    if !IsOf(step, c) {
      CallStays(st, step, c);
    }
  }

  lemma {:induction false} SettledForGood(a: State, steps: seq<Step>, b: State, c: Caller)
    requires Run(a, steps, b) && c in a.calls
    ensures c in b.calls && (IdOf(a.calls[c]).Some? ==> IdOf(b.calls[c]) == IdOf(a.calls[c]))
    ensures ResOf(a.calls[c]).Some? ==> ResOf(b.calls[c]) == ResOf(a.calls[c])
    decreases |steps|
  {
    if steps != [] {
      StepSettles(a, steps[0], c);
      SettledForGood(Next(a, steps[0]), steps[1..], b, c);
    }
  }

  lemma {:induction false} TakenForGood(a: State, steps: seq<Step>, b: State, req: RequestId)
    requires Inv(a) && Run(a, steps, b) && req in a.taken
    ensures req in b.taken && b.taken[req] == a.taken[req]
    decreases |steps|
  {
    if steps != [] {
      assert TakenOk(a, req);
      StepKeepsInv(a, steps[0]);
      TakenForGood(Next(a, steps[0]), steps[1..], b, req);
    }
  }

  /** Once a call has settled, and once a request is resolved, nothing that happens later changes either. */
  lemma ResolutionIsFinal(start: State, before: seq<Step>, a: State, steps: seq<Step>, b: State, c: Caller)
    requires Init(start) && Run(start, before, a) && Run(a, steps, b) && c in a.calls
    ensures c in b.calls && (IdOf(a.calls[c]).Some? ==> IdOf(b.calls[c]) == IdOf(a.calls[c]))
    ensures ResOf(a.calls[c]).Some? ==> ResOf(b.calls[c]) == ResOf(a.calls[c])
    ensures forall req | req in a.taken :: req in b.taken && b.taken[req] == a.taken[req]
  {
    InitInv(start);
    RunKeepsInv(start, before, a);
    SettledForGood(a, steps, b, c);
    forall req | req in a.taken ensures req in b.taken && b.taken[req] == a.taken[req] {
      TakenForGood(a, steps, b, req);
    }
  }

  // ── progress ──

  /** The steps a call has left, at most. */
  function Rank(pc: Pc): (rank: nat)
    ensures rank <= 7
  {
    match pc
    case Start => 7
    case Permitted => 6
    case Numbered(_) => 5
    case Emitting(_) => 4
    case Waiting(_) => 3
    case Settled(_, _) => 2
    case Leaving(_, _) => 1
    case Shedding => 1
    case Done(_, _) => 0
  }

  predicate IsOf(step: Step, c: Caller)
  {
    OfCall(step) && step.c == c
  }

  function StepsOf(steps: seq<Step>, c: Caller): nat
  {
    if steps == [] then 0 else (if IsOf(steps[0], c) then 1 else 0) + StepsOf(steps[1..], c)
  }

  /** The call has to hand its event to a full queue; its timer has not started. */
  predicate Blocked(st: State, c: Caller)
    requires c in st.calls
  {
    st.calls[c].Emitting? && BridgeFull(st)
  }

  ghost predicate CanMove(st: State, c: Caller)
  {
    exists step :: Enabled(st, step) && IsOf(step, c)
  }

  /** One event read by the bridge unblocks the call. */
  ghost predicate BridgeCanFree(st: State, c: Caller)
    requires c in st.calls && st.capacity > 0
  {
    var step := BridgeMoves(st.capacity - 1, false);
    Enabled(st, step) && !Blocked(Next(st, step), c)
  }

  /** No call waits for another: unless it is blocked, one that has not returned has a step, its timer at the latest. */
  lemma CanStep(st: State, c: Caller) returns (step: Step)
    requires c in st.calls && !st.calls[c].Done? && !Blocked(st, c)
    ensures Enabled(st, step) && IsOf(step, c)
  {
    match st.calls[c] {
      case Start => step := FetchAdd(c);
      case Shedding => step := Shed(c);
      case Permitted => step := TakeId(c);
      case Numbered(_) => step := InsertPending(c);
      case Emitting(_) => step := Emit(c);
      case Waiting(req) => step := if req in st.mail then Receive(c) else Expire(c);
      case Settled(_, _) => step := RemovePending(c);
      case Leaving(_, _) => step := DropPermit(c);
    }
  }

  /**
   * Whatever the other calls, the resolvers and the bridge do, a call returns within seven steps of its own; until then
   * it can take one if and only if it is not handing its event to a full queue; and there the bridge can make room.
   */
  lemma CallsReturn(a: State, steps: seq<Step>, b: State, c: Caller)
    requires Run(a, steps, b) && c in a.calls
    ensures c in b.calls && StepsOf(steps, c) + Rank(b.calls[c]) <= Rank(a.calls[c]) <= 7
    ensures ProgressAt(b, c)
  {
    RankFalls(a, steps, b, c);
    Progresses(b, c);
  }

  /** Unless it has returned, the call can move exactly if it is not blocked, and blocked it can be freed. */
  ghost predicate ProgressAt(st: State, c: Caller)
    requires c in st.calls
  {
    && (!st.calls[c].Done? ==> (CanMove(st, c) <==> !Blocked(st, c)))
    && (Blocked(st, c) && st.capacity > 0 ==> BridgeCanFree(st, c))
  }

  lemma Progresses(st: State, c: Caller)
    requires c in st.calls
    ensures ProgressAt(st, c)
  {
    BridgeFrees(st, c);
    if !st.calls[c].Done? {
      StepsUnlessBlocked(st, c);
    }
  }

  lemma StepsUnlessBlocked(st: State, c: Caller)
    requires c in st.calls && !st.calls[c].Done?
    ensures CanMove(st, c) <==> !Blocked(st, c)
  {
    if !Blocked(st, c) {
      var step := CanStep(st, c);
    }
  }

  lemma BridgeFrees(st: State, c: Caller)
    requires c in st.calls
    ensures Blocked(st, c) && st.capacity > 0 ==> BridgeCanFree(st, c)
  {
  }

  lemma {:induction false} RankFalls(a: State, steps: seq<Step>, b: State, c: Caller)
    requires Run(a, steps, b) && c in a.calls
    ensures c in b.calls && StepsOf(steps, c) + Rank(b.calls[c]) <= Rank(a.calls[c]) <= 7
    decreases |steps|
  {
    if steps != [] {
      RankStep(a, steps[0], c);
      RankFalls(Next(a, steps[0]), steps[1..], b, c);
    }
  }

  lemma RankStep(st: State, step: Step, c: Caller)
    requires Enabled(st, step) && c in st.calls
    ensures var st' := Next(st, step);
      c in st'.calls && Rank(st'.calls[c]) + (if IsOf(step, c) then 1 else 0) <= Rank(st.calls[c])
  {
    if !IsOf(step, c) {
      CallStays(st, step, c);
    }
  }
}
