/** Admission of control connections and observe helpers under any interleaving of the
    accepting thread and the handler threads. */
module Control {

  const MAX_CLIENTS: nat := 8
  const MAX_HELPERS: nat := 2
  const QUEUE: nat := 32

  /** Where a handler is: between the accepting thread's increment and its own start,
      serving, running a helper, or past its last work but not yet counted out. */
  datatype Phase = Admitted | Serving | Helping | Leaving

  /** The two atomic counters and the mutation channel, beside the handlers they should measure. */
  datatype Pool = Pool(clients: nat, active: nat, queued: nat, handlers: map<nat, Phase>)

  /** One atomic action of some thread. */
  datatype Step =
    | Accept(h: nat)        // fetch_update of `clients` by the accepting thread
    | Start(h: nat)         // the spawned thread begins
    | BeginHelp(h: nat)     // fetch_update of `active`
    | EndHelp(h: nat)       // fetch_sub of `active`
    | Enqueue(h: nat)       // try_send on the mutation channel
    | Drain(n: nat)         // the collector takes up to 32 mutations
    | Reply(h: nat)         // the handler has written its answer
    | Leave(h: nat)         // fetch_sub of `clients`

  /** The limits in plain numbers. */
  lemma Limits()
    ensures MAX_CLIENTS == 8 && MAX_HELPERS == 2 && QUEUE == 32
  {
  }

  const IDLE: Pool := Pool(0, 0, 0, map[])

  predicate InPhase(p: Pool, h: nat, phase: Phase) {
    h in p.handlers && p.handlers[h] == phase
  }

  /** Which thread may act: a handler acts in its own program order. */
  predicate Possible(p: Pool, step: Step) {
    match step
    case Accept(h) => h !in p.handlers
    case Start(h) => InPhase(p, h, Admitted)
    case BeginHelp(h) => InPhase(p, h, Serving)
    case EndHelp(h) => InPhase(p, h, Helping)
    case Enqueue(h) => InPhase(p, h, Serving)
    case Drain(n) => n <= p.queued && n <= QUEUE
    case Reply(h) => InPhase(p, h, Serving)
    case Leave(h) => InPhase(p, h, Leaving)
  }

  /** What the action does to the counters; a refused admission or helper changes nothing. */
  function Next(p: Pool, step: Step): Pool
    requires Possible(p, step)
  {
    match step
    case Accept(h) =>
      if p.clients < MAX_CLIENTS then p.(clients := p.clients + 1, handlers := p.handlers[h := Admitted]) else p
    case Start(h) => p.(handlers := p.handlers[h := Serving])
    case BeginHelp(h) =>
      if p.active < MAX_HELPERS then p.(active := p.active + 1, handlers := p.handlers[h := Helping]) else p
    case EndHelp(h) =>
      p.(active := if p.active > 0 then p.active - 1 else 0, handlers := p.handlers[h := Serving])
    case Enqueue(h) => if p.queued < QUEUE then p.(queued := p.queued + 1) else p
    case Drain(n) => p.(queued := p.queued - n)
    case Reply(h) => p.(handlers := p.handlers[h := Leaving])
    case Leave(h) => p.(clients := if p.clients > 0 then p.clients - 1 else 0, handlers := p.handlers - {h})
  }

  function Helpers(p: Pool): set<nat> {
    set h | h in p.handlers && p.handlers[h].Helping?
  }

  /** The counters measure the threads, and both are bounded. */
  ghost predicate Counted(p: Pool) {
    && p.clients == |p.handlers.Keys| <= MAX_CLIENTS
    && p.active == |Helpers(p)| <= MAX_HELPERS
    && p.queued <= QUEUE
  }

  /** Moving a live handler between phases keeps the handlers, and moves it in or out of the helpers. */
  lemma Moved(p: Pool, h: nat, phase: Phase)
    requires h in p.handlers
    ensures p.handlers[h := phase].Keys == p.handlers.Keys
    ensures Helpers(p.(handlers := p.handlers[h := phase])) == if phase.Helping? then Helpers(p) + {h} else Helpers(p) - {h}
  {
  }

  lemma Joined(p: Pool, h: nat)
    requires h !in p.handlers
    ensures p.handlers[h := Admitted].Keys == p.handlers.Keys + {h}
    ensures Helpers(p.(handlers := p.handlers[h := Admitted])) == Helpers(p)
  {
  }

  lemma Left(p: Pool, h: nat)
    requires h in p.handlers
    ensures (p.handlers - {h}).Keys == p.handlers.Keys - {h}
    ensures Helpers(p.(handlers := p.handlers - {h})) == Helpers(p) - {h}
  {
  }

  lemma HelpersOf(p: Pool, q: Pool)
    requires p.handlers == q.handlers
    ensures Helpers(p) == Helpers(q)
  {
  }

  /** What each kind of action does to the handlers and the helpers. */
  lemma KeysAfter(p: Pool, step: Step)
    requires Counted(p) && Possible(p, step)
    ensures Next(p, step).clients == |Next(p, step).handlers.Keys| <= MAX_CLIENTS
  {
    hide Helpers;
    match step
    case Accept(h) => if p.clients < MAX_CLIENTS { Joined(p, h); }
    case Start(h) => Moved(p, h, Serving);
    case BeginHelp(h) => Moved(p, h, Helping);
    case EndHelp(h) => Moved(p, h, Serving);
    case Enqueue(h) =>
    case Drain(n) =>
    case Reply(h) => Moved(p, h, Leaving);
    case Leave(h) => Left(p, h);
  }

  lemma HelpersAfter(p: Pool, step: Step)
    requires Counted(p) && Possible(p, step)
    ensures Next(p, step).active == |Helpers(Next(p, step))| <= MAX_HELPERS
  {
    var q := Next(p, step);
    var hs := Helpers(p);
    HelpersOf(p.(handlers := q.handlers), q);
    assert forall h :: h in hs <==> InPhase(p, h, Helping);
    hide Helpers;
    match step
    case Accept(h) => if p.clients < MAX_CLIENTS { Joined(p, h); }
    case Start(h) => Moved(p, h, Serving); assert hs - {h} == hs;
    case BeginHelp(h) => Moved(p, h, Helping);
    case EndHelp(h) => Moved(p, h, Serving);
    case Enqueue(h) =>
    case Drain(n) =>
    case Reply(h) => Moved(p, h, Leaving); assert hs - {h} == hs;
    case Leave(h) => Left(p, h); assert hs - {h} == hs;
  }

  /** Every atomic action of every thread keeps the counters exact. */
  lemma CountedStep(p: Pool, step: Step)
    requires Counted(p) && Possible(p, step)
    ensures Counted(Next(p, step))
  {
    KeysAfter(p, step);
    HelpersAfter(p, step);
  }

  ghost predicate Interleaving(p: Pool, steps: seq<Step>)
    decreases |steps|
  {
    steps == [] || (Possible(p, steps[0]) && Interleaving(Next(p, steps[0]), steps[1..]))
  }

  function After(p: Pool, steps: seq<Step>): Pool
    requires Interleaving(p, steps)
    decreases |steps|
  {
    if steps == [] then p else After(Next(p, steps[0]), steps[1..])
  }

  /** In every interleaving, `clients` is the number of live handlers and at most 8, and
      `active` the number of running helpers and at most 2. */
  lemma {:induction false} CountersMeasureThreads(p: Pool, steps: seq<Step>)
    requires Counted(p) && Interleaving(p, steps)
    ensures Counted(After(p, steps))
    decreases |steps|
  {
    if steps != [] {
      CountedStep(p, steps[0]);
      CountersMeasureThreads(Next(p, steps[0]), steps[1..]);
    }
  }

  /** Admission refuses exactly while eight handlers are live, helpers while two run. */
  lemma RefusedIff(p: Pool, step: Step)
    requires Counted(p) && Possible(p, step)
    ensures step.Accept? ==> (Next(p, step) == p <==> |p.handlers.Keys| == MAX_CLIENTS)
    ensures step.BeginHelp? ==> (Next(p, step) == p <==> |Helpers(p)| == MAX_HELPERS)
    ensures step.Enqueue? ==> (Next(p, step) == p <==> p.queued == 32)
  {
    if step.Accept? && p.clients < MAX_CLIENTS {
      assert Next(p, step).clients == p.clients + 1;
    }
  }

  /** The initial pool is counted, so every reachable one is. */
  lemma FromIdle(steps: seq<Step>)
    requires Interleaving(IDLE, steps)
    ensures Counted(After(IDLE, steps))
  {
    assert Helpers(IDLE) == {};
    CountersMeasureThreads(IDLE, steps);
  }
}
