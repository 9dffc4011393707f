/** The renewal daemon, its one-slot trigger channel and the mutex it shares with the keystore's
    (re)connection: `acmeDaemon`, `triggerAcmeOrders` and `doAcmeOrders` of
    `cmd/acme-store/worker.go`, `initKeystore` and its retry loop of `cmd/acme-store/keystore.go`. */
module Daemon {

  datatype Cause = Startup | Tick | Manual

  datatype Pc =
    | Selecting                 // in the select loop
    | Starting(cause: Cause)    // doAcmeOrders was called, the mutex is not yet held
    | Holding(cause: Cause)     // the mutex is held, the managed list not yet read
    | Working(rest: nat)        // that many domains of the snapshot are left
    | Leaving                   // about to release the mutex

  /** `Clearing`: opening the keystore reported an error, and the variable is about to be reset. */
  datatype RetryPc = Sleeping | Wanting | Connecting | Clearing

  /** What opening the keystore returns: it, an error, or both when the account cannot be stored. */
  datatype Outcome = Opened | NotOpened | HalfOpened

  datatype Owner = Nobody | TheDaemon | TheRetry

  /** What the managed list was when a run came to read it: unavailable, or a snapshot. */
  datatype Attempt = KeystoreDown | ListUnreadable | Snapshot(domains: nat)

  datatype Entry =
    | Triggered                 // triggerAcmeOrders was called; its token may have been dropped
    | Sent                      // a token was put into the channel
    | Received                  // the daemon took it
    | Attempted(a: Attempt)     // a run read the list, or could not

  /** `token` and `tick` say whether the channel and the ticker hold an element. */
  datatype State = State(
    pc: Pc, retry: RetryPc, mutex: Owner, token: bool, tick: bool, connected: bool, log: seq<Entry>)

  datatype Event =
    | CallTrigger
    | TickerFires
    | TakeTick
    | TakeToken
    | LockMutex
    | ReadList(readable: bool, domains: nat)
    | HandleDomain
    | UnlockMutex
    | RetryWakes
    | RetryLocks
    | RetryAssigns(outcome: Outcome)
    | RetryClears

  predicate Enabled(s: State, e: Event) {
    match e
    case CallTrigger => true
    case TickerFires => true
    case TakeTick => s.pc.Selecting? && s.tick
    case TakeToken => s.pc.Selecting? && s.token
    case LockMutex => s.pc.Starting? && s.mutex.Nobody?
    case ReadList(_, _) => s.pc.Holding?
    case HandleDomain => s.pc.Working? && s.pc.rest > 0
    case UnlockMutex => s.pc.Leaving? || s.pc == Working(0)
    case RetryWakes => s.retry.Sleeping? && !s.connected
    case RetryLocks => s.retry.Wanting? && s.mutex.Nobody?
    case RetryAssigns(_) => s.retry.Connecting?
    case RetryClears => s.retry.Clearing?
  }

  function Read(s: State, readable: bool, domains: nat): Attempt {
    if !s.connected then KeystoreDown else if !readable then ListUnreadable else Snapshot(domains)
  }

  function Next(s: State, e: Event): State {
    if !Enabled(s, e) then s
    else match e
      case CallTrigger =>
        // A non-blocking send: a full channel drops the token.
        if s.token then s.(log := s.log + [Triggered]) else s.(token := true, log := s.log + [Triggered, Sent])
      case TickerFires => s.(tick := true)
      case TakeTick => s.(pc := Starting(Tick), tick := false)
      case TakeToken => s.(pc := Starting(Manual), token := false, log := s.log + [Received])
      case LockMutex => s.(pc := Holding(s.pc.cause), mutex := TheDaemon)
      case ReadList(readable, domains) =>
        var a := Read(s, readable, domains);
        s.(pc := if a.Snapshot? && domains > 0 then Working(domains) else Leaving, log := s.log + [Attempted(a)])
      case HandleDomain => s.(pc := Working(s.pc.rest - 1))
      case UnlockMutex => s.(pc := Selecting, mutex := Nobody)
      case RetryWakes => s.(retry := Wanting)
      case RetryLocks => s.(retry := Connecting, mutex := TheRetry)
      case RetryAssigns(outcome) =>
        if outcome.Opened? then s.(retry := Sleeping, mutex := Nobody, connected := true)
        else s.(retry := Clearing, connected := outcome.HalfOpened?)
      case RetryClears => s.(retry := Sleeping, mutex := Nobody, connected := false)
  }

  function Exec(s: State, es: seq<Event>): State {
    if es == [] then s else Next(Exec(s, es[..|es| - 1]), es[|es| - 1])
  }

  /** The daemon begins with a run of its own. */
  function Begin(connected: bool): State {
    State(Starting(Startup), Sleeping, Nobody, false, false, connected, [])
  }

  lemma {:induction false} ExecAppend(s: State, a: seq<Event>, b: seq<Event>)
    ensures Exec(s, a + b) == Exec(Exec(s, a), b)
  {
    if b == [] {
      assert a + b == a;
    } else {
      ExecAppend(s, a, b[..|b| - 1]);
      assert (a + b)[..|a + b| - 1] == a + b[..|b| - 1];
    }
  }

  /******* Runs do not overlap *******/

  predicate InRun(pc: Pc) {
    pc.Holding? || pc.Working? || pc.Leaving?
  }

  /** The mutex is held exactly during a run of the daemon, or by a reconnection. */
  ghost predicate Exclusive(s: State) {
    (s.mutex.TheDaemon? <==> InRun(s.pc)) && (s.mutex.TheRetry? <==> s.retry.Connecting? || s.retry.Clearing?)
  }

  lemma NextKeepsExclusive(s: State, e: Event)
    requires Exclusive(s)
    ensures Exclusive(Next(s, e))
  {
  }

  lemma {:induction false} RunsExclude(s: State, es: seq<Event>)
    requires Exclusive(s)
    ensures Exclusive(Exec(s, es))
    ensures InRun(Exec(s, es).pc) ==> !Exec(s, es).retry.Connecting? && !Exec(s, es).retry.Clearing?
  {
    if es != [] {
      RunsExclude(s, es[..|es| - 1]);
      NextKeepsExclusive(Exec(s, es[..|es| - 1]), es[|es| - 1]);
    }
  }

  /******* What becomes of a trigger *******/

  /** A trigger was called and no snapshot of the managed list was taken since. */
  predicate Owed(log: seq<Entry>) {
    log != [] &&
    var last := log[|log| - 1];
    last.Triggered? || (!(last.Attempted? && last.a.Snapshot?) && Owed(log[..|log| - 1]))
  }

  lemma OwedMore(log: seq<Entry>, e: Entry)
    ensures Owed(log + [e]) <==> e.Triggered? || (!(e.Attempted? && e.a.Snapshot?) && Owed(log))
  {
    assert (log + [e])[..|log|] == log;
  }

  lemma OwedAfterTrigger(log: seq<Entry>)
    ensures Owed(log + [Triggered]) && Owed(log + [Triggered, Sent])
  {
    OwedMore(log, Triggered);
    OwedMore(log + [Triggered], Sent);
    assert log + [Triggered, Sent] == log + [Triggered] + [Sent];
  }

  /** A read of the list is still to come: from the token, or from a run that was started. */
  predicate InHand(s: State) {
    s.token || s.pc.Starting? || s.pc.Holding?
  }

  predicate Kept(s: State) {
    Owed(s.log) ==> InHand(s)
  }

  /** The read that would serve the trigger fails, and no later token is in the channel. */
  predicate Drops(s: State, e: Event) {
    e.ReadList? && Enabled(s, e) && Owed(s.log) && !s.token && !Read(s, e.readable, e.domains).Snapshot?
  }

  lemma NextKeepsUnlessDropped(s: State, e: Event)
    requires Kept(s)
    ensures Kept(Next(s, e)) <==> !Drops(s, e)
  {
    OwedAfterTrigger(s.log);
    OwedMore(s.log, Received);
    if e.ReadList? { OwedMore(s.log, Attempted(Read(s, e.readable, e.domains))); }
  }

  /** After each event of the run, and before the first. */
  ghost predicate AlwaysKept(s: State, es: seq<Event>) {
    Kept(Exec(s, es)) && (es != [] ==> AlwaysKept(s, es[..|es| - 1]))
  }

  /** No event of the run. */
  ghost predicate NeverDrops(s: State, es: seq<Event>) {
    es != [] ==> !Drops(Exec(s, es[..|es| - 1]), es[|es| - 1]) && NeverDrops(s, es[..|es| - 1])
  }

  lemma {:induction false} KeptUnlessDropped(s: State, es: seq<Event>)
    requires Kept(s)
    ensures AlwaysKept(s, es) <==> NeverDrops(s, es)
  {
    if es != [] {
      var front, e := es[..|es| - 1], es[|es| - 1];
      KeptUnlessDropped(s, front);
      if Kept(Exec(s, front)) { NextKeepsUnlessDropped(Exec(s, front), e); }
    }
  }

  /** In every run, every trigger, those whose token was dropped included, has at every moment been
      followed by a snapshot or has one to come, exactly if no read that would have served one
      failed.  The failed read takes the trigger with it: nothing reads again before the next tick
      or trigger. */
  lemma TriggersAreKeptExactly(connected: bool, es: seq<Event>)
    ensures AlwaysKept(Begin(connected), es) <==> NeverDrops(Begin(connected), es)
  {
    KeptUnlessDropped(Begin(connected), es);
  }

  /** Whenever the daemon waits in its loop, a trigger followed by a failed read leaves it waiting
      again, with the trigger gone... */
  lemma FailedReadDropsFrom(s: State, n: nat) returns (es: seq<Event>)
    requires s.pc.Selecting? && s.mutex.Nobody? && s.connected && !s.token
    ensures Exec(s, es) == s.(log := s.log + [Triggered, Sent, Received, Attempted(ListUnreadable)])
    ensures Owed(Exec(s, es).log)
  {
    var e1, s1 := TriggersRun(s);
    var e2, s2 := FailsToRead(s1, n);
    es := e1 + e2;
    ExecAppend(s, e1, e2);
    assert s.log + [Triggered, Sent, Received, Attempted(ListUnreadable)]
        == s.log + [Triggered, Sent] + [Received] + [Attempted(ListUnreadable)];
    OwedAfterTrigger(s.log);
    OwedMore(s.log + [Triggered, Sent], Received);
    OwedMore(s.log + [Triggered, Sent] + [Received], Attempted(ListUnreadable));
  }

  /** ...so there is such a run from the start, with the keystore connected throughout. */
  lemma FailedReadDropsTrigger(n: nat) returns (es: seq<Event>)
    ensures var s := Exec(Begin(true), es);
            s.pc.Selecting? && s.connected && !s.token && !s.tick && Owed(s.log)
  {
    var s0 := ThreeSteps(Begin(true), LockMutex, ReadList(true, 0), UnlockMutex);
    var e0 := [LockMutex, ReadList(true, 0), UnlockMutex];
    var e1 := FailedReadDropsFrom(s0, n);
    es := e0 + e1;
    ExecAppend(Begin(true), e0, e1);
  }

  lemma TriggersRun(s: State) returns (es: seq<Event>, after: State)
    requires s.pc.Selecting? && s.mutex.Nobody? && !s.token
    ensures Exec(s, es) == after == s.(pc := Holding(Manual), mutex := TheDaemon, log := s.log + [Triggered, Sent] + [Received])
  {
    es := [CallTrigger, TakeToken, LockMutex];
    after := ThreeSteps(s, CallTrigger, TakeToken, LockMutex);
  }

  lemma FailsToRead(s: State, n: nat) returns (es: seq<Event>, after: State)
    requires s.pc.Holding? && s.connected
    ensures after == Exec(s, es) == s.(pc := Selecting, mutex := Nobody, log := s.log + [Attempted(ListUnreadable)])
  {
    es, after := [ReadList(false, n), UnlockMutex], Next(Next(s, ReadList(false, n)), UnlockMutex);
    OneStep(s, ReadList(false, n));
    OneStep(Next(s, ReadList(false, n)), UnlockMutex);
    ExecAppend(s, [ReadList(false, n)], [UnlockMutex]);
    assert es == [ReadList(false, n)] + [UnlockMutex];
  }

  lemma OneStep(s: State, e: Event)
    ensures Exec(s, [e]) == Next(s, e)
  {
    assert [e][..0] == [];
  }

  lemma ThreeSteps(s: State, a: Event, b: Event, c: Event) returns (after: State)
    ensures after == Next(Next(Next(s, a), b), c) == Exec(s, [a, b, c])
  {
    after := Next(Next(Next(s, a), b), c);
    ExecAppend(s, [a], [b]);
    ExecAppend(s, [a, b], [c]);
    OneStep(s, a);
    OneStep(Next(s, a), b);
    OneStep(Next(Next(s, a), b), c);
    assert [a] + [b] == [a, b] && [a, b] + [c] == [a, b, c];
  }

  /** Connected, and not about to be reset. */
  predicate Steady(s: State) {
    s.connected && s.retry.Sleeping?
  }

  lemma {:induction false} ConnectedStays(s: State, es: seq<Event>)
    requires Steady(s)
    ensures Steady(Exec(s, es))
    ensures forall k :: |s.log| <= k < |Exec(s, es).log| ==> Exec(s, es).log[k] != Attempted(KeystoreDown)
    ensures |s.log| <= |Exec(s, es).log|
  {
    if es != [] { ConnectedStays(s, es[..|es| - 1]); }
  }

  ghost predicate ReadsSucceed(es: seq<Event>) {
    forall e :: e in es && e.ReadList? ==> e.readable
  }

  /** Triggers are called only with the keystore connected for good.  The handler checks that it is
      connected; a reconnection that is about to be undone passes that check too. */
  ghost predicate TriggersChecked(s: State, es: seq<Event>) {
    forall k :: 0 <= k < |es| && es[k].CallTrigger? ==> Steady(Exec(s, es[..k]))
  }

  lemma NextKeepsServed(s: State, e: Event)
    requires Kept(s) && (Owed(s.log) ==> Steady(s))
    requires (e.ReadList? ==> e.readable) && (e.CallTrigger? ==> Steady(s))
    ensures Kept(Next(s, e)) && (Owed(Next(s, e).log) ==> Steady(Next(s, e)))
  {
    NextKeepsUnlessDropped(s, e);
    OwedMore(s.log, Received);
    if e.ReadList? { OwedMore(s.log, Attempted(Read(s, e.readable, e.domains))); }
  }

  /** So if the list can always be read, no trigger is lost, from a start with or without a
      keystore. */
  lemma {:induction false} NoTriggerIsLost(connected: bool, es: seq<Event>)
    requires ReadsSucceed(es) && TriggersChecked(Begin(connected), es)
    ensures Kept(Exec(Begin(connected), es))
    ensures Owed(Exec(Begin(connected), es).log) ==> Steady(Exec(Begin(connected), es))
  {
    if es != [] {
      var front := es[..|es| - 1];
      forall k | 0 <= k < |front| ensures es[..k] == front[..k] {}
      assert ReadsSucceed(front) && es[|es| - 1] in es;
      assert TriggersChecked(Begin(connected), front);
      NoTriggerIsLost(connected, front);
      NextKeepsServed(Exec(Begin(connected), front), es[|es| - 1]);
    }
  }

  /******* It is also served *******/

  predicate DaemonEvent(e: Event) {
    e.TakeTick? || e.TakeToken? || e.LockMutex? || e.ReadList? || e.HandleDomain? || e.UnlockMutex?
  }

  /** How many steps of the daemon remain before it reads the list again. */
  function Distance(s: State): nat {
    match s.pc
    case Holding(_) => 1
    case Starting(_) => 2
    case Selecting => 3
    case Leaving => 4
    case Working(rest) => 4 + rest
  }

  /** The steps the daemon takes along `es`. */
  function DaemonSteps(s: State, es: seq<Event>): nat {
    if es == [] then 0
    else DaemonSteps(s, es[..|es| - 1]) +
         (if DaemonEvent(es[|es| - 1]) && Enabled(Exec(s, es[..|es| - 1]), es[|es| - 1]) then 1 else 0)
  }

  ghost predicate ReadsList(s: State, es: seq<Event>) {
    exists k :: 0 <= k < |es| && es[k].ReadList? && Enabled(Exec(s, es[..k]), es[k])
  }

  lemma ReadsListLater(s: State, es: seq<Event>)
    requires es != []
    ensures ReadsList(s, es[..|es| - 1]) ==> ReadsList(s, es)
    ensures es[|es| - 1].ReadList? && Enabled(Exec(s, es[..|es| - 1]), es[|es| - 1]) ==> ReadsList(s, es)
  {
    var front := es[..|es| - 1];
    if k :| 0 <= k < |front| && front[k].ReadList? && Enabled(Exec(s, front[..k]), front[k]) {
      assert es[..k] == front[..k];
    }
  }

  /** Every step of the daemon brings the next read of the list nearer, and nothing else puts it
      off: so it is attempted within `Distance(s)` of its steps. */
  lemma {:induction false} ReadComesNearer(s: State, es: seq<Event>)
    requires !ReadsList(s, es)
    ensures Distance(Exec(s, es)) + DaemonSteps(s, es) == Distance(s)
  {
    if es != [] {
      var front := es[..|es| - 1];
      ReadsListLater(s, es);
      ReadComesNearer(s, front);
      StepComesNearer(Exec(s, front), es[|es| - 1]);
    }
  }

  lemma StepComesNearer(s: State, e: Event)
    requires !(e.ReadList? && Enabled(s, e))
    ensures Distance(Next(s, e)) + (if DaemonEvent(e) && Enabled(s, e) then 1 else 0) == Distance(s)
  {
  }

  lemma AttemptWithinDistance(s: State, es: seq<Event>)
    requires DaemonSteps(s, es) >= Distance(s)
    ensures ReadsList(s, es)
  {
    if !ReadsList(s, es) { ReadComesNearer(s, es); }
  }

  ghost predicate TakesSnapshot(s: State, es: seq<Event>) {
    exists k :: 0 <= k < |es| && es[k].ReadList? && Enabled(Exec(s, es[..k]), es[k]) &&
                Read(Exec(s, es[..k]), es[k].readable, es[k].domains).Snapshot?
  }

  /** And when the keystore is connected and its list can be read, that read is a snapshot. */
  lemma SnapshotWithinDistance(s: State, es: seq<Event>)
    requires DaemonSteps(s, es) >= Distance(s)
    requires Steady(s) && ReadsSucceed(es)
    ensures TakesSnapshot(s, es)
  {
    AttemptWithinDistance(s, es);
    var k :| 0 <= k < |es| && es[k].ReadList? && Enabled(Exec(s, es[..k]), es[k]);
    ConnectedStays(s, es[..k]);
    assert es[k] in es;
  }

  /** As long as a read is to come, or a tick waits to be taken, the daemon can move, or waits for a
      reconnection that can. */
  lemma InHandIsNotStuck(connected: bool, es: seq<Event>)
    requires InHand(Exec(Begin(connected), es)) || Exec(Begin(connected), es).tick
    ensures var s := Exec(Begin(connected), es);
            Enabled(s, RetryAssigns(Opened)) || Enabled(s, RetryClears) || Enabled(s, TakeTick) ||
            Enabled(s, TakeToken) || Enabled(s, LockMutex) || Enabled(s, ReadList(true, 0)) ||
            Enabled(s, HandleDomain) || Enabled(s, UnlockMutex)
  {
    RunsExclude(Begin(connected), es);
  }

  /******* Triggers coalesce *******/

  function Count(es: seq<Event>, s: State, e: Event): nat {
    if es == [] then 0
    else Count(es[..|es| - 1], s, e) + (if es[|es| - 1] == e && Enabled(Exec(s, es[..|es| - 1]), e) then 1 else 0)
  }

  function Tokens(s: State): nat {
    if s.token then 1 else 0
  }

  /** However often triggers are called while the daemon takes no token, exactly one is left in the
      channel, if there was a call or one was there before. */
  lemma {:induction false} TriggersCoalesce(s: State, es: seq<Event>)
    requires Count(es, s, TakeToken) == 0
    ensures Exec(s, es).token == (s.token || Count(es, s, CallTrigger) > 0)
  {
    if es != [] { TriggersCoalesce(s, es[..|es| - 1]); }
  }

  /** And while none are called, the daemon starts at most that one manual run. */
  lemma {:induction false} ManualRunsAreBounded(s: State, es: seq<Event>)
    requires Count(es, s, CallTrigger) == 0
    ensures Count(es, s, TakeToken) + Tokens(Exec(s, es)) == Tokens(s)
  {
    if es != [] { ManualRunsAreBounded(s, es[..|es| - 1]); }
  }

  /** So any number of triggers during one run cause exactly one further manual run: whatever
      happens after it without a trigger, the manual runs started plus the token left make one. */
  lemma OneFurtherRun(s: State, during: seq<Event>, later: seq<Event>)
    requires InRun(s.pc) && Count(during, s, TakeToken) == 0 && Count(during, s, CallTrigger) > 0
    requires Count(later, Exec(s, during), CallTrigger) == 0
    ensures Count(later, Exec(s, during), TakeToken) + Tokens(Exec(s, during + later)) == 1
  {
    TriggersCoalesce(s, during);
    ManualRunsAreBounded(Exec(s, during), later);
    ExecAppend(s, during, later);
  }

  /** Each manual run answers a trigger of its own: never more runs than triggers. */
  lemma {:induction false} NoMoreRunsThanTriggers(connected: bool, es: seq<Event>)
    ensures var s := Exec(Begin(connected), es);
            Count(es, Begin(connected), TakeToken) + Tokens(s) <= Count(es, Begin(connected), CallTrigger)
  {
    if es != [] { NoMoreRunsThanTriggers(connected, es[..|es| - 1]); }
  }

  /******* What becomes of a tick *******/

  /** The ticker fired, and no tick was taken since. */
  predicate TickWaits(s: State, es: seq<Event>) {
    es != [] &&
    var front, e := es[..|es| - 1], es[|es| - 1];
    e.TickerFires? || (!(e.TakeTick? && Enabled(Exec(s, front), e)) && TickWaits(s, front))
  }

  /** In every run, whatever else happens, a tick that fired can be taken until it is: whenever the
      daemon is in its loop it may take it, exactly if the ticker fired since the last one taken. */
  lemma {:induction false} TicksWait(connected: bool, es: seq<Event>)
    ensures var s := Exec(Begin(connected), es);
            s.pc.Selecting? ==> (Enabled(s, TakeTick) <==> TickWaits(Begin(connected), es))
  {
    TickIsPending(connected, es);
  }

  lemma {:induction false} TickIsPending(connected: bool, es: seq<Event>)
    ensures Exec(Begin(connected), es).tick <==> TickWaits(Begin(connected), es)
  {
    if es != [] { TickIsPending(connected, es[..|es| - 1]); }
  }

  function Ticks(s: State): nat {
    if s.tick then 1 else 0
  }

  /** There are never more runs on ticks than ticks. */
  lemma {:induction false} NoMoreRunsThanTicks(connected: bool, es: seq<Event>)
    ensures var s := Exec(Begin(connected), es);
            Count(es, Begin(connected), TakeTick) + Ticks(s) <= Count(es, Begin(connected), TickerFires)
  {
    if es != [] { NoMoreRunsThanTicks(connected, es[..|es| - 1]); }
  }

  lemma {:induction false} TicksCoalesce(s: State, es: seq<Event>)
    requires Count(es, s, TakeTick) == 0
    ensures Exec(s, es).tick == (s.tick || Count(es, s, TickerFires) > 0)
  {
    if es != [] { TicksCoalesce(s, es[..|es| - 1]); }
  }

  lemma {:induction false} TickRunsAreBounded(s: State, es: seq<Event>)
    requires Count(es, s, TickerFires) == 0
    ensures Count(es, s, TakeTick) + Ticks(Exec(s, es)) == Ticks(s)
  {
    if es != [] { TickRunsAreBounded(s, es[..|es| - 1]); }
  }

  /** Any number of ticks during one run cause exactly one further run. */
  lemma OneFurtherTickRun(s: State, during: seq<Event>, later: seq<Event>)
    requires InRun(s.pc) && Count(during, s, TakeTick) == 0 && Count(during, s, TickerFires) > 0
    requires Count(later, Exec(s, during), TickerFires) == 0
    ensures Count(later, Exec(s, during), TakeTick) + Ticks(Exec(s, during + later)) == 1
  {
    TicksCoalesce(s, during);
    TickRunsAreBounded(Exec(s, during), later);
    ExecAppend(s, during, later);
  }

  /******* Every run that is started comes to a read, and handles its snapshot *******/

  /** How often the list was read, or was tried to be. */
  function Attempts(log: seq<Entry>): nat {
    if log == [] then 0 else Attempts(log[..|log| - 1]) + (if log[|log| - 1].Attempted? then 1 else 0)
  }

  lemma AttemptsMore(log: seq<Entry>, e: Entry)
    ensures Attempts(log + [e]) == Attempts(log) + (if e.Attempted? then 1 else 0)
  {
    assert (log + [e])[..|log|] == log;
  }

  lemma AttemptsAfterTrigger(log: seq<Entry>)
    ensures Attempts(log + [Triggered]) == Attempts(log + [Triggered, Sent]) == Attempts(log)
  {
    AttemptsMore(log, Triggered);
    AttemptsMore(log + [Triggered], Sent);
    assert log + [Triggered, Sent] == log + [Triggered] + [Sent];
  }

  function Unread(s: State): nat {
    if s.pc.Starting? || s.pc.Holding? then 1 else 0
  }

  /** The reads of the list are those of the run at the start and of one run for every tick and every
      token taken, but for the run that has yet to come to its read. */
  lemma {:induction false} RunsAreCounted(connected: bool, es: seq<Event>)
    ensures var s := Exec(Begin(connected), es);
            Attempts(s.log) + Unread(s) == 1 + Count(es, Begin(connected), TakeTick) + Count(es, Begin(connected), TakeToken)
  {
    if es != [] {
      RunsAreCounted(connected, es[..|es| - 1]);
      NextIsCounted(Exec(Begin(connected), es[..|es| - 1]), es[|es| - 1]);
    }
  }

  function Once(s: State, e: Event, kind: Event): nat {
    if e == kind && Enabled(s, e) then 1 else 0
  }

  lemma NextAttempts(s: State, e: Event)
    ensures Attempts(Next(s, e).log) == Attempts(s.log) + (if e.ReadList? && Enabled(s, e) then 1 else 0)
  {
    match e
    case CallTrigger => AttemptsAfterTrigger(s.log);
    case TakeToken => AttemptsMore(s.log, Received);
    case ReadList(readable, domains) => AttemptsMore(s.log, Attempted(Read(s, readable, domains)));
    case _ =>
  }

  lemma NextUnread(s: State, e: Event)
    ensures Unread(Next(s, e)) + (if e.ReadList? && Enabled(s, e) then 1 else 0) == Unread(s) + Once(s, e, TakeTick) + Once(s, e, TakeToken)
  {
  }

  lemma NextIsCounted(s: State, e: Event)
    ensures Attempts(Next(s, e).log) + Unread(Next(s, e)) == Attempts(s.log) + Unread(s) + Once(s, e, TakeTick) + Once(s, e, TakeToken)
  {
    NextAttempts(s, e);
    NextUnread(s, e);
  }

  /** The domains in all the snapshots taken. */
  function Listed(log: seq<Entry>): nat {
    if log == [] then 0
    else
      var last := log[|log| - 1];
      Listed(log[..|log| - 1]) + (if last.Attempted? && last.a.Snapshot? then last.a.domains else 0)
  }

  lemma ListedMore(log: seq<Entry>, e: Entry)
    ensures Listed(log + [e]) == Listed(log) + (if e.Attempted? && e.a.Snapshot? then e.a.domains else 0)
  {
    assert (log + [e])[..|log|] == log;
  }

  lemma ListedAfterTrigger(log: seq<Entry>)
    ensures Listed(log + [Triggered]) == Listed(log + [Triggered, Sent]) == Listed(log)
  {
    ListedMore(log, Triggered);
    ListedMore(log + [Triggered], Sent);
    assert log + [Triggered, Sent] == log + [Triggered] + [Sent];
  }

  function Unhandled(s: State): nat {
    if s.pc.Working? then s.pc.rest else 0
  }

  /** Every domain of every snapshot is handled once, but for those the present run has left. */
  lemma {:induction false} SnapshotsAreHandled(connected: bool, es: seq<Event>)
    ensures var s := Exec(Begin(connected), es);
            Count(es, Begin(connected), HandleDomain) + Unhandled(s) == Listed(s.log)
  {
    if es != [] {
      SnapshotsAreHandled(connected, es[..|es| - 1]);
      NextIsHandled(Exec(Begin(connected), es[..|es| - 1]), es[|es| - 1]);
    }
  }

  lemma NextListed(s: State, e: Event)
    ensures Listed(Next(s, e).log) == Listed(s.log) +
              if e.ReadList? && Enabled(s, e) && Read(s, e.readable, e.domains).Snapshot? then e.domains else 0
  {
    match e
    case CallTrigger => ListedAfterTrigger(s.log);
    case TakeToken => ListedMore(s.log, Received);
    case ReadList(readable, domains) => ListedMore(s.log, Attempted(Read(s, readable, domains)));
    case _ =>
  }

  lemma NextUnhandled(s: State, e: Event)
    ensures Unhandled(Next(s, e)) + Once(s, e, HandleDomain) ==
            Unhandled(s) + if e.ReadList? && Enabled(s, e) && Read(s, e.readable, e.domains).Snapshot? then e.domains else 0
  {
  }

  lemma NextIsHandled(s: State, e: Event)
    ensures Listed(Next(s, e).log) + Unhandled(s) == Listed(s.log) + Unhandled(Next(s, e)) + Once(s, e, HandleDomain)
  {
    NextListed(s, e);
    NextUnhandled(s, e);
  }

  /** A read is a snapshot of what the list holds exactly if the keystore is connected and the list can
      be read. */
  lemma ReadsWhatIsThere(s: State, readable: bool, domains: nat)
    requires s.pc.Holding?
    ensures Next(s, ReadList(readable, domains)).log
            == s.log + [Attempted(if !s.connected then KeystoreDown else if readable then Snapshot(domains) else ListUnreadable)]
  {
  }

  /** Without a keystore the retry loop can always go on, unless a run holds the mutex, and once its
      keystore opens it is connected. */
  lemma ReconnectionProceeds(connected: bool, es: seq<Event>)
    requires !Exec(Begin(connected), es).connected
    ensures var s := Exec(Begin(connected), es);
            match s.retry
            case Sleeping => Enabled(s, RetryWakes) && Next(s, RetryWakes).retry.Wanting?
            case Wanting => if InRun(s.pc) then !Enabled(s, RetryLocks) else Enabled(s, RetryLocks) && Next(s, RetryLocks).retry.Connecting?
            case Connecting => Enabled(s, RetryAssigns(Opened)) && Next(s, RetryAssigns(Opened)).connected && Next(s, RetryAssigns(Opened)).retry.Sleeping?
            case Clearing => Enabled(s, RetryClears) && Next(s, RetryClears).retry.Sleeping?
  {
    RunsExclude(Begin(connected), es);
  }

  /** What opening the keystore leaves, outcome by outcome: with an error it is reset a step later, and
      until then one that was returned beside the error is in place. */
  lemma OpeningExactly(s: State)
    requires s.retry.Connecting?
    ensures Next(s, RetryAssigns(Opened)) == s.(retry := Sleeping, mutex := Nobody, connected := true)
    ensures Next(s, RetryAssigns(NotOpened)) == s.(retry := Clearing, connected := false)
    ensures Next(s, RetryAssigns(HalfOpened)) == s.(retry := Clearing, connected := true)
    ensures forall outcome :: outcome != Opened ==>
              Next(Next(s, RetryAssigns(outcome)), RetryClears) == s.(retry := Sleeping, mutex := Nobody, connected := false)
  {
  }

  /** That is why `NoTriggerIsLost` asks for more than the handler checks: a trigger called in between is
      let through, and the run it causes finds the keystore down. */
  lemma HalfOpenedDropsTrigger(s: State, n: nat) returns (es: seq<Event>)
    requires s.retry.Connecting? && s.pc.Selecting? && !s.token
    ensures |es| > 1 && es[1] == CallTrigger && Exec(s, es[..1]).connected
    ensures Exec(s, es).pc.Selecting? && !Exec(s, es).token && Owed(Exec(s, es).log)
    ensures Exec(s, es).log == s.log + [Triggered, Sent, Received, Attempted(KeystoreDown)]
  {
    OpeningExactly(s);
    var s1 := ThreeSteps(s, RetryAssigns(HalfOpened), CallTrigger, TakeToken);
    var e1 := [RetryAssigns(HalfOpened), CallTrigger, TakeToken];
    assert s1 == s.(retry := Clearing, connected := true, pc := Starting(Manual), token := false, log := s.log + [Triggered, Sent] + [Received]);
    var e2, s2 := FindsKeystoreDown(s1, n);
    es := e1 + e2;
    ExecAppend(s, e1, e2);
    OneStep(s, RetryAssigns(HalfOpened));
    assert es[..1] == [RetryAssigns(HalfOpened)];
    assert s.log + [Triggered, Sent, Received, Attempted(KeystoreDown)]
        == s.log + [Triggered, Sent] + [Received] + [Attempted(KeystoreDown)];
    OwedAfterTrigger(s.log);
    OwedMore(s.log + [Triggered, Sent], Received);
    OwedMore(s.log + [Triggered, Sent] + [Received], Attempted(KeystoreDown));
  }

  lemma FindsKeystoreDown(s: State, n: nat) returns (es: seq<Event>, after: State)
    requires s.retry.Clearing? && s.pc.Starting?
    ensures after == Exec(s, es) && after.pc.Selecting? && after.token == s.token && after.log == s.log + [Attempted(KeystoreDown)]
  {
    var s1 := ThreeSteps(s, RetryClears, LockMutex, ReadList(true, n));
    var e1 := [RetryClears, LockMutex, ReadList(true, n)];
    es, after := e1 + [UnlockMutex], Next(s1, UnlockMutex);
    ExecAppend(s, e1, [UnlockMutex]);
    OneStep(s1, UnlockMutex);
  }
}
