/** The managed list under every interleaving: linearizable with a lock, merely free of duplicates
    without one. */
module ManagedLists {
  import opened Wrappers
  import opened Keystore
  import opened Interleaving

  /******* No duplicates, with or without a lock *******/

  predicate Committing(pc: Pc) {
    pc.AddCommit? || pc.RemoveCommit?
  }

  /** What a thread between its two list accesses knows of the list it has read. */
  ghost predicate ReadDistinct(pc: Pc) {
    (pc.AddCommit? ==> NoDup(Names(pc.md)) && pc.d !in Names(pc.md)) &&
    (pc.RemoveCommit? ==> NoDup(Names(pc.md)) && pc.d in Names(pc.md))
  }

  ghost predicate Distinct(s: State) {
    NoDup(Names(s.sh.managed)) && forall t :: t in s.threads ==> ReadDistinct(s.threads[t])
  }

  lemma CommitStaysDistinct(pc: Pc)
    requires Committing(pc) && ReadDistinct(pc)
    ensures pc.AddCommit? ==> NoDup(Names(pc.md + [ManagedDomain(pc.d, pc.sans)]))
    ensures pc.RemoveCommit? ==> NoDup(Names(Without(pc.md, pc.d)))
  {
    if pc.AddCommit? {
      NamesAppend(pc.md, ManagedDomain(pc.d, pc.sans));
    } else {
      WithoutNoDup(pc.md, pc.d);
    }
  }

  /** A continuation is never at a list access. */
  ghost predicate PlainNext(pc: Pc) {
    pc.Rewrite? ==> !Committing(pc.next) && !pc.next.AddRead? && !pc.next.Rewrite?
  }

  /** The list changes at commits only, and only entering an operation reads it. */
  lemma ListEffects(sh: Shared, t: nat, pc: Pc, i: Input)
    requires PlainNext(pc)
    ensures var (pc', e) := Local(sh, t, pc, i);
            PlainNext(pc') &&
            (pc.AddCommit? && e.Commit? ==> e.asOf == pc.asOf && e.md == pc.md + [ManagedDomain(pc.d, pc.sans)] && e.ev == Added(pc.d, pc.sans)) &&
            (pc.RemoveCommit? && e.Commit? ==> e.asOf == pc.asOf && e.md == Without(pc.md, pc.d) && e.ev == Removed(pc.d)) &&
            (e.Commit? ==> Committing(pc)) &&
            (e.Answer? ==> e.ev.Refused? && e.ev.d == pc.d && (e.ev.adding ==> pc.AddEnter? && pc.d in Names(if i.fails then [] else sh.managed)) &&
                           (!e.ev.adding ==> pc.RemoveEnter? && pc.d !in Names(sh.managed)))
    ensures var pc' := Local(sh, t, pc, i).0;
            (pc'.AddCommit? ==> pc.AddEnter? && pc'.d !in Names(pc'.md) && (pc'.md == sh.managed || pc'.md == [])) &&
            (pc'.RemoveCommit? ==> pc.RemoveEnter? && pc'.d in Names(pc'.md) && pc'.md == sh.managed)
  {
  }

  lemma LocalKeepsDistinct(sh: Shared, t: nat, pc: Pc, i: Input)
    requires NoDup(Names(sh.managed)) && ReadDistinct(pc) && PlainNext(pc)
    ensures var (pc', e) := Local(sh, t, pc, i);
            NoDup(Names(Perform(sh, t, e).managed)) && ReadDistinct(pc') && PlainNext(pc')
  {
    ListEffects(sh, t, pc, i);
    if Committing(pc) { CommitStaysDistinct(pc); }
  }

  lemma NextKeepsDistinct(s: State, m: Move)
    requires Distinct(s) && forall t :: t in s.threads ==> PlainNext(s.threads[t])
    ensures Distinct(Next(s, m)) && forall t :: t in Next(s, m).threads ==> PlainNext(Next(s, m).threads[t])
  {
    if m.Step? && m.t in s.threads && Enabled(s.sh, m.t, s.threads[m.t]) {
      LocalKeepsDistinct(s.sh, m.t, s.threads[m.t], m.i);
    }
  }

  /** Even over Vault, where operations overwrite each other's lists, no list ever holds a domain
      twice. */
  lemma {:induction false} ListStaysDistinct(s: State, moves: seq<Move>)
    requires Initial(s)
    ensures Distinct(Exec(s, moves))
    ensures forall t :: t in Exec(s, moves).threads ==> PlainNext(Exec(s, moves).threads[t])
  {
    if moves != [] {
      ListStaysDistinct(s, moves[..|moves| - 1]);
      NextKeepsDistinct(Exec(s, moves[..|moves| - 1]), moves[|moves| - 1]);
    }
  }

  /******* Linearizability, with a lock *******/

  /** What the sequential keystore does for an event... */
  function ApplyEvent(md: seq<ManagedDomain>, ev: Event): seq<ManagedDomain> {
    match ev
    case Added(d, sans) => md + [ManagedDomain(d, sans)]
    case Removed(d) => Without(md, d)
    case Refused(_, _) => md
  }

  /** ...and whether that is what it answers. */
  predicate Warranted(md: seq<ManagedDomain>, ev: Event) {
    match ev
    case Added(d, _) => d !in Names(md)
    case Removed(d) => d in Names(md)
    case Refused(d, adding) => adding <==> d in Names(md)
  }

  function Replay(start: seq<ManagedDomain>, log: seq<Event>): seq<ManagedDomain> {
    if log == [] then start else ApplyEvent(Replay(start, log[..|log| - 1]), log[|log| - 1])
  }

  ghost predicate Justified(start: seq<ManagedDomain>, log: seq<Event>) {
    log == [] ||
    (Justified(start, log[..|log| - 1]) && Warranted(Replay(start, log[..|log| - 1]), log[|log| - 1]))
  }

  lemma ReplayMore(start: seq<ManagedDomain>, log: seq<Event>, ev: Event)
    ensures Replay(start, log + [ev]) == ApplyEvent(Replay(start, log), ev)
    ensures Justified(start, log + [ev]) == (Justified(start, log) && Warranted(Replay(start, log), ev))
  {
    assert (log + [ev])[..|log|] == log;
  }

  /** The lock is held exactly by the thread between its two list accesses, which therefore still
      knows the list. */
  ghost predicate LockedReader(sh: Shared, t: nat, pc: Pc) {
    (Committing(pc) <==> sh.lock == Some(t)) &&
    (pc.AddCommit? ==> pc.md == sh.managed && pc.d !in Names(pc.md)) &&
    (pc.RemoveCommit? ==> pc.md == sh.managed && pc.d in Names(pc.md))
  }

  ghost predicate Linear(s: State, start: seq<ManagedDomain>) {
    s.sh.locking && s.sh.managed == Replay(start, s.sh.log) && Justified(start, s.sh.log) &&
    (s.sh.lock.Some? ==> s.sh.lock.value in s.threads) &&
    forall t :: t in s.threads ==> LockedReader(s.sh, t, s.threads[t]) && PlainNext(s.threads[t])
  }

  /** With a lock, what is done to the list is done to the present list, and refusals are true. */
  ghost predicate Sequential(sh: Shared, e: Effect) {
    (e.Commit? ==> !e.ev.Refused? && e.md == ApplyEvent(sh.managed, e.ev) && Warranted(sh.managed, e.ev)) &&
    (e.Answer? ==> e.ev.Refused? && Warranted(sh.managed, e.ev))
  }

  lemma LocalIsSequential(sh: Shared, t: nat, pc: Pc, i: Input)
    requires sh.locking && LockedReader(sh, t, pc) && PlainNext(pc)
    ensures Sequential(sh, Local(sh, t, pc, i).1)
  {
    ListEffects(sh, t, pc, i);
  }

  lemma PerformKeepsReplay(sh: Shared, t: nat, e: Effect, start: seq<ManagedDomain>)
    requires sh.managed == Replay(start, sh.log) && Justified(start, sh.log) && Sequential(sh, e)
    ensures var after := Perform(sh, t, e);
            after.managed == Replay(start, after.log) && Justified(start, after.log)
  {
    if e.Answer? || e.Commit? {
      ReplayMore(start, sh.log, e.ev);
    }
  }

  /** The lock is taken to commit, and given back by committing or giving up. */
  ghost predicate Locks(sh: Shared, pc: Pc, after: Pc, e: Effect) {
    (Committing(pc) <==> e.Commit? || e.Release?) &&
    (Committing(after) <==> e.Hold?) && (e.Hold? ==> pc.AddEnter? || pc.RemoveEnter?) &&
    (after.AddCommit? ==> after.d !in Names(after.md) && (sh.locking ==> after.md == sh.managed)) &&
    (after.RemoveCommit? ==> after.d in Names(after.md) && after.md == sh.managed)
  }

  lemma LocalLocks(sh: Shared, t: nat, pc: Pc, i: Input)
    requires PlainNext(pc)
    ensures var (after, e) := Local(sh, t, pc, i); PlainNext(after) && Locks(sh, pc, after, e)
  {
  }

  lemma EffectKeepsLock(sh: Shared, t: nat, pc: Pc, after: Pc, e: Effect)
    requires sh.locking && Enabled(sh, t, pc) && LockedReader(sh, t, pc) && Locks(sh, pc, after, e)
    ensures var now := Perform(sh, t, e);
            LockedReader(now, t, after) && now.locking && (now.lock.None? || now.lock == Some(t) || now.lock == sh.lock) &&
            (!Committing(pc) ==> now.managed == sh.managed && (sh.lock.Some? ==> now.lock == sh.lock))
  {
  }

  lemma NextKeepsLinear(s: State, m: Move, start: seq<ManagedDomain>)
    requires Linear(s, start)
    ensures Linear(Next(s, m), start)
  {
    if m.Spawn? {
      assert m.t !in s.threads && Startable(m.pc) ==> !Committing(m.pc);
    } else if m.t in s.threads && Enabled(s.sh, m.t, s.threads[m.t]) {
      var after := Next(s, m);
      LocalIsSequential(s.sh, m.t, s.threads[m.t], m.i);
      PerformKeepsReplay(s.sh, m.t, Local(s.sh, m.t, s.threads[m.t], m.i).1, start);
      LocalLocks(s.sh, m.t, s.threads[m.t], m.i);
      EffectKeepsLock(s.sh, m.t, s.threads[m.t], after.threads[m.t], Local(s.sh, m.t, s.threads[m.t], m.i).1);
      forall t | t in after.threads ensures LockedReader(after.sh, t, after.threads[t]) && PlainNext(after.threads[t]) {
        if t != m.t {
          assert LockedReader(s.sh, t, s.threads[t]);
        }
      }
    }
  }

  /** On the filesystem, in every interleaving, the list is what its committed additions and
      removals make of it one after the other, and every one of them, refusals included, was
      answered as the sequential keystore would at that point. */
  lemma {:induction false} ListIsLinearizable(s: State, moves: seq<Move>)
    requires Initial(s) && s.sh.locking
    ensures Linear(Exec(s, moves), s.sh.managed)
  {
    if moves != [] {
      ListIsLinearizable(s, moves[..|moves| - 1]);
      NextKeepsLinear(Exec(s, moves[..|moves| - 1]), moves[|moves| - 1], s.sh.managed);
    }
  }

  predicate Finished(pc: Pc) {
    pc.Done? || pc.AddDone?
  }

  /** No deadlock: whatever happened, as long as some thread has not finished, some such thread can
      take its next step, because the one that holds the lock always can. */
  lemma LockedRunsProgress(s: State, moves: seq<Move>, t: nat)
    requires Initial(s) && s.sh.locking
    requires t in Exec(s, moves).threads && !Finished(Exec(s, moves).threads[t])
    ensures var now := Exec(s, moves);
            exists u :: u in now.threads && !Finished(now.threads[u]) && Enabled(now.sh, u, now.threads[u])
  {
    var now := Exec(s, moves);
    ListIsLinearizable(s, moves);
    var u := if now.sh.lock.Some? then now.sh.lock.value else t;
    assert LockedReader(now.sh, u, now.threads[u]);
    assert u in now.threads && !Finished(now.threads[u]) && Enabled(now.sh, u, now.threads[u]);
  }

  /******* No addition is lost *******/

  /** A domain is listed exactly when the last change to it was an addition. */
  function LastChange(start: seq<ManagedDomain>, log: seq<Event>, d: string): bool {
    if log == [] then d in Names(start)
    else match log[|log| - 1]
      case Added(e, _) => e == d || LastChange(start, log[..|log| - 1], d)
      case Removed(e) => e != d && LastChange(start, log[..|log| - 1], d)
      case Refused(_, _) => LastChange(start, log[..|log| - 1], d)
  }

  lemma {:induction false} ListedByLastChange(start: seq<ManagedDomain>, log: seq<Event>, d: string)
    ensures d in Names(Replay(start, log)) <==> LastChange(start, log, d)
  {
    if log != [] {
      ListedByLastChange(start, log[..|log| - 1], d);
      var md := Replay(start, log[..|log| - 1]);
      match log[|log| - 1] {
        case Added(e, sans) => NamesAppend(md, ManagedDomain(e, sans));
        case Removed(e) => WithoutMembers(md, e);
        case Refused(_, _) =>
      }
    }
  }

  ghost predicate NotRemovedSince(log: seq<Event>, at: nat, d: string) {
    forall k :: at < k < |log| ==> log[k] != Removed(d)
  }

  lemma {:induction false} AdditionLasts(start: seq<ManagedDomain>, log: seq<Event>, at: nat, d: string)
    requires at < |log| && log[at].Added? && log[at].d == d && NotRemovedSince(log, at, d)
    ensures LastChange(start, log, d)
  {
    if at < |log| - 1 {
      var front := log[..|log| - 1];
      assert NotRemovedSince(front, at, d);
      AdditionLasts(start, front, at, d);
    }
  }

  /** A thread past its addition remembers where in the log it is. */
  ghost predicate Recorded(log: seq<Event>, pc: Pc) {
    (pc.AddRead? || pc.AddDone? ==> pc.at < |log| && log[pc.at].Added? && log[pc.at].d == pc.d) &&
    (pc.Rewrite? ==> (pc.next.AddDone? ==> pc.next.at < |log| && log[pc.next.at].Added? && log[pc.next.at].d == pc.next.d))
  }

  lemma NextKeepsRecorded(s: State, m: Move)
    requires forall t :: t in s.threads ==> Recorded(s.sh.log, s.threads[t]) && PlainNext(s.threads[t])
    ensures forall t :: t in Next(s, m).threads ==> Recorded(Next(s, m).sh.log, Next(s, m).threads[t])
  {
    if m.Step? && m.t in s.threads && Enabled(s.sh, m.t, s.threads[m.t]) {
      LogGrows(s.sh, m.t, s.threads[m.t], m.i);
      LocalKeepsRecorded(s.sh, m.t, s.threads[m.t], m.i);
    }
  }

  lemma LogGrows(sh: Shared, t: nat, pc: Pc, i: Input)
    ensures sh.log <= Perform(sh, t, Local(sh, t, pc, i).1).log
  {
  }

  lemma LocalKeepsRecorded(sh: Shared, t: nat, pc: Pc, i: Input)
    requires Recorded(sh.log, pc) && PlainNext(pc)
    ensures Recorded(Perform(sh, t, Local(sh, t, pc, i).1).log, Local(sh, t, pc, i).0)
  {
  }

  lemma {:induction false} AdditionsAreRecorded(s: State, moves: seq<Move>)
    requires Initial(s)
    ensures forall t :: t in Exec(s, moves).threads ==> Recorded(Exec(s, moves).sh.log, Exec(s, moves).threads[t])
  {
    if moves != [] {
      AdditionsAreRecorded(s, moves[..|moves| - 1]);
      ListStaysDistinct(s, moves[..|moves| - 1]);
      NextKeepsRecorded(Exec(s, moves[..|moves| - 1]), moves[|moves| - 1]);
    }
  }

  /** The domain of a finished addition is listed unless it was removed since. */
  ghost predicate NoLostAddition(s: State) {
    forall t :: t in s.threads && s.threads[t].AddDone? ==>
      s.threads[t].at < |s.sh.log| &&
      (NotRemovedSince(s.sh.log, s.threads[t].at, s.threads[t].d) ==> s.threads[t].d in Names(s.sh.managed))
  }

  lemma NoAdditionIsLost(s: State, moves: seq<Move>)
    requires Initial(s) && s.sh.locking
    ensures NoLostAddition(Exec(s, moves))
  {
    var after := Exec(s, moves);
    ListIsLinearizable(s, moves);
    AdditionsAreRecorded(s, moves);
    forall t | t in after.threads && after.threads[t].AddDone? && NotRemovedSince(after.sh.log, after.threads[t].at, after.threads[t].d)
      ensures after.threads[t].d in Names(after.sh.managed)
    {
      AdditionLasts(s.sh.managed, after.sh.log, after.threads[t].at, after.threads[t].d);
      ListedByLastChange(s.sh.managed, after.sh.log, after.threads[t].d);
    }
  }
}
