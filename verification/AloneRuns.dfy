/** A thread that starts with the lock free, and moves while the others stand still, does what the
    sequential keystore does: the two models agree, and no step of such a thread is blocked. */
module AloneRuns {
  import opened Wrappers
  import opened Certificates
  import opened Keystore
  import opened Renewal
  import opened Handlers
  import opened Interleaving

  /** What the accesses of a thread come to.  `total` is the length of the worker's snapshot. */
  datatype Env =
    | AddIn(add: AddIo)
    | DetachIn(detach: DetachIo)
    | DeleteIn(readFails: bool, dropFails: bool)
    | ImportIn(writeFails: bool)
    | PassIn(attempts: nat -> Attempt, total: nat, listFails: bool)

  /** Thread `t`, with every other thread staying where it is in `others`. */
  datatype Solo = Solo(others: map<nat, Pc>, t: nat, env: Env)

  function Failing(fails: bool): Input {
    Input(fails, 0, SetupFailed(""), "")
  }

  /** How many domains of the snapshot the worker has dealt with. */
  function Visited(pc: Pc, total: nat): nat {
    var left :=
      match pc
      case WorkCheck(todo) => |todo|
      case WorkLeaf(_, rest) => |rest| + 1
      case WorkOrder(_, rest) => |rest| + 1
      case WorkStore(_, rest, _) => |rest| + 1
      case FailRead(_, rest, _) => |rest| + 1
      case MarkRead(_, rest, _) => |rest| + 1
      case Rewrite(_, _, _, next) => (match next case WorkCheck(rest) => |rest| + 1 case MarkRead(_, rest, _) => |rest| + 1 case _ => 0)
      case _ => 0;
    if left <= total then total - left else 0
  }

  function Meets(env: Env, pc: Pc): Input {
    match env
    case AddIn(io) =>
      Failing(if pc.AddEnter? then io.load else if pc.AddCommit? then io.list else if pc.AddRead? then io.read else io.write)
    case DetachIn(io) =>
      Failing(if pc.RemoveEnter? then io.remove.load else if pc.RemoveCommit? then io.remove.list
              else if pc.DisownRead? then io.read else if pc.DeleteWrite? then io.drop else io.write)
    case DeleteIn(readFails, dropFails) => Failing(if pc.DeleteCheck? then readFails else dropFails)
    case ImportIn(writeFails) => Failing(writeFails)
    case PassIn(attempts, total, listFails) =>
      if pc.WorkList? then Failing(listFails)
      else
        var at := attempts(Visited(pc, total));
        Input(if pc.WorkCheck? then at.io.check else if pc.WorkLeaf? then at.io.leaf else if pc.WorkStore? then at.io.store
              else if pc.FailRead? then at.io.failRead else if pc.MarkRead? then at.io.markRead
              else if pc.Rewrite? && pc.next.MarkRead? then at.io.failWrite else at.io.markWrite,
              at.now, at.ca, at.reason)
  }

  function At(c: Solo, sh: Shared, pc: Pc): State {
    State(sh, c.others[c.t := pc])
  }

  function Iterate(f: State -> State, s: State, n: nat): State {
    if n == 0 then s else f(Iterate(f, s, n - 1))
  }

  lemma {:induction false} IterateAdds(f: State -> State, s: State, a: nat, b: nat)
    ensures Iterate(f, s, a + b) == Iterate(f, Iterate(f, s, a), b)
  {
    if b > 0 { IterateAdds(f, s, a, b - 1); }
  }

  function NextMove(c: Solo, s: State): Move {
    Step(c.t, if c.t in s.threads then Meets(c.env, s.threads[c.t]) else Failing(false))
  }

  /** The state after `n` moves of the thread, and those moves. */
  function Moved(c: Solo, s: State, n: nat): State {
    Iterate((now: State) => Next(now, NextMove(c, now)), s, n)
  }

  function Schedule(c: Solo, s: State, n: nat): seq<Move> {
    if n == 0 then [] else Schedule(c, s, n - 1) + [NextMove(c, Moved(c, s, n - 1))]
  }

  lemma ExecMore(s: State, moves: seq<Move>, m: Move)
    ensures Exec(s, moves + [m]) == Next(Exec(s, moves), m)
  {
    assert (moves + [m])[..|moves|] == moves;
  }

  lemma {:induction false} ScheduleRuns(c: Solo, s: State, n: nat)
    ensures Exec(s, Schedule(c, s, n)) == Moved(c, s, n)
    ensures forall m :: m in Schedule(c, s, n) ==> m.Step? && m.t == c.t
  {
    if n > 0 {
      ScheduleRuns(c, s, n - 1);
      ExecMore(s, Schedule(c, s, n - 1), NextMove(c, Moved(c, s, n - 1)));
    }
  }

  /** Moving alone, the thread gets from `pc` to `next`, and the keystore from `sh` to `end`. */
  ghost predicate Leads(c: Solo, sh: Shared, pc: Pc, end: Shared, next: Pc) {
    exists n: nat :: Moved(c, At(c, sh, pc), n) == At(c, end, next)
  }

  lemma Stays(c: Solo, sh: Shared, pc: Pc)
    ensures Leads(c, sh, pc, sh, pc)
  {
    assert Moved(c, At(c, sh, pc), 0) == At(c, sh, pc);
  }

  lemma Goes(c: Solo, sh: Shared, pc: Pc, next: Pc, e: Effect)
    requires Enabled(sh, c.t, pc) && Local(sh, c.t, pc, Meets(c.env, pc)) == (next, e)
    ensures Leads(c, sh, pc, Perform(sh, c.t, e), next)
  {
    var s, after := At(c, sh, pc), At(c, Perform(sh, c.t, e), next);
    assert Moved(c, s, 0) == s;
    assert s.threads[c.t := next] == after.threads;
    assert Moved(c, s, 1) == after;
  }

  lemma Then(c: Solo, sh: Shared, pc: Pc, sh1: Shared, pc1: Pc, sh2: Shared, pc2: Pc)
    requires Leads(c, sh, pc, sh1, pc1) && Leads(c, sh1, pc1, sh2, pc2)
    ensures Leads(c, sh, pc, sh2, pc2)
  {
    var a: nat :| Moved(c, At(c, sh, pc), a) == At(c, sh1, pc1);
    var b: nat :| Moved(c, At(c, sh1, pc1), b) == At(c, sh2, pc2);
    IterateAdds((now: State) => Next(now, NextMove(c, now)), At(c, sh, pc), a, b);
    assert Moved(c, At(c, sh, pc), a + b) == At(c, sh2, pc2);
  }

  /** Each of the five operations can start at any time, as a thread of its own. */
  lemma OperationsStart(s: State, t: nat, d: string, sans: seq<string>, hard: bool, rec: CertAndKey)
    requires t !in s.threads
    ensures Exec(s, [Spawn(t, AddEnter(d, sans))]) == s.(threads := s.threads[t := AddEnter(d, sans)])
    ensures Exec(s, [Spawn(t, RemoveEnter(d, hard))]) == s.(threads := s.threads[t := RemoveEnter(d, hard)])
    ensures Exec(s, [Spawn(t, DeleteCheck(d))]) == s.(threads := s.threads[t := DeleteCheck(d)])
    ensures Exec(s, [Spawn(t, ImportWrite(d, rec))]) == s.(threads := s.threads[t := ImportWrite(d, rec)])
    ensures Exec(s, [Spawn(t, WorkList)]) == s.(threads := s.threads[t := WorkList])
  {
    forall m: Move ensures Exec(s, [m]) == Next(s, m) {
      ExecMore(s, [], m);
      assert [] + [m] == [m];
    }
  }

  /** Where moving alone leads is where a run of the interleaved model leads that starts the operation
      and then moves nothing but its thread. */
  lemma LeadsIsARun(s: State, c: Solo, pc: Pc, end: Shared, next: Pc) returns (moves: seq<Move>)
    requires c.others == s.threads && c.t !in s.threads && Startable(pc)
    requires Leads(c, s.sh, pc, end, next)
    ensures Exec(s, moves) == State(end, s.threads[c.t := next])
    ensures moves != [] && moves[0] == Spawn(c.t, pc) && forall m :: m in moves[1..] ==> m.Step? && m.t == c.t
  {
    var started := At(c, s.sh, pc);
    var n: nat :| Moved(c, started, n) == At(c, end, next);
    ScheduleRuns(c, started, n);
    moves := [Spawn(c.t, pc)] + Schedule(c, started, n);
    assert Exec(s, [Spawn(c.t, pc)]) == started by { assert [Spawn(c.t, pc)][..0] == []; }
    ExecAppend(s, [Spawn(c.t, pc)], Schedule(c, started, n));
  }

  /** The lock has to be free: an operation that starts while another thread stands still holding it
      never moves. */
  lemma {:induction false} HeldLockBlocks(c: Solo, sh: Shared, pc: Pc, n: nat)
    requires sh.lock.Some? && Startable(pc)
    ensures Moved(c, At(c, sh, pc), n) == At(c, sh, pc)
  {
    if n > 0 { HeldLockBlocks(c, sh, pc, n - 1); }
  }

  lemma {:induction false} ExecAppend(s: State, a: seq<Move>, b: seq<Move>)
    ensures Exec(s, a + b) == Exec(Exec(s, a), b)
  {
    if b == [] {
      assert a + b == a;
    } else {
      ExecAppend(s, a, b[..|b| - 1]);
      assert (a + b)[..|a + b| - 1] == a + b[..|b| - 1];
    }
  }

  function Contents(sh: Shared): Store {
    Store(sh.managed, sh.records)
  }

  /** The keystore at rest, holding `st`. */
  ghost predicate AtRest(sh: Shared, st: Store) {
    Contents(sh) == st && sh.lock == None
  }

  lemma RewriteAlone(c: Solo, sh: Shared, d: string, rec: CertAndKey, seen: Option<nat>, next: Pc, fails: bool) returns (end: Shared)
    requires sh.lock == None && Meets(c.env, Rewrite(d, rec, seen, next)).fails == fails
    ensures Leads(c, sh, Rewrite(d, rec, seen, next), end, next)
    ensures AtRest(end, if fails then Contents(sh) else Put(Contents(sh), d, rec))
  {
    var e := if fails then Nothing else Write(d, rec);
    end := Perform(sh, c.t, e);
    Goes(c, sh, Rewrite(d, rec, seen, next), next, e);
  }

  /** A read and the write it leads to, if any. */
  lemma WriteBackAlone(c: Solo, sh: Shared, pc: Pc, d: string, rec: Option<CertAndKey>, seen: Option<nat>, next: Pc, fails: bool)
    returns (end: Shared)
    requires sh.lock == None && Enabled(sh, c.t, pc)
    requires Local(sh, c.t, pc, Meets(c.env, pc)) == (WriteBack(sh, d, rec, seen, next), Nothing)
    requires rec.Some? ==> Meets(c.env, Rewrite(d, rec.value, seen, next)).fails == fails
    ensures Leads(c, sh, pc, end, next) && AtRest(end, PutIf(Contents(sh), d, if fails then None else rec))
  {
    end := sh;
    Goes(c, sh, pc, WriteBack(sh, d, rec, seen, next), Nothing);
    if rec.Some? {
      end := RewriteAlone(c, sh, d, rec.value, seen, next, fails);
      Then(c, sh, pc, sh, Rewrite(d, rec.value, seen, next), end, next);
    }
  }

  lemma EraseAlone(c: Solo, sh: Shared, d: string, fails: bool) returns (end: Shared)
    requires c.env.DetachIn? || c.env.DeleteIn?
    requires sh.lock == None && Meets(c.env, DeleteWrite(d)).fails == fails
    ensures Leads(c, sh, DeleteWrite(d), end, Done) && AtRest(end, if fails then Contents(sh) else Drop(Contents(sh), d))
  {
    if fails {
      end := sh;
      Goes(c, sh, DeleteWrite(d), Done, Nothing);
    } else {
      end := Perform(sh, c.t, Erase(d));
      Goes(c, sh, DeleteWrite(d), Done, Erase(d));
    }
  }

  /******* Adding a domain *******/

  lemma AddedAlone(c: Solo, sh: Shared, d: string, sans: seq<string>, io: AddIo, at: nat) returns (end: Shared)
    requires c.env == AddIn(io) && sh.lock == None
    ensures Leads(c, sh, AddRead(d, sans, at), end, AddDone(d, at))
    ensures AtRest(end, PutIf(Contents(sh), d, if io.write then None else Claim(Read(Contents(sh), d, io.read), d, sans)))
  {
    end := WriteBackAlone(c, sh, AddRead(d, sans, at), d, Claim(Read(Contents(sh), d, io.read), d, sans),
                          if io.read then None else Some(Version(sh, d)), AddDone(d, at), io.write);
  }

  /** The keystore while a thread is between its two accesses to the list. */
  function Held(sh: Shared, t: nat): Shared {
    if sh.locking then sh.(lock := Some(t)) else sh
  }

  /** The list an addition goes on with; on the filesystem it gives up when it cannot read it. */
  function ListRead(sh: Shared, io: AddIo): seq<ManagedDomain> {
    if io.load then [] else sh.managed
  }

  lemma AddCommitsAlone(c: Solo, sh: Shared, d: string, sans: seq<string>, io: AddIo) returns (end: Shared)
    requires c.env == AddIn(io) && sh.lock == None && (io.load ==> !sh.locking) && d !in Names(ListRead(sh, io))
    ensures if io.list then Leads(c, sh, AddEnter(d, sans), end, Done) && AtRest(end, Contents(sh))
            else Leads(c, sh, AddEnter(d, sans), end, AddRead(d, sans, |sh.log|)) &&
                 AtRest(end, Contents(sh).(managed := ListRead(sh, io) + [ManagedDomain(d, sans)]))
  {
    var md, asOf := ListRead(sh, io), if io.load then None else Some(|sh.log|);
    var pc, held := AddCommit(d, sans, md, asOf), Held(sh, c.t);
    Goes(c, sh, AddEnter(d, sans), pc, Hold);
    var next := if io.list then Done else AddRead(d, sans, |sh.log|);
    var e := if io.list then Release else Commit(md + [ManagedDomain(d, sans)], Added(d, sans), asOf);
    Goes(c, held, pc, next, e);
    end := Perform(held, c.t, e);
    Then(c, sh, AddEnter(d, sans), held, pc, end, next);
  }

  /** An addition that starts with the lock free and runs alone is the sequential addition, whatever
      fails: the filesystem's with a lock, and Vault's without. */
  lemma AddAlone(c: Solo, sh: Shared, d: string, sans: seq<string>, io: AddIo) returns (end: Shared)
    requires c.env == AddIn(io) && sh.lock == None
    ensures var (st, err) := Add(if sh.locking then Filesystem else Vault, Contents(sh), d, sans, io);
            Leads(c, sh, AddEnter(d, sans), end, if err.None? then AddDone(d, |sh.log|) else Done) && AtRest(end, st)
  {
    if io.load && sh.locking {
      end := sh;
      Goes(c, sh, AddEnter(d, sans), Done, Nothing);
    } else if d in Names(ListRead(sh, io)) {
      end := Perform(sh, c.t, Answer(Refused(d, true)));
      Goes(c, sh, AddEnter(d, sans), Done, Answer(Refused(d, true)));
    } else {
      end := AddCommitsAlone(c, sh, d, sans, io);
      if !io.list {
        var listed := end;
        end := AddedAlone(c, listed, d, sans, io, |sh.log|);
        Then(c, sh, AddEnter(d, sans), listed, AddRead(d, sans, |sh.log|), end, AddDone(d, |sh.log|));
      }
    }
  }

  /** Over Vault, whatever was listed, an addition that cannot read the list and can write it succeeds
      and leaves its own domain as the only one listed. */
  lemma UnreadListIsReplaced(c: Solo, sh: Shared, d: string, sans: seq<string>, io: AddIo) returns (end: Shared)
    requires c.env == AddIn(io) && sh.lock == None && !sh.locking && io.load && !io.list
    ensures Leads(c, sh, AddEnter(d, sans), end, AddDone(d, |sh.log|)) && end.managed == [ManagedDomain(d, sans)]
  {
    end := AddAlone(c, sh, d, sans, io);
    AddVaultExactly(Contents(sh), d, sans, io);
  }

  /** So every domain that was listed and is not that one is lost, in a run that begins anywhere. */
  lemma UnreadListLosesDomains(s: State, t: nat, d: string, e: string) returns (moves: seq<Move>)
    requires !s.sh.locking && s.sh.lock == None && t !in s.threads && e != d && e in Names(s.sh.managed)
    ensures var after := Exec(s, moves);
            after.threads == s.threads[t := AddDone(d, |s.sh.log|)] && Names(after.sh.managed) == [d] && e !in Names(after.sh.managed)
  {
    var c := Solo(s.threads, t, AddIn(AddIo(true, false, false, false)));
    var end := UnreadListIsReplaced(c, s.sh, d, [], AddIo(true, false, false, false));
    moves := LeadsIsARun(s, c, AddEnter(d, []), end, AddDone(d, |s.sh.log|));
  }

  /******* Removing a domain *******/

  function Detached(st: Store, d: string, hard: bool, removed: bool, io: DetachIo): Store {
    if hard then (if io.drop then st else Drop(st, d))
    else if removed then PutIf(st, d, if io.write then None else Disown(Read(st, d, io.read)))
    else st
  }

  /** Where a removal continues once the list is dealt with. */
  function Detaching(d: string, hard: bool, removed: bool): Pc {
    if hard then DeleteWrite(d) else if removed then DisownRead(d) else Done
  }

  lemma DetachAlone(c: Solo, sh: Shared, d: string, hard: bool, removed: bool, io: DetachIo) returns (end: Shared)
    requires c.env == DetachIn(io) && sh.lock == None
    ensures Leads(c, sh, Detaching(d, hard, removed), end, Done) && AtRest(end, Detached(Contents(sh), d, hard, removed, io))
  {
    end := sh;
    if hard {
      end := EraseAlone(c, sh, d, io.drop);
    } else if removed {
      end := WriteBackAlone(c, sh, DisownRead(d), d, Disown(Read(Contents(sh), d, io.read)), Some(Version(sh, d)), Done, io.write);
    } else {
      Stays(c, sh, Done);
    }
  }

  lemma UnlistAlone(c: Solo, sh: Shared, d: string, hard: bool, io: DetachIo) returns (end: Shared)
    requires c.env == DetachIn(io) && sh.lock == None
    ensures var (st, err) := Remove(Contents(sh), d, io.remove);
            Leads(c, sh, RemoveEnter(d, hard), end, Detaching(d, hard, err.None?)) && AtRest(end, st)
  {
    var enter := RemoveEnter(d, hard);
    if io.remove.load {
      end := sh;
      Goes(c, sh, enter, Detaching(d, hard, false), Nothing);
    } else if d !in Names(sh.managed) {
      end := Perform(sh, c.t, Answer(Refused(d, false)));
      Goes(c, sh, enter, Detaching(d, hard, false), Answer(Refused(d, false)));
    } else {
      var pc, held := RemoveCommit(d, hard, sh.managed, Some(|sh.log|)), Held(sh, c.t);
      Goes(c, sh, enter, pc, Hold);
      end := RemoveCommitsAlone(c, held, d, hard, io, Some(|sh.log|));
      Then(c, sh, enter, held, pc, end, Detaching(d, hard, !io.remove.list));
    }
  }

  lemma RemoveCommitsAlone(c: Solo, held: Shared, d: string, hard: bool, io: DetachIo, asOf: Option<nat>) returns (end: Shared)
    requires c.env == DetachIn(io)
    ensures Leads(c, held, RemoveCommit(d, hard, held.managed, asOf), end, Detaching(d, hard, !io.remove.list))
    ensures AtRest(end, if io.remove.list then Contents(held) else Contents(held).(managed := Without(held.managed, d)))
  {
    var e := if io.remove.list then Release else Commit(Without(held.managed, d), Removed(d), asOf);
    Goes(c, held, RemoveCommit(d, hard, held.managed, asOf), Detaching(d, hard, !io.remove.list), e);
    end := Perform(held, c.t, e);
  }

  /** A removal that runs alone is the sequential removal, with a lock or without. */
  lemma RemoveAlone(c: Solo, sh: Shared, d: string, hard: bool, io: DetachIo) returns (end: Shared)
    requires c.env == DetachIn(io) && sh.lock == None && d != ""
    ensures Leads(c, sh, RemoveEnter(d, hard), end, Done) && AtRest(end, HandleRemove(Contents(sh), d, hard, io).0)
  {
    var unlisted := UnlistAlone(c, sh, d, hard, io);
    var removed := Remove(Contents(sh), d, io.remove).1.None?;
    end := DetachAlone(c, unlisted, d, hard, removed, io);
    Then(c, sh, RemoveEnter(d, hard), unlisted, Detaching(d, hard, removed), end, Done);
  }

  /******* Deleting a certificate, importing one *******/

  lemma DeleteAlone(c: Solo, sh: Shared, d: string, readFails: bool, dropFails: bool) returns (end: Shared)
    requires c.env == DeleteIn(readFails, dropFails) && sh.lock == None && d != ""
    ensures Leads(c, sh, DeleteCheck(d), end, Done) && AtRest(end, HandleDeleteCert(Contents(sh), d, readFails, dropFails).0)
  {
    end := sh;
    if readFails || Lookup(sh, d).managed {
      Goes(c, sh, DeleteCheck(d), Done, Nothing);
    } else {
      Goes(c, sh, DeleteCheck(d), DeleteWrite(d), Nothing);
      end := EraseAlone(c, sh, d, dropFails);
      Then(c, sh, DeleteCheck(d), sh, DeleteWrite(d), end, Done);
    }
  }

  lemma ImportAlone(c: Solo, sh: Shared, d: string, rec: CertAndKey, fails: bool) returns (end: Shared)
    requires c.env == ImportIn(fails) && sh.lock == None
    ensures Leads(c, sh, ImportWrite(d, rec), end, Done) && AtRest(end, if fails then Contents(sh) else Put(Contents(sh), d, rec))
  {
    var e := if fails then Nothing else Install(d, rec);
    end := Perform(sh, c.t, e);
    Goes(c, sh, ImportWrite(d, rec), Done, e);
  }

  /******* The worker *******/

  /** The worker is about to visit a domain with `rest` still to come after it. */
  ghost predicate Visiting(c: Solo, rest: seq<string>, at: Attempt) {
    c.env.PassIn? && |rest| < c.env.total && at == c.env.attempts(c.env.total - |rest| - 1)
  }

  lemma MarkAlone(c: Solo, sh: Shared, d: string, rest: seq<string>, msg: string, at: Attempt) returns (end: Shared)
    requires Visiting(c, rest, at) && sh.lock == None
    ensures Leads(c, sh, MarkRead(d, rest, msg), end, WorkCheck(rest))
    ensures AtRest(end, Mark(Contents(sh), d, msg, at.io.markRead, at.io.markWrite))
  {
    end := WriteBackAlone(c, sh, MarkRead(d, rest, msg), d, Blame(Read(Contents(sh), d, at.io.markRead), msg),
                          Some(Version(sh, d)), WorkCheck(rest), at.io.markWrite);
  }

  lemma FailAlone(c: Solo, sh: Shared, d: string, rest: seq<string>, msg: string, at: Attempt) returns (end: Shared)
    requires Visiting(c, rest, at) && sh.lock == None
    ensures Leads(c, sh, FailRead(d, rest, msg), end, WorkCheck(rest))
    ensures AtRest(end, Mark(Mark(Contents(sh), d, msg, at.io.failRead, at.io.failWrite), d, NO_ORDER + msg, at.io.markRead, at.io.markWrite))
  {
    var mark := MarkRead(d, rest, NO_ORDER + msg);
    var failed := WriteBackAlone(c, sh, FailRead(d, rest, msg), d, Blame(Read(Contents(sh), d, at.io.failRead), msg),
                                 Some(Version(sh, d)), mark, at.io.failWrite);
    end := MarkAlone(c, failed, d, rest, NO_ORDER + msg, at);
    Then(c, sh, FailRead(d, rest, msg), failed, mark, end, WorkCheck(rest));
  }

  lemma GrantedAlone(c: Solo, sh: Shared, d: string, rest: seq<string>, rec: CertAndKey, at: Attempt) returns (end: Shared)
    requires Visiting(c, rest, at) && sh.lock == None
    ensures Leads(c, sh, WorkStore(d, rest, rec), end, WorkCheck(rest))
    ensures AtRest(end, if at.io.store then Mark(Contents(sh), d, NoStore(d, at.reason), at.io.markRead, at.io.markWrite) else Put(Contents(sh), d, rec))
  {
    var store := WorkStore(d, rest, rec);
    if at.io.store {
      Goes(c, sh, store, MarkRead(d, rest, NoStore(d, at.reason)), Nothing);
      end := MarkAlone(c, sh, d, rest, NoStore(d, at.reason), at);
      Then(c, sh, store, sh, MarkRead(d, rest, NoStore(d, at.reason)), end, WorkCheck(rest));
    } else {
      end := Perform(sh, c.t, Write(d, rec));
      Goes(c, sh, store, WorkCheck(rest), Write(d, rec));
    }
  }

  /** What a visit that places an order comes to. */
  function Ordered(st: Store, d: string, at: Attempt): Store {
    match at.ca
    case SetupFailed(msg) => Mark(st, d, msg, at.io.markRead, at.io.markWrite)
    case OrderFailed(msg) => Mark(Mark(st, d, msg, at.io.failRead, at.io.failWrite), d, NO_ORDER + msg, at.io.markRead, at.io.markWrite)
    case Obtained(chain, url, key) =>
      match IssuedRecord(chain, key, url)
      case None => Mark(st, d, NoLeaf(d), at.io.markRead, at.io.markWrite)
      case Some(rec) => if at.io.store then Mark(st, d, NoStore(d, at.reason), at.io.markRead, at.io.markWrite) else Put(st, d, rec)
  }

  lemma OrderAlone(c: Solo, sh: Shared, d: string, rest: seq<string>, at: Attempt) returns (end: Shared)
    requires Visiting(c, rest, at) && sh.lock == None
    ensures Leads(c, sh, WorkOrder(d, rest), end, WorkCheck(rest)) && AtRest(end, Ordered(Contents(sh), d, at))
  {
    var order := WorkOrder(d, rest);
    match at.ca {
      case SetupFailed(msg) =>
        Goes(c, sh, order, MarkRead(d, rest, msg), Nothing);
        end := MarkAlone(c, sh, d, rest, msg, at);
        Then(c, sh, order, sh, MarkRead(d, rest, msg), end, WorkCheck(rest));
      case OrderFailed(msg) =>
        Goes(c, sh, order, FailRead(d, rest, msg), Nothing);
        end := FailAlone(c, sh, d, rest, msg, at);
        Then(c, sh, order, sh, FailRead(d, rest, msg), end, WorkCheck(rest));
      case Obtained(chain, url, key) =>
        end := AnsweredAlone(c, sh, d, rest, at, IssuedRecord(chain, key, url));
    }
  }

  lemma AnsweredAlone(c: Solo, sh: Shared, d: string, rest: seq<string>, at: Attempt, rec: Option<CertAndKey>) returns (end: Shared)
    requires Visiting(c, rest, at) && sh.lock == None
    requires at.ca.Obtained? && rec == IssuedRecord(at.ca.chain, at.ca.key, at.ca.url)
    ensures Leads(c, sh, WorkOrder(d, rest), end, WorkCheck(rest)) && AtRest(end, Ordered(Contents(sh), d, at))
  {
    if rec.None? {
      end := LeaflessAlone(c, sh, d, rest, at);
    } else {
      var granted := OrderGranted(c, sh, d, rest, rec.value, at);
      end := IssuedAlone(c, sh, d, rest, rec.value, at, granted);
    }
  }

  lemma LeaflessAlone(c: Solo, sh: Shared, d: string, rest: seq<string>, at: Attempt) returns (end: Shared)
    requires Visiting(c, rest, at) && sh.lock == None
    requires at.ca.Obtained? && IssuedRecord(at.ca.chain, at.ca.key, at.ca.url).None?
    ensures Leads(c, sh, WorkOrder(d, rest), end, WorkCheck(rest))
    ensures AtRest(end, Mark(Contents(sh), d, NoLeaf(d), at.io.markRead, at.io.markWrite))
  {
    Goes(c, sh, WorkOrder(d, rest), MarkRead(d, rest, NoLeaf(d)), Nothing);
    end := MarkAlone(c, sh, d, rest, NoLeaf(d), at);
    Then(c, sh, WorkOrder(d, rest), sh, MarkRead(d, rest, NoLeaf(d)), end, WorkCheck(rest));
  }

  lemma OrderGranted(c: Solo, sh: Shared, d: string, rest: seq<string>, rec: CertAndKey, at: Attempt) returns (granted: Shared)
    requires Visiting(c, rest, at) && sh.lock == None
    requires at.ca.Obtained? && IssuedRecord(at.ca.chain, at.ca.key, at.ca.url) == Some(rec)
    ensures Leads(c, sh, WorkOrder(d, rest), granted, WorkStore(d, rest, rec)) && AtRest(granted, Contents(sh))
  {
    granted := Perform(sh, c.t, Originate(d, rec));
    Goes(c, sh, WorkOrder(d, rest), WorkStore(d, rest, rec), Originate(d, rec));
  }

  lemma IssuedAlone(c: Solo, sh: Shared, d: string, rest: seq<string>, rec: CertAndKey, at: Attempt, granted: Shared) returns (end: Shared)
    requires Visiting(c, rest, at) && sh.lock == None && AtRest(granted, Contents(sh))
    requires Leads(c, sh, WorkOrder(d, rest), granted, WorkStore(d, rest, rec))
    ensures Leads(c, sh, WorkOrder(d, rest), end, WorkCheck(rest))
    ensures AtRest(end, if at.io.store then Mark(Contents(sh), d, NoStore(d, at.reason), at.io.markRead, at.io.markWrite) else Put(Contents(sh), d, rec))
  {
    end := GrantedAlone(c, granted, d, rest, rec, at);
    Then(c, sh, WorkOrder(d, rest), granted, WorkStore(d, rest, rec), end, WorkCheck(rest));
  }

  lemma OrderedIsVisit(st: Store, d: string, at: Attempt)
    requires !Unmanaged(Read(st, d, at.io.check)) && !at.io.leaf && NeedsUpdate(Fetch(st, d).leaf, at.now)
    ensures Visit(st, d, at) == Ordered(st, d, at)
  {
  }

  lemma LeafAlone(c: Solo, sh: Shared, d: string, rest: seq<string>, at: Attempt) returns (end: Shared)
    requires Visiting(c, rest, at) && sh.lock == None && !Unmanaged(Read(Contents(sh), d, at.io.check))
    ensures Leads(c, sh, WorkLeaf(d, rest), end, WorkCheck(rest)) && AtRest(end, Visit(Contents(sh), d, at))
  {
    var leaf := WorkLeaf(d, rest);
    end := sh;
    if at.io.leaf {
      Goes(c, sh, leaf, MarkRead(d, rest, NoRead(at.reason)), Nothing);
      end := MarkAlone(c, sh, d, rest, NoRead(at.reason), at);
      Then(c, sh, leaf, sh, MarkRead(d, rest, NoRead(at.reason)), end, WorkCheck(rest));
    } else if NeedsUpdate(Lookup(sh, d).leaf, at.now) {
      Goes(c, sh, leaf, WorkOrder(d, rest), Nothing);
      end := OrderAlone(c, sh, d, rest, at);
      Then(c, sh, leaf, sh, WorkOrder(d, rest), end, WorkCheck(rest));
      OrderedIsVisit(Contents(sh), d, at);
    } else {
      Goes(c, sh, leaf, WorkCheck(rest), Nothing);
    }
  }

  lemma VisitAlone(c: Solo, sh: Shared, todo: seq<string>, at: Attempt) returns (end: Shared)
    requires todo != [] && Visiting(c, todo[1..], at) && sh.lock == None
    ensures Leads(c, sh, WorkCheck(todo), end, WorkCheck(todo[1..])) && AtRest(end, Visit(Contents(sh), todo[0], at))
  {
    var d, rest := todo[0], todo[1..];
    end := sh;
    if Unmanaged(Read(Contents(sh), d, at.io.check)) {
      Goes(c, sh, WorkCheck(todo), WorkCheck(rest), Nothing);
    } else {
      Goes(c, sh, WorkCheck(todo), WorkLeaf(d, rest), Nothing);
      end := LeafAlone(c, sh, d, rest, at);
      Then(c, sh, WorkCheck(todo), sh, WorkLeaf(d, rest), end, WorkCheck(rest));
    }
  }

  lemma NextVisitAlone(c: Solo, sh: Shared, domains: seq<string>, n: nat, st: Store) returns (end: Shared)
    requires c.env.PassIn? && c.env.total == |domains| && 0 < n <= |domains| && AtRest(sh, st)
    ensures Leads(c, sh, WorkCheck(domains[n - 1..]), end, WorkCheck(domains[n..]))
    ensures AtRest(end, Visit(st, domains[n - 1], c.env.attempts(n - 1)))
  {
    var todo := domains[n - 1..];
    assert todo[1..] == domains[n..] && todo[0] == domains[n - 1];
    end := VisitAlone(c, sh, todo, c.env.attempts(n - 1));
  }

  /** The first `n` visits of the snapshot. */
  lemma {:induction false} PassAlone(c: Solo, sh: Shared, domains: seq<string>, n: nat) returns (end: Shared)
    requires c.env.PassIn? && c.env.total == |domains| && n <= |domains| && sh.lock == None
    ensures Leads(c, sh, WorkCheck(domains), end, WorkCheck(domains[n..]))
    ensures AtRest(end, Pass(Contents(sh), domains, c.env.attempts, n))
  {
    if n == 0 {
      end := sh;
      assert domains[0..] == domains;
      Stays(c, sh, WorkCheck(domains));
    } else {
      var before := PassAlone(c, sh, domains, n - 1);
      end := NextVisitAlone(c, before, domains, n, Pass(Contents(sh), domains, c.env.attempts, n - 1));
      Then(c, sh, WorkCheck(domains), before, WorkCheck(domains[n - 1..]), end, WorkCheck(domains[n..]));
    }
  }

  /** A worker that runs alone does a whole sequential pass. */
  lemma WorkAlone(c: Solo, sh: Shared, attempts: nat -> Attempt, listFails: bool) returns (end: Shared)
    requires c.env == PassIn(attempts, |sh.managed|, listFails) && sh.lock == None
    ensures Leads(c, sh, WorkList, end, Done)
    ensures AtRest(end, if listFails then Contents(sh) else Work(Contents(sh), attempts))
  {
    end := sh;
    if listFails {
      Goes(c, sh, WorkList, Done, Nothing);
    } else {
      var domains := Names(sh.managed);
      Goes(c, sh, WorkList, WorkCheck(domains), Nothing);
      end := PassAlone(c, sh, domains, |domains|);
      assert domains[|domains|..] == [];
      Then(c, sh, WorkList, sh, WorkCheck(domains), end, WorkCheck([]));
      Goes(c, end, WorkCheck([]), Done, Nothing);
      Then(c, sh, WorkList, end, WorkCheck([]), end, Done);
    }
  }
}
