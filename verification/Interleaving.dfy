/** Handlers and worker as threads over one keystore, interleaved at every access to it.

    The filesystem keystore holds its lock across the two accesses that change the managed list and
    across each single access to a record, but not between an operation's read of a record and its
    write.  The Vault keystore holds no lock at all.  A thread's step is a function of the shared
    state, its program counter and an input that says whether the access fails, what the clock
    reads and what the authority answers; a run is a sequence of moves, so every statement about
    runs is one about every interleaving, every failure pattern and any number of threads. */
module Interleaving {
  import opened Wrappers
  import opened Certificates
  import opened Keystore
  import opened Renewal

  /** `seen` is the version of the record that was read to compute `rec`, None when that read
      failed.  `asOf` is the length of the log when `md` was read, None when that read failed. */
  datatype Pc =
    | AddEnter(d: string, sans: seq<string>)
    | AddCommit(d: string, sans: seq<string>, md: seq<ManagedDomain>, asOf: Option<nat>)
    | AddRead(d: string, sans: seq<string>, at: nat)
    | AddDone(d: string, at: nat)
    | RemoveEnter(d: string, hard: bool)
    | RemoveCommit(d: string, hard: bool, md: seq<ManagedDomain>, asOf: Option<nat>)
    | DisownRead(d: string)
    | DeleteCheck(d: string)
    | DeleteWrite(d: string)
    | ImportWrite(d: string, rec: CertAndKey)
    | WorkList
    | WorkCheck(todo: seq<string>)
    | WorkLeaf(d: string, rest: seq<string>)
    | WorkOrder(d: string, rest: seq<string>)
    | WorkStore(d: string, rest: seq<string>, rec: CertAndKey)
    | FailRead(d: string, rest: seq<string>, msg: string)
    | MarkRead(d: string, rest: seq<string>, msg: string)
    | Rewrite(d: string, rec: CertAndKey, seen: Option<nat>, next: Pc)
    | Done

  /** The linearization log: what each list operation did, or that it was refused. */
  datatype Event = Added(d: string, sans: seq<string>) | Removed(d: string) | Refused(d: string, adding: bool)

  /** `versions` counts the writes to each record, `origins` collects what was issued or imported,
      by domain, and `basis` says of each event in the log as of when its list was read.  None of
      them influences a step. */
  datatype Shared = Shared(
    locking: bool, lock: Option<nat>, managed: seq<ManagedDomain>, records: map<string, CertAndKey>,
    versions: map<string, nat>, origins: set<(string, CertAndKey)>, log: seq<Event>, basis: seq<Option<nat>>)

  datatype Input = Input(fails: bool, now: int, ca: CaAnswer, reason: string)

  datatype Effect =
    | Nothing
    | Hold                                          // acquire the lock and keep it
    | Release
    | Answer(ev: Event)
    | Commit(md: seq<ManagedDomain>, ev: Event, asOf: Option<nat>)   // rewrite the list, release the lock
    | Write(d: string, rec: CertAndKey)
    | Install(d: string, rec: CertAndKey)           // an import's write
    | Erase(d: string)
    | Originate(d: string, rec: CertAndKey)         // the authority issued

  function Lookup(sh: Shared, d: string): CertAndKey {
    if d in sh.records then sh.records[d] else EMPTY_RECORD
  }

  function Version(sh: Shared, d: string): nat {
    if d in sh.versions then sh.versions[d] else 0
  }

  function Perform(sh: Shared, t: nat, e: Effect): Shared {
    match e
    case Nothing => sh
    case Hold => if sh.locking then sh.(lock := Some(t)) else sh
    case Release => sh.(lock := None)
    case Answer(ev) => sh.(log := sh.log + [ev], basis := sh.basis + [Some(|sh.log|)])
    case Commit(md, ev, asOf) => sh.(managed := md, lock := None, log := sh.log + [ev], basis := sh.basis + [asOf])
    case Write(d, rec) => sh.(records := sh.records[d := rec], versions := sh.versions[d := Version(sh, d) + 1])
    case Install(d, rec) =>
      sh.(records := sh.records[d := rec], versions := sh.versions[d := Version(sh, d) + 1],
          origins := sh.origins + {(d, Payload(rec))})
    case Erase(d) => sh.(records := sh.records - {d}, versions := sh.versions[d := Version(sh, d) + 1])
    case Originate(d, rec) => sh.(origins := sh.origins + {(d, Payload(rec))})
  }

  /** Whether the thread can take its next step: nobody else may hold the lock when the step
      accesses the keystore. */
  predicate Enabled(sh: Shared, t: nat, pc: Pc) {
    match pc
    case AddDone(_, _) => false
    case Done => false
    case WorkOrder(_, _) => true
    case AddCommit(_, _, _, _) => true
    case RemoveCommit(_, _, _, _) => true
    case _ => sh.lock.None?
  }

  function Observe(sh: Shared, d: string, i: Input): Option<CertAndKey> {
    if i.fails then None else Some(Lookup(sh, d))
  }

  /** After reading `d`: write what the operation makes of it, if anything, then go on. */
  function WriteBack(sh: Shared, d: string, rec: Option<CertAndKey>, seen: Option<nat>, next: Pc): Pc {
    if rec.Some? then Rewrite(d, rec.value, seen, next) else next
  }

  function Local(sh: Shared, t: nat, pc: Pc, i: Input): (Pc, Effect) {
    match pc
    case AddEnter(d, sans) =>
      // Vault takes a failed read of the list for an empty list.
      if i.fails && sh.locking then (Done, Nothing)
      else
        var md := if i.fails then [] else sh.managed;
        if d in Names(md) then (Done, Answer(Refused(d, true))) else (AddCommit(d, sans, md, if i.fails then None else Some(|sh.log|)), Hold)
    case AddCommit(d, sans, md, asOf) =>
      if i.fails then (Done, Release)
      else (AddRead(d, sans, |sh.log|), Commit(md + [ManagedDomain(d, sans)], Added(d, sans), asOf))
    case AddRead(d, sans, at) =>
      (WriteBack(sh, d, Claim(Observe(sh, d, i), d, sans), if i.fails then None else Some(Version(sh, d)), AddDone(d, at)), Nothing)
    case RemoveEnter(d, hard) =>
      if i.fails then (if hard then DeleteWrite(d) else Done, Nothing)
      else if d !in Names(sh.managed) then (if hard then DeleteWrite(d) else Done, Answer(Refused(d, false)))
      else (RemoveCommit(d, hard, sh.managed, Some(|sh.log|)), Hold)
    case RemoveCommit(d, hard, md, asOf) =>
      if i.fails then (if hard then DeleteWrite(d) else Done, Release)
      else (if hard then DeleteWrite(d) else DisownRead(d), Commit(Without(md, d), Removed(d), asOf))
    case DisownRead(d) => (WriteBack(sh, d, Disown(Observe(sh, d, i)), Some(Version(sh, d)), Done), Nothing)
    case DeleteCheck(d) =>
      if i.fails || Lookup(sh, d).managed then (Done, Nothing) else (DeleteWrite(d), Nothing)
    case DeleteWrite(d) => (Done, if i.fails then Nothing else Erase(d))
    case ImportWrite(d, rec) => (Done, if i.fails then Nothing else Install(d, rec))
    case WorkList => (if i.fails then Done else WorkCheck(Names(sh.managed)), Nothing)
    case WorkCheck(todo) =>
      if todo == [] then (Done, Nothing)
      else if Unmanaged(Observe(sh, todo[0], i)) then (WorkCheck(todo[1..]), Nothing)
      else (WorkLeaf(todo[0], todo[1..]), Nothing)
    case WorkLeaf(d, rest) =>
      if i.fails then (MarkRead(d, rest, NoRead(i.reason)), Nothing)
      else if NeedsUpdate(Lookup(sh, d).leaf, i.now) then (WorkOrder(d, rest), Nothing)
      else (WorkCheck(rest), Nothing)
    case WorkOrder(d, rest) =>
      (match i.ca
       case SetupFailed(msg) => (MarkRead(d, rest, msg), Nothing)
       case OrderFailed(msg) => (FailRead(d, rest, msg), Nothing)
       case Obtained(chain, url, key) =>
         var rec := IssuedRecord(chain, key, url);
         if rec.None? then (MarkRead(d, rest, NoLeaf(d)), Nothing)
         else (WorkStore(d, rest, rec.value), Originate(d, rec.value)))
    case WorkStore(d, rest, rec) =>
      if i.fails then (MarkRead(d, rest, NoStore(d, i.reason)), Nothing) else (WorkCheck(rest), Write(d, rec))
    case FailRead(d, rest, msg) =>
      (WriteBack(sh, d, Blame(Observe(sh, d, i), msg), Some(Version(sh, d)), MarkRead(d, rest, NO_ORDER + msg)), Nothing)
    case MarkRead(d, rest, msg) =>
      (WriteBack(sh, d, Blame(Observe(sh, d, i), msg), Some(Version(sh, d)), WorkCheck(rest)), Nothing)
    case Rewrite(d, rec, _, next) => (next, if i.fails then Nothing else Write(d, rec))
    case AddDone(_, _) => (pc, Nothing)
    case Done => (pc, Nothing)
  }

  /******* Runs *******/

  datatype State = State(sh: Shared, threads: map<nat, Pc>)

  datatype Move = Spawn(t: nat, pc: Pc) | Step(t: nat, i: Input)

  predicate Startable(pc: Pc) {
    pc.AddEnter? || pc.RemoveEnter? || pc.DeleteCheck? || pc.ImportWrite? || pc.WorkList?
  }

  /** A move that is not possible changes nothing. */
  function Next(s: State, m: Move): State {
    match m
    case Spawn(t, pc) => if t in s.threads || !Startable(pc) then s else s.(threads := s.threads[t := pc])
    case Step(t, i) =>
      if t !in s.threads || !Enabled(s.sh, t, s.threads[t]) then s
      else
        var (pc, e) := Local(s.sh, t, s.threads[t], i);
        State(Perform(s.sh, t, e), s.threads[t := pc])
  }

  function Exec(s: State, moves: seq<Move>): State {
    if moves == [] then s else Next(Exec(s, moves[..|moves| - 1]), moves[|moves| - 1])
  }

  /** Any keystore at rest: its contents are what was issued or imported before. */
  ghost predicate Initial(s: State) {
    s.threads == map[] && s.sh.lock == None && s.sh.versions == map[] && s.sh.log == [] && s.sh.basis == [] &&
    NoDup(Names(s.sh.managed)) &&
    forall d :: d in s.sh.records ==> (d, Payload(s.sh.records[d])) in s.sh.origins
  }

  /******* Integrity of stored certificates *******/

  /** Nothing was issued, or everything issuance decides is from one issuance or import for `d`. */
  ghost predicate Whole(sh: Shared, d: string, r: CertAndKey) {
    Keyless(r) || (d, Payload(r)) in sh.origins
  }

  ghost predicate PcWhole(sh: Shared, pc: Pc) {
    match pc
    case Rewrite(d, rec, _, next) => Whole(sh, d, rec) && PcWhole(sh, next)
    case WorkStore(d, _, rec) => Whole(sh, d, rec)
    case _ => true
  }

  ghost predicate RecordsWhole(sh: Shared) {
    forall d :: d in sh.records ==> Whole(sh, d, sh.records[d])
  }

  ghost predicate Intact(s: State) {
    RecordsWhole(s.sh) && forall t :: t in s.threads ==> PcWhole(s.sh, s.threads[t])
  }

  lemma {:induction false} PcWholeGrows(sh: Shared, now: Shared, pc: Pc)
    requires PcWhole(sh, pc) && sh.origins <= now.origins
    ensures PcWhole(now, pc)
  {
    if pc.Rewrite? { PcWholeGrows(sh, now, pc.next); }
  }

  lemma OriginsGrow(sh: Shared, t: nat, e: Effect)
    ensures sh.origins <= Perform(sh, t, e).origins
  {
  }

  /** What a step writes, and what it leaves to be written, comes from the record read, from the
      authority, or from an earlier read of the same thread. */
  ghost predicate Accounted(sh: Shared, pc: Pc, after: Pc, e: Effect) {
    (e.Write? ==> (pc.Rewrite? || pc.WorkStore?) && e.d == pc.d && e.rec == pc.rec) &&
    (pc.Rewrite? ==> after == pc.next) &&
    (!pc.Rewrite? && after.WorkStore? ==> e == Originate(after.d, after.rec)) &&
    (!pc.Rewrite? && after.Rewrite? ==>
       e.Nothing? && !after.next.Rewrite? && !after.next.WorkStore? &&
       (Keyless(after.rec) || Payload(after.rec) == Payload(Lookup(sh, after.d))))
  }

  lemma LocalIsAccounted(sh: Shared, t: nat, pc: Pc, i: Input)
    ensures var (after, e) := Local(sh, t, pc, i); Accounted(sh, pc, after, e)
  {
  }

  lemma LookupIsWhole(sh: Shared, d: string, r: CertAndKey)
    requires RecordsWhole(sh) && (Keyless(r) || Payload(r) == Payload(Lookup(sh, d)))
    ensures Whole(sh, d, r)
  {
  }

  lemma EffectKeepsPcWhole(sh: Shared, t: nat, pc: Pc, after: Pc, e: Effect)
    requires RecordsWhole(sh) && PcWhole(sh, pc) && Accounted(sh, pc, after, e)
    ensures PcWhole(Perform(sh, t, e), after)
  {
    if pc.Rewrite? {
      OriginsGrow(sh, t, e);
      PcWholeGrows(sh, Perform(sh, t, e), pc.next);
    } else if after.Rewrite? {
      LookupIsWhole(sh, after.d, after.rec);
    }
  }

  lemma EffectKeepsRecordsWhole(sh: Shared, t: nat, pc: Pc, after: Pc, e: Effect)
    requires RecordsWhole(sh) && PcWhole(sh, pc) && Accounted(sh, pc, after, e)
    ensures RecordsWhole(Perform(sh, t, e))
  {
    OriginsGrow(sh, t, e);
    var now := Perform(sh, t, e);
    forall d | d in now.records ensures Whole(now, d, now.records[d]) {
      if (e.Write? || e.Install?) && e.d == d {
        assert now.records[d] == e.rec;
      } else {
        assert d in sh.records && now.records[d] == sh.records[d];
      }
    }
  }

  lemma NextKeepsIntact(s: State, m: Move)
    requires Intact(s)
    ensures Intact(Next(s, m))
  {
    if m.Step? && m.t in s.threads && Enabled(s.sh, m.t, s.threads[m.t]) {
      var (pc, e) := Local(s.sh, m.t, s.threads[m.t], m.i);
      LocalIsAccounted(s.sh, m.t, s.threads[m.t], m.i);
      EffectKeepsPcWhole(s.sh, m.t, s.threads[m.t], pc, e);
      EffectKeepsRecordsWhole(s.sh, m.t, s.threads[m.t], pc, e);
      OriginsGrow(s.sh, m.t, e);
      forall t | t in s.threads && t != m.t ensures PcWhole(Next(s, m).sh, s.threads[t]) {
        PcWholeGrows(s.sh, Next(s, m).sh, s.threads[t]);
      }
    }
  }

  /** In every interleaving each stored record is keyless, or carries chain, leaf, key, issuers,
      names and dates of exactly one issuance or import for its own domain. */
  lemma {:induction false} RecordsStayWhole(s: State, moves: seq<Move>)
    requires Initial(s)
    ensures Intact(Exec(s, moves))
  {
    if moves != [] {
      RecordsStayWhole(s, moves[..|moves| - 1]);
      NextKeepsIntact(Exec(s, moves[..|moves| - 1]), moves[|moves| - 1]);
    }
  }
}
