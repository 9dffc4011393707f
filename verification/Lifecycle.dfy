/** What every run of the server keeps: managed flags agree with the managed list, a status of
    failed or pending means the certificate is due, and a worker pass settles every domain. */
module Lifecycle {
  import opened Wrappers
  import opened Certificates
  import opened Keystore
  import opened Handlers
  import opened Renewal
  import opened Operations

  /******* One visit of the worker *******/

  ghost predicate SameAt(st: Store, other: Store, d: string) {
    (d in st.records <==> d in other.records) && (d in st.records ==> st.records[d] == other.records[d])
  }

  lemma VisitLeavesOthers(st: Store, d: string, at: Attempt, e: string)
    requires e != d
    ensures SameAt(Visit(st, d, at), st, e)
  {
    VisitCases(st, d, at);
  }

  lemma RenewIsLocal(st: Store, other: Store, d: string, at: Attempt)
    requires SameAt(st, other, d)
    ensures Renew(st, d, at).1 == Renew(other, d, at).1
    ensures SameAt(Renew(st, d, at).0, Renew(other, d, at).0, d)
  {
  }

  /** What a visit does to its domain depends on that domain's record alone. */
  lemma VisitIsLocal(st: Store, other: Store, d: string, at: Attempt)
    requires SameAt(st, other, d)
    ensures SameAt(Visit(st, d, at), Visit(other, d, at), d)
  {
    RenewIsLocal(st, other, d, at);
    var r, s := Renew(st, d, at), Renew(other, d, at);
    if r.1.Some? {
      assert SameAt(Mark(r.0, d, r.1.value, at.io.markRead, at.io.markWrite), Mark(s.0, d, s.1.value, at.io.markRead, at.io.markWrite), d);
    }
  }

  datatype Verdict = Skipped | StillGood | Renewed | Failed

  function VerdictOf(r: CertAndKey, at: Attempt): Verdict {
    if r.commonName != "" && !r.managed then Skipped
    else if !NeedsUpdate(r.leaf, at.now) then StillGood
    else if at.ca.Obtained? && IssuedRecord(at.ca.chain, at.ca.key, at.ca.url).Some? then Renewed
    else Failed
  }

  function Complaint(d: string, ca: CaAnswer): string {
    match ca
    case SetupFailed(msg) => msg
    case OrderFailed(msg) => NO_ORDER + msg
    case Obtained(_, _, _) => NoLeaf(d)
  }

  /** The record a reliable visit leaves: the old one untouched, the fresh issuance, or the old
      one marked failed with what was issued before intact. */
  lemma VisitOutcome(st: Store, d: string, at: Attempt)
    requires at.io == RENEW_OK
    ensures var was, got, after := Fetch(st, d), Fetch(Visit(st, d, at), d), Visit(st, d, at);
            match VerdictOf(was, at)
            case Skipped => after == st
            case StillGood => after == st
            case Renewed => d in after.records && Some(got) == IssuedRecord(at.ca.chain, at.ca.key, at.ca.url) && got.status == "issued"
            case Failed =>
              Payload(got) == Payload(was) && got.managed == was.managed &&
              (was.commonName != "" ==> got.status == "failed" && got.error == Complaint(d, at.ca)) &&
              (was.commonName == "" ==> after == st)
  {
  }

  /** Whatever fails, a visit leaves the store alone, or stores what the authority granted... */
  ghost predicate Issues(st: Store, d: string, at: Attempt, after: Store) {
    at.ca.Obtained? && !at.io.leaf && !at.io.store && NeedsUpdate(Fetch(st, d).leaf, at.now) &&
    var issued := IssuedRecord(at.ca.chain, at.ca.key, at.ca.url);
    issued.Some? && after == Put(st, d, issued.value)
  }

  /** ...or marks a named record failed and leaves the rest of it. */
  ghost predicate MarksFailed(st: Store, d: string, at: Attempt, after: Store) {
    (at.io.leaf || NeedsUpdate(Fetch(st, d).leaf, at.now)) && d in st.records && st.records[d].commonName != "" &&
    after == Put(st, d, st.records[d].(status := "failed", error := Fetch(after, d).error))
  }

  lemma VisitCases(st: Store, d: string, at: Attempt)
    ensures var after := Visit(st, d, at);
            after == st || (!Unmanaged(Read(st, d, at.io.check)) && (Issues(st, d, at, after) || MarksFailed(st, d, at, after)))
  {
    var (st1, err) := Renew(st, d, at);
    if err.Some? { MarkCases(st1, d, err.value, at.io.markRead, at.io.markWrite); }
    if at.ca.OrderFailed? { MarkCases(st, d, at.ca.msg, at.io.failRead, at.io.failWrite); }
  }

  lemma MarkCases(st: Store, d: string, msg: string, readFails: bool, writeFails: bool)
    ensures var after := Mark(st, d, msg, readFails, writeFails);
            after == st || (d in st.records && st.records[d].commonName != "" &&
                            after == Put(st, d, st.records[d].(status := "failed", error := msg)))
  {
  }

  /******* Managed flags and the managed list *******/

  ghost predicate Coherent(b: Backend, st: Store) {
    NoDup(Names(st.managed)) &&
    (forall d :: d in st.records ==> st.records[d].commonName != "" && (st.records[d].managed <==> d in Names(st.managed))) &&
    (forall d :: d in Names(st.managed) ==> d != "" && (!b.Memory? ==> d in st.records))
  }

  lemma ListedStaysDistinct(ms: seq<ManagedDomain>, m: ManagedDomain)
    requires NoDup(Names(ms)) && m.domain !in Names(ms)
    ensures NoDup(Names(ms + [m]))
    ensures forall d :: d in Names(ms + [m]) <==> d in Names(ms) || d == m.domain
  {
    NamesAppend(ms, m);
  }

  /** The accesses that fail in `op` leave the managed flags or the records behind the list: the record
      of an added domain cannot be written, that of a removed one not read, written or deleted, or
      it is deleted although the list could not be changed.  Over Vault, an addition that cannot
      read the list also forgets the domains listed. */
  ghost predicate Breaks(b: Backend, st: Store, op: Op) {
    match op
    case AddDomain(d, _, io) =>
      var unlisted := d !in Names(st.managed);
      d != "" && !io.list && !b.Memory? && (io.load ==> b.Vault?) &&
      ((unlisted && io.write) || (io.load && exists e :: e in Names(st.managed) && e != d))
    case RemoveDomain(d, deleteCert, io) =>
      d != "" && d in Names(st.managed) &&
      var unlisted := !io.remove.load && !io.remove.list;
      if deleteCert then (if io.drop then unlisted && d in st.records else !b.Memory? && !unlisted)
      else unlisted && d in st.records && (io.read || io.write)
    case _ => false
  }

  lemma AddCoherentExactly(b: Backend, st: Store, d: string, sans: seq<string>, io: AddIo)
    requires Coherent(b, st)
    ensures Coherent(b, HandleAdd(b, st, d, sans, io).0) <==> !Breaks(b, st, AddDomain(d, sans, io))
  {
    if b.Vault? && io.load {
      UnreadListCoherentExactly(st, d, sans, io);
    } else if d != "" && d !in Names(st.managed) {
      ListedStaysDistinct(st.managed, ManagedDomain(d, sans));
      ListedStaysDistinct(st.managed, ManagedDomain(d, []));
    }
  }

  lemma UnreadListCoherentExactly(st: Store, d: string, sans: seq<string>, io: AddIo)
    requires Coherent(Vault, st) && io.load
    ensures Coherent(Vault, HandleAdd(Vault, st, d, sans, io).0) <==> !Breaks(Vault, st, AddDomain(d, sans, io))
  {
    if d != "" && !io.list {
      var after := HandleAdd(Vault, st, d, sans, io).0;
      AddVaultExactly(st, d, sans, io);
      assert Names([] + [ManagedDomain(d, sans)]) == [d];
      assert Names(after.managed) == [d];
      if e :| e in Names(st.managed) && e != d {
        assert e in st.records && after.records[e] == st.records[e] && after.records[e].managed;
      }
    }
  }

  lemma HardRemovalCoherentExactly(b: Backend, st: Store, d: string, io: DetachIo)
    requires Coherent(b, st)
    ensures Coherent(b, HandleRemove(st, d, true, io).0) <==> !Breaks(b, st, RemoveDomain(d, true, io))
  {
    WithoutMembers(st.managed, d);
    WithoutNoDup(st.managed, d);
    var after := HandleRemove(st, d, true, io).0;
    if Breaks(b, st, RemoveDomain(d, true, io)) {
      assert if io.drop then d in after.records && after.records[d].managed && d !in Names(after.managed)
             else d !in after.records && d in Names(after.managed);
    }
  }

  lemma SoftRemovalCoherentExactly(b: Backend, st: Store, d: string, io: DetachIo)
    requires Coherent(b, st)
    ensures Coherent(b, HandleRemove(st, d, false, io).0) <==> !Breaks(b, st, RemoveDomain(d, false, io))
  {
    WithoutMembers(st.managed, d);
    WithoutNoDup(st.managed, d);
    var after := HandleRemove(st, d, false, io).0;
    if Breaks(b, st, RemoveDomain(d, false, io)) {
      assert after.records[d].managed && d !in Names(after.managed);
    }
  }

  lemma VisitKeepsCoherent(b: Backend, st: Store, d: string, at: Attempt)
    requires Coherent(b, st) && NamesItsLeaf(at.ca) && d in Names(st.managed)
    ensures Coherent(b, Visit(st, d, at))
  {
    VisitCases(st, d, at);
    var after := Visit(st, d, at);
    assert after.managed == st.managed;
    if after != st {
      assert after.records == st.records[d := after.records[d]];
      assert after.records[d].commonName != "" && after.records[d].managed;
    }
  }

  lemma VisitKeepsList(st: Store, d: string, at: Attempt)
    ensures Visit(st, d, at).managed == st.managed
  {
  }

  lemma {:induction false} PassKeepsList(st: Store, domains: seq<string>, attempts: nat -> Attempt, n: nat)
    requires n <= |domains|
    ensures Pass(st, domains, attempts, n).managed == st.managed
  {
    if n > 0 {
      PassKeepsList(st, domains, attempts, n - 1);
      VisitKeepsList(Pass(st, domains, attempts, n - 1), domains[n - 1], attempts(n - 1));
    }
  }

  /** What every visit of a pass keeps, the pass keeps. */
  lemma {:induction false} PassKeeps(inv: Store -> bool, st: Store, domains: seq<string>, attempts: nat -> Attempt, n: nat)
    requires inv(st) && n <= |domains|
    requires forall s: Store, i: nat :: i < n && inv(s) ==> inv(Visit(s, domains[i], attempts(i)))
    ensures inv(Pass(st, domains, attempts, n))
  {
    if n > 0 { PassKeeps(inv, st, domains, attempts, n - 1); }
  }

  lemma PassKeepsCoherent(b: Backend, st: Store, domains: seq<string>, attempts: nat -> Attempt, n: nat)
    requires Coherent(b, st) && domains == Names(st.managed) && n <= |domains|
    requires forall i: nat :: NamesItsLeaf(attempts(i).ca)
    ensures Coherent(b, Pass(st, domains, attempts, n))
  {
    var inv := (s: Store) => Coherent(b, s) && s.managed == st.managed;
    forall s: Store, i: nat | i < n && inv(s) ensures inv(Visit(s, domains[i], attempts(i))) {
      assert NamesItsLeaf(attempts(i).ca);
      VisitKeepsList(s, domains[i], attempts(i));
      VisitKeepsCoherent(b, s, domains[i], attempts(i));
    }
    PassKeeps(inv, st, domains, attempts, n);
  }

  lemma ApplyCoherentExactly(b: Backend, st: Store, op: Op)
    requires Coherent(b, st) && !op.ImportKeystore? && NamingWorker(op)
    ensures Coherent(b, Apply(b, st, op).0) <==> !Breaks(b, st, op)
  {
    match op
    case AddDomain(d, sans, io) => AddCoherentExactly(b, st, d, sans, io);
    case RemoveDomain(d, deleteCert, io) =>
      if deleteCert { HardRemovalCoherentExactly(b, st, d, io); } else { SoftRemovalCoherentExactly(b, st, d, io); }
    case DeleteCert(d, readFails, dropFails) =>
    case RunWorker(attempts) => PassKeepsCoherent(b, st, Names(st.managed), attempts, |st.managed|);
  }

  /** Coherent before the run and after each of its operations. */
  ghost predicate CoherentThroughout(b: Backend, ops: seq<Op>) {
    Coherent(b, Run(b, EMPTY_STORE, ops)) && (ops != [] ==> CoherentThroughout(b, ops[..|ops| - 1]))
  }

  ghost predicate NothingBreaks(b: Backend, ops: seq<Op>) {
    ops != [] ==> NothingBreaks(b, ops[..|ops| - 1]) && !Breaks(b, Run(b, EMPTY_STORE, ops[..|ops| - 1]), ops[|ops| - 1])
  }

  /** From an empty keystore, whatever handlers and worker passes ran (imports aside) and whichever of
      their accesses failed, it holds at every point of the run that a stored record is marked managed
      exactly when its domain is listed, that the list has no duplicates, and that on the filesystem
      every listed domain has a record, exactly if no handler broke it.  No failure in the worker
      does. */
  lemma {:induction false} RunsAreCoherentExactly(b: Backend, ops: seq<Op>)
    requires forall op :: op in ops ==> !op.ImportKeystore? && NamingWorker(op)
    ensures CoherentThroughout(b, ops) <==> NothingBreaks(b, ops)
  {
    if ops != [] {
      var front, op := ops[..|ops| - 1], ops[|ops| - 1];
      RunsAreCoherentExactly(b, front);
      assert op in ops;
      if CoherentThroughout(b, front) { ApplyCoherentExactly(b, Run(b, EMPTY_STORE, front), op); }
    }
  }

  lemma {:induction false} SmoothRunsBreakNothing(b: Backend, ops: seq<Op>)
    requires forall op :: op in ops ==> Smooth(op)
    ensures NothingBreaks(b, ops)
  {
    if ops != [] {
      SmoothRunsBreakNothing(b, ops[..|ops| - 1]);
      assert Smooth(ops[|ops| - 1]);
    }
  }

  /** So it holds after every run in which the handlers meet no failed access. */
  lemma RunsAreCoherent(b: Backend, ops: seq<Op>)
    requires forall op :: op in ops ==> !op.ImportKeystore? && NamingWorker(op) && Smooth(op)
    ensures Coherent(b, Run(b, EMPTY_STORE, ops))
  {
    SmoothRunsBreakNothing(b, ops);
    RunsAreCoherentExactly(b, ops);
  }

  /** And the worker never takes its branch for unmanaged certificates, as long as nothing broke. */
  lemma WorkerNeverSkips(b: Backend, ops: seq<Op>, attempts: nat -> Attempt, n: nat)
    requires forall op :: op in ops ==> !op.ImportKeystore? && NamingWorker(op)
    requires NothingBreaks(b, ops) && NamingWorker(RunWorker(attempts))
    requires n < |Run(b, EMPTY_STORE, ops).managed|
    ensures var st := Run(b, EMPTY_STORE, ops);
            var domains := Names(st.managed);
            !Unmanaged(Read(Pass(st, domains, attempts, n), domains[n], attempts(n).io.check))
  {
    RunsAreCoherentExactly(b, ops);
    var st := Run(b, EMPTY_STORE, ops);
    PassKeepsList(st, Names(st.managed), attempts, n);
    PassKeepsCoherent(b, st, Names(st.managed), attempts, n);
    ListedIsManaged(b, Pass(st, Names(st.managed), attempts, n), Names(st.managed)[n], attempts(n).io.check);
  }

  lemma ListedIsManaged(b: Backend, st: Store, d: string, fails: bool)
    requires Coherent(b, st) && d in Names(st.managed)
    ensures !Unmanaged(Read(st, d, fails))
  {
  }

  /******* One worker pass *******/

  /** A pass over distinct domains leaves each of them as a single visit from the store the pass
      started with would, and everything else alone. */
  lemma PassIsPointwise(st: Store, domains: seq<string>, attempts: nat -> Attempt, n: nat, d: string)
    requires NoDup(domains) && n <= |domains|
    ensures d !in domains[..n] ==> SameAt(Pass(st, domains, attempts, n), st, d)
    ensures forall i :: 0 <= i < n && domains[i] == d ==> SameAt(Pass(st, domains, attempts, n), Visit(st, d, attempts(i)), d)
  {
    if d !in domains[..n] { PassLeavesOthers(st, domains, attempts, n, d); }
    forall i | 0 <= i < n && domains[i] == d ensures SameAt(Pass(st, domains, attempts, n), Visit(st, d, attempts(i)), d) {
      PassVisitsOnce(st, domains, attempts, n, i);
    }
  }

  lemma {:induction false} PassLeavesOthers(st: Store, domains: seq<string>, attempts: nat -> Attempt, n: nat, d: string)
    requires n <= |domains| && forall i :: 0 <= i < n ==> domains[i] != d
    ensures SameAt(Pass(st, domains, attempts, n), st, d)
  {
    if n > 0 {
      PassLeavesOthers(st, domains, attempts, n - 1, d);
      NextVisitIsPointwise(st, Pass(st, domains, attempts, n - 1), domains[n - 1], attempts(n - 1), d, Pass(st, domains, attempts, n));
    }
  }

  lemma {:induction false} PassVisitsOnce(st: Store, domains: seq<string>, attempts: nat -> Attempt, n: nat, i: nat)
    requires NoDup(domains) && i < n <= |domains|
    ensures SameAt(Pass(st, domains, attempts, n), Visit(st, domains[i], attempts(i)), domains[i])
  {
    var d := domains[i];
    if i < n - 1 {
      PassVisitsOnce(st, domains, attempts, n - 1, i);
    } else {
      PassLeavesOthers(st, domains, attempts, n - 1, d);
    }
    NextVisitIsPointwise(st, Pass(st, domains, attempts, n - 1), domains[n - 1], attempts(n - 1), d, Pass(st, domains, attempts, n));
  }

  lemma NextVisitIsPointwise(st: Store, before: Store, e: string, at: Attempt, d: string, after: Store)
    requires after == Visit(before, e, at)
    ensures e != d ==> SameAt(after, before, d)
    ensures e == d && SameAt(before, st, d) ==> SameAt(after, Visit(st, d, at), d)
  {
    if e != d {
      VisitLeavesOthers(before, e, at, d);
    } else if SameAt(before, st, d) {
      VisitIsLocal(before, st, d, at);
    }
  }

  /******* Status *******/

  predicate Due(status: string) {
    status == "failed" || status == "pending"
  }

  ghost predicate StatusSound(st: Store, now: int) {
    forall d :: d in st.records && Due(st.records[d].status) ==> NeedsUpdate(st.records[d].leaf, now)
  }

  lemma StatusSoundLater(st: Store, now: int, later: int)
    requires StatusSound(st, now) && now <= later
    ensures StatusSound(st, later)
  {
    forall d | d in st.records && Due(st.records[d].status) ensures NeedsUpdate(st.records[d].leaf, later) {
      NeedsUpdateMonotone(st.records[d].leaf, now, later);
    }
  }

  /** The leaf of a certificate that is not due cannot be read, and the record can be marked. */
  predicate Misreads(st: Store, d: string, at: Attempt) {
    at.io.leaf && !Unmanaged(Read(st, d, at.io.check)) && !at.io.markRead && !at.io.markWrite &&
    d in st.records && st.records[d].commonName != "" && !NeedsUpdate(st.records[d].leaf, at.now)
  }

  /** Then a certificate in good order is marked failed... */
  lemma MisreadMarksFailed(st: Store, d: string, at: Attempt)
    requires Misreads(st, d, at)
    ensures Visit(st, d, at) == Put(st, d, st.records[d].(status := "failed", error := NoRead(at.reason)))
  {
  }

  /** ...and no other visit, whatever fails in it, makes the status wrong. */
  lemma VisitSoundExactly(st: Store, d: string, at: Attempt)
    requires StatusSound(st, at.now)
    ensures StatusSound(Visit(st, d, at), at.now) <==> !Misreads(st, d, at)
  {
    var after := Visit(st, d, at);
    if Misreads(st, d, at) {
      MisreadMarksFailed(st, d, at);
      assert Due(after.records[d].status) && !NeedsUpdate(after.records[d].leaf, at.now);
    } else {
      VisitCases(st, d, at);
      if at.io.leaf { UnreadLeafOnlyMarks(st, d, at); }
      forall e | e in after.records && Due(after.records[e].status) ensures NeedsUpdate(after.records[e].leaf, at.now) {
        if after != st && e != d { assert after.records[e] == st.records[e]; }
      }
    }
  }

  lemma UnreadLeafOnlyMarks(st: Store, d: string, at: Attempt)
    requires at.io.leaf
    ensures Visit(st, d, at) == if Unmanaged(Read(st, d, at.io.check)) then st
                                else Mark(st, d, NoRead(at.reason), at.io.markRead, at.io.markWrite)
  {
  }

  /** The clock readings of a pass that starts no earlier than `clock`. */
  ghost predicate Forward(attempts: nat -> Attempt, clock: int) {
    (forall i: nat :: clock <= attempts(i).now) &&
    (forall i: nat, j: nat :: i <= j ==> attempts(i).now <= attempts(j).now)
  }

  function ClockAfter(attempts: nat -> Attempt, n: nat, clock: int): int {
    if n == 0 then clock else attempts(n - 1).now
  }

  /** The status is sound before the pass and after each of its first `n` visits. */
  ghost predicate SoundAlong(st: Store, domains: seq<string>, attempts: nat -> Attempt, n: nat, clock: int)
    requires n <= |domains|
  {
    StatusSound(Pass(st, domains, attempts, n), ClockAfter(attempts, n, clock)) &&
    (n > 0 ==> SoundAlong(st, domains, attempts, n - 1, clock))
  }

  predicate NeverMisreads(st: Store, domains: seq<string>, attempts: nat -> Attempt, n: nat)
    requires n <= |domains|
  {
    n > 0 ==> NeverMisreads(st, domains, attempts, n - 1) && !Misreads(Pass(st, domains, attempts, n - 1), domains[n - 1], attempts(n - 1))
  }

  lemma {:induction false} PassSoundExactly(st: Store, domains: seq<string>, attempts: nat -> Attempt, n: nat, clock: int)
    requires StatusSound(st, clock) && n <= |domains| && Forward(attempts, clock)
    ensures SoundAlong(st, domains, attempts, n, clock) <==> NeverMisreads(st, domains, attempts, n)
  {
    if n > 0 {
      PassSoundExactly(st, domains, attempts, n - 1, clock);
      assert n > 1 ==> attempts(n - 2).now <= attempts(n - 1).now;
      if SoundAlong(st, domains, attempts, n - 1, clock) {
        NextVisitSoundExactly(Pass(st, domains, attempts, n - 1), ClockAfter(attempts, n - 1, clock),
                              domains[n - 1], attempts(n - 1), Pass(st, domains, attempts, n));
      }
    }
  }

  lemma NextVisitSoundExactly(st: Store, clock: int, d: string, at: Attempt, after: Store)
    requires StatusSound(st, clock) && clock <= at.now && after == Visit(st, d, at)
    ensures StatusSound(after, at.now) <==> !Misreads(st, d, at)
  {
    StatusSoundLater(st, clock, at.now);
    VisitSoundExactly(st, d, at);
  }

  /** The clock after a run whose last pass visited all it had listed. */
  function Clock(b: Backend, ops: seq<Op>, start: int): int {
    if ops == [] then start
    else
      var front, op := ops[..|ops| - 1], ops[|ops| - 1];
      if op.RunWorker? then ClockAfter(op.attempts, |Run(b, EMPTY_STORE, front).managed|, Clock(b, front, start))
      else Clock(b, front, start)
  }

  ghost predicate ClockForward(b: Backend, ops: seq<Op>, start: int) {
    ops == [] ||
    (ClockForward(b, ops[..|ops| - 1], start) &&
     (ops[|ops| - 1].RunWorker? ==> Forward(ops[|ops| - 1].attempts, Clock(b, ops[..|ops| - 1], start))))
  }

  lemma AddKeepsStatusSound(b: Backend, st: Store, d: string, sans: seq<string>, io: AddIo, now: int)
    requires StatusSound(st, now)
    ensures StatusSound(HandleAdd(b, st, d, sans, io).0, now)
  {
    AddFilesystemExactly(st, d, sans, io);
    AddVaultExactly(st, d, sans, io);
    AddMemoryExactly(st, d);
    var after := HandleAdd(b, st, d, sans, io).0;
    forall e | e in after.records && Due(after.records[e].status) ensures NeedsUpdate(after.records[e].leaf, now) {
      if e != d { assert e in st.records; }
    }
  }

  lemma RemovalKeepsStatusSound(st: Store, d: string, deleteCert: bool, io: DetachIo, now: int)
    requires StatusSound(st, now)
    ensures StatusSound(HandleRemove(st, d, deleteCert, io).0, now)
  {
    if deleteCert { HardRemovalExactly(st, d, io); } else { SoftRemovalExactly(st, d, io); }
  }

  lemma HandlersKeepStatusSound(b: Backend, st: Store, op: Op, now: int)
    requires StatusSound(st, now) && !op.ImportKeystore? && !op.RunWorker?
    ensures StatusSound(Apply(b, st, op).0, now)
  {
    match op
    case AddDomain(d, sans, io) => AddKeepsStatusSound(b, st, d, sans, io, now);
    case RemoveDomain(d, deleteCert, io) => RemovalKeepsStatusSound(st, d, deleteCert, io, now);
    case DeleteCert(d, readFails, dropFails) =>
  }

  /** The status is sound at every moment of the run, within its passes too. */
  ghost predicate SoundThroughout(b: Backend, ops: seq<Op>, start: int) {
    StatusSound(Run(b, EMPTY_STORE, ops), Clock(b, ops, start)) &&
    (ops != [] ==>
       var front, op := ops[..|ops| - 1], ops[|ops| - 1];
       var st := Run(b, EMPTY_STORE, front);
       SoundThroughout(b, front, start) &&
       (op.RunWorker? ==> SoundAlong(st, Names(st.managed), op.attempts, |st.managed|, Clock(b, front, start))))
  }

  ghost predicate WorkerNeverMisreads(b: Backend, ops: seq<Op>) {
    ops != [] ==>
      var front, op := ops[..|ops| - 1], ops[|ops| - 1];
      var st := Run(b, EMPTY_STORE, front);
      WorkerNeverMisreads(b, front) && (op.RunWorker? ==> NeverMisreads(st, Names(st.managed), op.attempts, |st.managed|))
  }

  /** In every import-free run with a forward clock, whichever accesses fail, at every
      moment a record whose status is failed or pending holds a certificate that is due, exactly if
      the worker never misreads one that is not. */
  lemma {:induction false} RunsAreSoundExactly(b: Backend, ops: seq<Op>, start: int)
    requires (forall op :: op in ops ==> !op.ImportKeystore?) && ClockForward(b, ops, start)
    ensures SoundThroughout(b, ops, start) <==> WorkerNeverMisreads(b, ops)
  {
    if ops != [] {
      var front, op := ops[..|ops| - 1], ops[|ops| - 1];
      var clock, st := Clock(b, front, start), Run(b, EMPTY_STORE, front);
      RunsAreSoundExactly(b, front, start);
      assert op in ops;
      if SoundThroughout(b, front, start) {
        if op.RunWorker? {
          PassSoundExactly(st, Names(st.managed), op.attempts, |st.managed|, clock);
        } else {
          HandlersKeepStatusSound(b, st, op, clock);
        }
      }
    }
  }

  /** So it holds after every such run in which leaves can be read, then and later. */
  lemma RunsAreStatusSound(b: Backend, ops: seq<Op>, start: int, now: int)
    requires (forall op :: op in ops ==> !op.ImportKeystore?) && ClockForward(b, ops, start) && Clock(b, ops, start) <= now
    requires forall op :: op in ops && op.RunWorker? ==> forall i: nat :: !op.attempts(i).io.leaf
    ensures StatusSound(Run(b, EMPTY_STORE, ops), now)
  {
    ReadLeavesNeverMislead(b, ops);
    RunsAreSoundExactly(b, ops, start);
    StatusSoundLater(Run(b, EMPTY_STORE, ops), Clock(b, ops, start), now);
  }

  lemma {:induction false} ReadLeavesNeverMislead(b: Backend, ops: seq<Op>)
    requires forall op :: op in ops && op.RunWorker? ==> forall i: nat :: !op.attempts(i).io.leaf
    ensures WorkerNeverMisreads(b, ops)
  {
    if ops != [] {
      var front, op := ops[..|ops| - 1], ops[|ops| - 1];
      var st := Run(b, EMPTY_STORE, front);
      ReadLeavesNeverMislead(b, front);
      assert op in ops;
      if op.RunWorker? { ReadLeavesNeverMisread(st, Names(st.managed), op.attempts, |st.managed|); }
    }
  }

  lemma {:induction false} ReadLeavesNeverMisread(st: Store, domains: seq<string>, attempts: nat -> Attempt, n: nat)
    requires n <= |domains| && forall i: nat :: !attempts(i).io.leaf
    ensures NeverMisreads(st, domains, attempts, n)
  {
    if n > 0 { ReadLeavesNeverMisread(st, domains, attempts, n - 1); }
  }

  /** A pass over a coherent filesystem keystore settles every listed domain whose visit meets no
      failed access, whatever fails in the other visits: afterwards it is good for the renewal period as it was, freshly issued, or failed with its certificate
      intact; none is pending; and unlisted records are as before. */
  lemma PassSettlesAll(st: Store, attempts: nat -> Attempt, clock: int)
    requires Coherent(Filesystem, st) && StatusSound(st, clock)
    requires Forward(attempts, clock)
    ensures var after := Work(st, attempts);
            after.managed == st.managed &&
            (forall d :: d !in Names(st.managed) ==> SameAt(after, st, d)) &&
            forall i :: 0 <= i < |st.managed| && attempts(i).io == RENEW_OK ==> Settled(st, after, st.managed[i].domain, attempts(i))
  {
    var after := Work(st, attempts);
    PassKeepsList(st, Names(st.managed), attempts, |st.managed|);
    forall d | d !in Names(st.managed) ensures SameAt(after, st, d) {
      PassIsPointwise(st, Names(st.managed), attempts, |st.managed|, d);
      assert Names(st.managed)[..|st.managed|] == Names(st.managed);
    }
    forall i | 0 <= i < |st.managed| && attempts(i).io == RENEW_OK
      ensures Settled(st, after, st.managed[i].domain, attempts(i)) {
      var d := Names(st.managed)[i];
      PassIsPointwise(st, Names(st.managed), attempts, |st.managed|, d);
      VisitOutcome(st, d, attempts(i));
      StatusSoundLater(st, clock, attempts(i).now);
    }
  }

  ghost predicate Settled(st: Store, after: Store, d: string, at: Attempt) {
    d in st.records && d in after.records &&
    var before, now := st.records[d], after.records[d];
    now.status != "pending" &&
    match VerdictOf(before, at)
    case Skipped => false
    case StillGood => now == before && now.status != "failed"
    case Renewed => Some(now) == IssuedRecord(at.ca.chain, at.ca.key, at.ca.url)
    case Failed => now.status == "failed" && Payload(now) == Payload(before) && now.managed
  }

  /** The visit asks the authority for a certificate. */
  predicate Orders(st: Store, d: string, at: Attempt) {
    !Unmanaged(Read(st, d, at.io.check)) && !at.io.leaf && NeedsUpdate(Fetch(st, d).leaf, at.now) && !at.ca.SetupFailed?
  }

  function Grant(ca: CaAnswer): Option<CertAndKey> {
    if ca.Obtained? then IssuedRecord(ca.chain, ca.key, ca.url) else None
  }

  /** A listed domain whose status is failed or pending is ordered anew by the next pass: when the
      pass comes to it an order is placed, unless the account or the provider cannot be set up, and
      after the pass the record is what the authority granted, or failed with its reason... */
  lemma DueIsRetried(st: Store, attempts: nat -> Attempt, clock: int, i: nat, d: string)
    requires Coherent(Filesystem, st) && StatusSound(st, clock)
    requires clock <= attempts(i).now && attempts(i).io == RENEW_OK
    requires i < |st.managed| && Names(st.managed)[i] == d && d in st.records && Due(st.records[d].status)
    ensures Orders(Pass(st, Names(st.managed), attempts, i), d, attempts(i)) <==> !attempts(i).ca.SetupFailed?
    ensures var after, granted := Work(st, attempts), Grant(attempts(i).ca);
            d in after.records &&
            if granted.Some? then after.records[d] == granted.value
            else after.records[d] == st.records[d].(status := "failed", error := Complaint(d, attempts(i).ca))
  {
    var names, at := Names(st.managed), attempts(i);
    assert d !in names[..i];
    PassIsPointwise(st, names, attempts, i, d);
    PassIsPointwise(st, names, attempts, |names|, d);
    StatusSoundLater(st, clock, at.now);
    assert NeedsUpdate(st.records[d].leaf, at.now);
    VisitOfDue(st, d, at);
  }

  lemma VisitOfDue(st: Store, d: string, at: Attempt)
    requires at.io == RENEW_OK && d in st.records && st.records[d].commonName != "" && st.records[d].managed
    requires NeedsUpdate(st.records[d].leaf, at.now)
    ensures var granted := Grant(at.ca);
            Visit(st, d, at) == Put(st, d, if granted.Some? then granted.value
                                           else st.records[d].(status := "failed", error := Complaint(d, at.ca)))
  {
  }

  /** ...and nothing but a fresh issuance takes it out of those two, whatever fails. */
  lemma OnlyIssuanceSettles(b: Backend, st: Store, op: Op, d: string)
    requires Coherent(b, st) && !op.ImportKeystore?
    requires d in st.records && Due(st.records[d].status)
    requires d in Apply(b, st, op).0.records && !Due(Apply(b, st, op).0.records[d].status)
    ensures op.RunWorker?
    ensures exists i :: 0 <= i < |st.managed| && Names(st.managed)[i] == d && Settles(st, d, op.attempts(i))
  {
    if op.RunWorker? {
      OnlyIssuanceSettlesInPass(st, op.attempts, d);
    } else {
      HandlersKeepDue(b, st, op, d);
    }
  }

  lemma HandlersKeepDue(b: Backend, st: Store, op: Op, d: string)
    requires !op.RunWorker? && !op.ImportKeystore?
    requires d in st.records && Due(st.records[d].status) && d in Apply(b, st, op).0.records
    ensures Due(Apply(b, st, op).0.records[d].status)
  {
    match op
    case AddDomain(e, sans, io) =>
      AddFilesystemExactly(st, e, sans, io);
      AddVaultExactly(st, e, sans, io);
      AddMemoryExactly(st, e);
    case RemoveDomain(e, deleteCert, io) =>
      SoftRemovalExactly(st, e, io);
      HardRemovalExactly(st, e, io);
    case DeleteCert(e, readFails, dropFails) =>
  }

  lemma OnlyIssuanceSettlesInPass(st: Store, attempts: nat -> Attempt, d: string)
    requires NoDup(Names(st.managed)) && d in st.records && Due(st.records[d].status)
    requires d in Work(st, attempts).records && !Due(Work(st, attempts).records[d].status)
    ensures exists i :: 0 <= i < |st.managed| && Names(st.managed)[i] == d && Settles(st, d, attempts(i))
  {
    var names := Names(st.managed);
    PassIsPointwise(st, names, attempts, |names|, d);
    assert names[..|names|] == names;
    var i :| 0 <= i < |names| && names[i] == d;
    VisitCases(st, d, attempts(i));
    assert Settles(st, d, attempts(i));
  }

  /** The authority granted a certificate for the due domain, and it was stored. */
  predicate Settles(st: Store, d: string, at: Attempt) {
    Orders(st, d, at) && Grant(at.ca).Some? && !at.io.store
  }
}
