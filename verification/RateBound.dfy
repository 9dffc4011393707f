/** How often the authority can be made to issue for one domain. */
module RateBound {
  import opened Certificates
  import opened Keystore
  import opened Backup
  import opened Renewal
  import opened Operations
  import opened Lifecycle

  /** The authority grants an order for the visited domain. */
  predicate Grants(st: Store, d: string, at: Attempt) {
    Orders(st, d, at) && at.ca.Obtained?
  }

  /** The clock readings of the grants for `d` among the first `n` visits of a pass. */
  function PassGrants(st: Store, domains: seq<string>, attempts: nat -> Attempt, n: nat, d: string): seq<int>
    requires n <= |domains|
  {
    if n == 0 then []
    else PassGrants(st, domains, attempts, n - 1, d) +
         (if domains[n - 1] == d && Grants(Pass(st, domains, attempts, n - 1), d, attempts(n - 1)) then [attempts(n - 1).now] else [])
  }

  function RunGrants(b: Backend, st: Store, ops: seq<Op>, d: string): seq<int> {
    if ops == [] then []
    else
      var front, op := ops[..|ops| - 1], ops[|ops| - 1];
      var before := Run(b, st, front);
      RunGrants(b, st, front, d) +
      (if op.RunWorker? then PassGrants(before, Names(before.managed), op.attempts, |before.managed|, d) else [])
  }

  /** What is granted can be stored, names its leaf and is valid for at least `valid` from the check
      that led to it.  Every other access may fail. */
  ghost predicate LongLivedGrant(at: Attempt, valid: int) {
    NamesItsLeaf(at.ca) &&
    (at.ca.Obtained? ==> !at.io.store && LeafIn(at.ca.chain).Some? && LeafIn(at.ca.chain).value.notAfter >= at.now + valid)
  }

  ghost predicate LongLived(op: Op, valid: int) {
    op.RunWorker? ==> forall i: nat :: LongLivedGrant(op.attempts(i), valid)
  }

  /** What is stored for `d`, if it has a name, is not thrown away or replaced. */
  ghost predicate Keeps(b: Backend, st: Store, op: Op, d: string) {
    var after := Apply(b, st, op).0;
    d in st.records && st.records[d].commonName != "" ==> d in after.records && Payload(after.records[d]) == Payload(st.records[d])
  }

  /** No handler of the run throws it away. */
  ghost predicate KeptAlong(b: Backend, st: Store, ops: seq<Op>, d: string) {
    ops != [] ==>
      var front, op := ops[..|ops| - 1], ops[|ops| - 1];
      KeptAlong(b, st, front, d) && (!op.RunWorker? ==> Keeps(b, Run(b, st, front), op, d))
  }

  function Gap(valid: int): int {
    valid - RENEWAL_DAYS * DAY
  }

  ghost predicate SpacedBy(times: seq<int>, gap: int) {
    forall i :: 0 <= i < |times| - 1 ==> times[i + 1] - times[i] > gap
  }

  /** After a grant at time `t`, the keystore holds a named leaf valid until `t + valid`. */
  ghost predicate Holds(st: Store, d: string, times: seq<int>, valid: int) {
    times != [] ==>
      d in st.records && st.records[d].commonName != "" &&
      LeafIn(st.records[d].leaf).Some? && LeafIn(st.records[d].leaf).value.notAfter >= times[|times| - 1] + valid
  }

  ghost predicate Spaced(st: Store, d: string, times: seq<int>, valid: int) {
    SpacedBy(times, Gap(valid)) && Holds(st, d, times, valid)
  }

  lemma VisitKeepsSpaced(st: Store, e: string, at: Attempt, d: string, times: seq<int>, valid: int)
    requires Spaced(st, d, times, valid) && LongLivedGrant(at, valid)
    ensures Spaced(Visit(st, e, at), d, times + (if e == d && Grants(st, d, at) then [at.now] else []), valid)
  {
    if e == d && Grants(st, d, at) {
      GrantKeepsSpaced(st, at, d, times, valid);
    } else {
      assert times + [] == times;
      VisitCases(st, e, at);
      if times != [] { SamePayloadHolds(st, Visit(st, e, at), d, times, valid); }
    }
  }

  lemma SamePayloadHolds(st: Store, after: Store, d: string, times: seq<int>, valid: int)
    requires Holds(st, d, times, valid) && d in st.records && d in after.records
    requires Payload(after.records[d]) == Payload(st.records[d])
    ensures Holds(after, d, times, valid)
  {
    assert Payload(after.records[d]).leaf == after.records[d].leaf;
    assert Payload(after.records[d]).commonName == after.records[d].commonName;
  }

  lemma GrantKeepsSpaced(st: Store, at: Attempt, d: string, times: seq<int>, valid: int)
    requires Spaced(st, d, times, valid) && LongLivedGrant(at, valid) && Grants(st, d, at)
    ensures Spaced(Visit(st, d, at), d, times + [at.now], valid)
  {
    GrantIsStored(st, d, at);
    LeafRoundTrip(LeafIn(at.ca.chain).value);
  }

  lemma GrantIsStored(st: Store, d: string, at: Attempt)
    requires Grants(st, d, at) && !at.io.store && LeafIn(at.ca.chain).Some?
    ensures Visit(st, d, at) == Put(st, d, IssuedRecord(at.ca.chain, at.ca.key, at.ca.url).value)
  {
  }

  lemma {:induction false} PassKeepsSpaced(st: Store, domains: seq<string>, attempts: nat -> Attempt, n: nat,
                                           d: string, times: seq<int>, valid: int)
    requires n <= |domains| && Spaced(st, d, times, valid) && (forall i: nat :: LongLivedGrant(attempts(i), valid))
    ensures Spaced(Pass(st, domains, attempts, n), d, times + PassGrants(st, domains, attempts, n, d), valid)
  {
    if n == 0 {
      assert times + [] == times;
    } else {
      PassKeepsSpaced(st, domains, attempts, n - 1, d, times, valid);
      var before, e, at := Pass(st, domains, attempts, n - 1), domains[n - 1], attempts(n - 1);
      assert LongLivedGrant(at, valid);
      NextVisitKeepsSpaced(before, e, at, d, times, PassGrants(st, domains, attempts, n - 1, d), valid,
                           Pass(st, domains, attempts, n), PassGrants(st, domains, attempts, n, d));
    }
  }

  lemma NextVisitKeepsSpaced(st: Store, e: string, at: Attempt, d: string, times: seq<int>, sofar: seq<int>, valid: int,
                             after: Store, now: seq<int>)
    requires Spaced(st, d, times + sofar, valid) && LongLivedGrant(at, valid) && after == Visit(st, e, at)
    requires now == sofar + (if e == d && Grants(st, d, at) then [at.now] else [])
    ensures Spaced(after, d, times + now, valid)
  {
    VisitKeepsSpaced(st, e, at, d, times + sofar, valid);
    var more := if e == d && Grants(st, d, at) then [at.now] else [];
    assert times + sofar + more == times + (sofar + more);
  }

  lemma HandlersKeepHolds(b: Backend, st: Store, op: Op, d: string, times: seq<int>, valid: int)
    requires Holds(st, d, times, valid) && Keeps(b, st, op, d)
    ensures Holds(Apply(b, st, op).0, d, times, valid)
  {
    if times != [] { SamePayloadHolds(st, Apply(b, st, op).0, d, times, valid); }
  }

  /** Two successive grants for a domain are more than `valid` minus 21 days apart, over any schedule
      of passes and any other operations in between, whichever other accesses of the worker fail, as
      long as what is granted can be stored and nothing discards or replaces what is stored for the
      domain.  Clock readings need not even be monotone. */
  lemma {:induction false} GrantsAreSpaced(b: Backend, st: Store, ops: seq<Op>, d: string, valid: int)
    requires KeptAlong(b, st, ops, d) && forall op :: op in ops ==> LongLived(op, valid)
    ensures Spaced(Run(b, st, ops), d, RunGrants(b, st, ops, d), valid)
  {
    if ops != [] {
      var front, op := ops[..|ops| - 1], ops[|ops| - 1];
      GrantsAreSpaced(b, st, front, d, valid);
      assert op in ops && LongLived(op, valid);
      OpKeepsSpaced(b, Run(b, st, front), op, d, RunGrants(b, st, front, d), valid, Run(b, st, ops), RunGrants(b, st, ops, d));
    }
  }

  lemma OpKeepsSpaced(b: Backend, st: Store, op: Op, d: string, times: seq<int>, valid: int, after: Store, now: seq<int>)
    requires Spaced(st, d, times, valid) && LongLived(op, valid) && (!op.RunWorker? ==> Keeps(b, st, op, d))
    requires after == Apply(b, st, op).0
    requires now == times + if op.RunWorker? then PassGrants(st, Names(st.managed), op.attempts, |st.managed|, d) else []
    ensures Spaced(after, d, now, valid)
  {
    if op.RunWorker? {
      PassKeepsSpaced(st, Names(st.managed), op.attempts, |st.managed|, d, times, valid);
    } else {
      HandlersKeepHolds(b, st, op, d, times, valid);
      assert times + [] == times;
    }
  }

  lemma {:induction false} SpacedSpan(times: seq<int>, gap: nat, i: nat, j: nat)
    requires SpacedBy(times, gap) && i < j < |times|
    ensures times[j] - times[i] > (j - i) * gap
  {
    if i + 1 < j {
      SpacedSpan(times, gap, i, j - 1);
      assert (j - i) * gap == (j - 1 - i) * gap + gap;
    }
  }

  /** So `n` of them within a window `w` satisfy (n - 1) * (valid - 21 days) < w. */
  lemma GrantsInWindow(b: Backend, st: Store, ops: seq<Op>, d: string, valid: int, i: nat, j: nat, w: int)
    requires KeptAlong(b, st, ops, d) && forall op :: op in ops ==> LongLived(op, valid)
    requires Gap(valid) > 0
    requires i <= j < |RunGrants(b, st, ops, d)| && w > 0
    requires RunGrants(b, st, ops, d)[j] - RunGrants(b, st, ops, d)[i] <= w
    ensures (j - i) * Gap(valid) < w
  {
    GrantsAreSpaced(b, st, ops, d, valid);
    var gap := Gap(valid);
    SpacedWindow(RunGrants(b, st, ops, d), gap, i, j, w);
  }

  lemma SpacedWindow(times: seq<int>, gap: nat, i: nat, j: nat, w: int)
    requires SpacedBy(times, gap) && i <= j < |times| && times[j] - times[i] <= w && w > 0
    ensures (j - i) * gap < w
  {
    if i < j {
      SpacedSpan(times, gap, i, j);
    }
  }

  /******* Which handlers keep what is stored *******/

  /** All but these: an addition of `d` that cannot read its record but writes it, a hard removal or a
      deletion of `d`, and an import of a certificate for `d`, or one that adds `d` like that.
      Additions and soft removals of `d` that can read its record are among those that keep it. */
  ghost predicate Harmless(op: Op, d: string) {
    match op
    case AddDomain(e, _, io) => e != d || !io.read || io.write
    case RemoveDomain(e, deleteCert, io) => e != d || !deleteCert || io.drop
    case DeleteCert(e, readFails, dropFails) => e != d || readFails || dropFails
    case ImportKeystore(data, io) =>
      (d in data.certificates ==> d in io.unwritable) &&
      forall i: nat :: i < |data.domains| && data.domains[i] == d ==> !io.add(i).read || io.add(i).write
    case RunWorker(_) => true
  }

  lemma AddKeepsNamed(b: Backend, st: Store, e: string, sans: seq<string>, io: AddIo, d: string)
    requires d in st.records && st.records[d].commonName != "" && (e != d || !io.read || io.write)
    ensures var after := Add(b, st, e, sans, io).0;
            d in after.records && Payload(after.records[d]) == Payload(st.records[d])
  {
  }

  lemma {:induction false} ImportKeepsNamed(b: Backend, st: Store, data: KeystoreExport, io: ImportIo, n: nat, d: string)
    requires n <= |data.domains| && d in st.records && st.records[d].commonName != ""
    requires forall i: nat :: i < |data.domains| && data.domains[i] == d ==> !io.add(i).read || io.add(i).write
    ensures var after := ImportDomains(b, st, data, io, n);
            d in after.records && Payload(after.records[d]) == Payload(st.records[d])
  {
    if n > 0 {
      ImportKeepsNamed(b, st, data, io, n - 1, d);
      var before, e := ImportDomains(b, st, data, io, n - 1), data.domains[n - 1];
      assert Payload(before.records[d]).commonName == before.records[d].commonName;
      AddKeepsNamed(b, before, e, SansFor(data, e), io.add(n - 1), d);
    }
  }

  lemma HarmlessKeeps(b: Backend, st: Store, op: Op, d: string)
    requires Harmless(op, d) && !op.RunWorker?
    ensures Keeps(b, st, op, d)
  {
    if d in st.records && st.records[d].commonName != "" {
      match op {
        case AddDomain(e, sans, io) => if e != "" { AddKeepsNamed(b, st, e, sans, io, d); }
        case RemoveDomain(e, deleteCert, io) =>
        case DeleteCert(e, readFails, dropFails) =>
        case ImportKeystore(data, io) => ImportKeepsNamed(b, Overlaid(st, data, io), data, io, |data.domains|, d);
      }
    }
  }

  lemma {:induction false} HarmlessRunsKeep(b: Backend, st: Store, ops: seq<Op>, d: string)
    requires forall op :: op in ops ==> Harmless(op, d)
    ensures KeptAlong(b, st, ops, d)
  {
    if ops != [] {
      var front, op := ops[..|ops| - 1], ops[|ops| - 1];
      HarmlessRunsKeep(b, st, front, d);
      assert op in ops;
      if !op.RunWorker? { HarmlessKeeps(b, Run(b, st, front), op, d); }
    }
  }

  /******* When the store fails *******/

  /** Exactly when the next order is granted again: when the certificate just granted was not stored, or
      holds no leaf, or has come within 21 days of its expiry. */
  lemma NextGrantExactly(st: Store, d: string, at: Attempt, later: Attempt)
    requires Grants(st, d, at) && !at.io.check && at.now <= later.now
    requires later.ca.Obtained? && !later.io.check && !later.io.leaf
    ensures Grants(Visit(st, d, at), d, later)
            <==> at.io.store || LeafIn(at.ca.chain).None? || later.now + RENEWAL_DAYS * DAY > LeafIn(at.ca.chain).value.notAfter
  {
    if at.io.store || LeafIn(at.ca.chain).None? {
      VisitCases(st, d, at);
      NeedsUpdateMonotone(Fetch(st, d).leaf, at.now, later.now);
    } else {
      GrantIsStored(st, d, at);
      LeafRoundTrip(LeafIn(at.ca.chain).value);
    }
  }

  lemma RunMore(b: Backend, st: Store, ops: seq<Op>, op: Op, d: string)
    ensures Run(b, st, ops + [op]) == Apply(b, Run(b, st, ops), op).0
    ensures var before := Run(b, st, ops);
            RunGrants(b, st, ops + [op], d) == RunGrants(b, st, ops, d) +
              if op.RunWorker? then PassGrants(before, Names(before.managed), op.attempts, |before.managed|, d) else []
  {
    assert (ops + [op])[..|ops|] == ops;
  }

  lemma PassAppended(ops: seq<Op>, st: Store, d: string, attempts: nat -> Attempt, grants: seq<int>)
    requires Run(Filesystem, EMPTY_STORE, ops) == st && RunGrants(Filesystem, EMPTY_STORE, ops, d) == grants && Names(st.managed) == [d]
    ensures Run(Filesystem, EMPTY_STORE, ops + [RunWorker(attempts)]) == Visit(st, d, attempts(0))
    ensures Names(Visit(st, d, attempts(0)).managed) == [d]
    ensures Grants(st, d, attempts(0)) ==> RunGrants(Filesystem, EMPTY_STORE, ops + [RunWorker(attempts)], d) == grants + [attempts(0).now]
  {
    RunMore(Filesystem, EMPTY_STORE, ops, RunWorker(attempts), d);
    VisitKeepsList(st, d, attempts(0));
    assert |st.managed| == |Names(st.managed)| == 1;
    assert Pass(st, [d], attempts, 0) == st && PassGrants(st, [d], attempts, 0, d) == [];
    assert Pass(st, [d], attempts, 1) == Visit(st, d, attempts(0));
  }

  /** So there is no bound when a store fails: whatever the authority grants, and however long it is
      valid, two passes over a new domain can be granted at one and the same time. */
  lemma FailedStoreGrantsAgain(d: string, clock: int, ca: CaAnswer) returns (ops: seq<Op>)
    requires d != "" && ca.Obtained?
    ensures RunGrants(Filesystem, EMPTY_STORE, ops, d) == [clock, clock]
  {
    var none: seq<Op> := [];
    var st := DomainAdded(none, d);
    ops := GrantedTwice(none + [AddDomain(d, [], ADD_OK)], st, d, clock, ca);
  }

  lemma GrantedTwice(ops0: seq<Op>, st: Store, d: string, clock: int, ca: CaAnswer) returns (ops: seq<Op>)
    requires Run(Filesystem, EMPTY_STORE, ops0) == st && RunGrants(Filesystem, EMPTY_STORE, ops0, d) == []
    requires Names(st.managed) == [d] && Fetch(st, d) == Placeholder(d, []) && ca.Obtained?
    ensures RunGrants(Filesystem, EMPTY_STORE, ops, d) == [clock, clock]
  {
    var first, second := Attempt(clock, ca, RENEW_OK.(store := true), ""), Attempt(clock, ca, RENEW_OK, "");
    assert Grants(st, d, first);
    NextGrantExactly(st, d, first, second);
    PassAppended(ops0, st, d, _ => first, []);
    var ops1 := ops0 + [RunWorker(_ => first)];
    PassAppended(ops1, Visit(st, d, first), d, _ => second, [clock]);
    ops := ops1 + [RunWorker(_ => second)];
  }

  lemma DomainAdded(none: seq<Op>, d: string) returns (st: Store)
    requires none == [] && d != ""
    ensures st == Run(Filesystem, EMPTY_STORE, none + [AddDomain(d, [], ADD_OK)]) && RunGrants(Filesystem, EMPTY_STORE, none + [AddDomain(d, [], ADD_OK)], d) == []
    ensures Names(st.managed) == [d] && Fetch(st, d) == Placeholder(d, [])
  {
    RunMore(Filesystem, EMPTY_STORE, none, AddDomain(d, [], ADD_OK), d);
    st := Run(Filesystem, EMPTY_STORE, none + [AddDomain(d, [], ADD_OK)]);
    NamesAppend([], ManagedDomain(d, []));
  }
}
