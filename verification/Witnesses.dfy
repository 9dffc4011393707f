/** Runs showing that what the theorems on interleavings do not claim indeed fails. */
module Witnesses {
  import opened Wrappers
  import opened Certificates
  import opened Keystore
  import opened Renewal
  import opened Interleaving
  import opened ManagedLists

  /** One more move of a run that has come to `now`. */
  lemma Take(s: State, moves: seq<Move>, now: State, m: Move) returns (moves': seq<Move>, now': State)
    requires Exec(s, moves) == now
    ensures moves' == moves + [m] && now' == Next(now, m) && Exec(s, moves') == now'
  {
    moves', now' := moves + [m], Next(now, m);
    assert moves'[..|moves|] == moves;
  }

  /** Thread `t` goes from `pc` to `next`. */
  lemma Go(s: State, moves: seq<Move>, now: State, t: nat, i: Input, pc: Pc, next: Pc, e: Effect) returns (moves': seq<Move>, now': State)
    requires Exec(s, moves) == now && t in now.threads && now.threads[t] == pc
    requires Enabled(now.sh, t, pc) && Local(now.sh, t, pc, i) == (next, e)
    ensures Exec(s, moves') == now' == State(Perform(now.sh, t, e), now.threads[t := next]) && moves' == moves + [Step(t, i)]
  {
    moves', now' := Take(s, moves, now, Step(t, i));
  }

  function Calm(now: int, ca: CaAnswer): Input {
    Input(false, now, ca, "")
  }

  /** A keystore at rest with one listed domain and its record. */
  function OneDomain(d: string, r: CertAndKey): State {
    State(Shared(true, None, [ManagedDomain(d, [])], map[d := r], map[], {(d, Payload(r))}, [], []), map[])
  }

  /** Thread 1 comes to `pc`, with nothing else changed. */
  ghost predicate OnlyWorkerMoved(was: State, now: State, pc: Pc) {
    now.sh == was.sh && now.threads == was.threads[1 := pc]
  }

  lemma WorkerMoves(s: State, was: State, moves0: seq<Move>, now0: State, pc: Pc, i: Input, next: Pc) returns (moves: seq<Move>, now: State)
    requires Exec(s, moves0) == now0 && OnlyWorkerMoved(was, now0, pc) && Enabled(was.sh, 1, pc)
    requires Local(was.sh, 1, pc, i) == (next, Nothing)
    ensures Exec(s, moves) == now && OnlyWorkerMoved(was, now, next)
  {
    moves, now := Go(s, moves0, now0, 1, i, pc, next, Nothing);
  }

  /** Thread 1, the worker, comes to place its order for `d`. */
  lemma WorkerOrders(d: string, r: CertAndKey, clock: int, ca: CaAnswer) returns (moves: seq<Move>, now: State)
    requires r.commonName != "" && r.managed && NeedsUpdate(r.leaf, clock)
    ensures Exec(OneDomain(d, r), moves) == now == OneDomain(d, r).(threads := map[1 := WorkOrder(d, [])])
  {
    var s, i := OneDomain(d, r), Calm(clock, ca);
    assert Names(s.sh.managed) == [d] && [d][1..] == [];
    moves, now := Take(s, [], s, Spawn(1, WorkList));
    moves, now := WorkerMoves(s, s, moves, now, WorkList, i, WorkCheck([d]));
    moves, now := WorkerMoves(s, s, moves, now, WorkCheck([d]), i, WorkLeaf(d, []));
    moves, now := WorkerMoves(s, s, moves, now, WorkLeaf(d, []), i, WorkOrder(d, []));
  }

  lemma OnlyNameRemoved(d: string)
    ensures Names([ManagedDomain(d, [])]) == [d] && Without([ManagedDomain(d, [])], d) == []
  {
    WithoutAppend([], ManagedDomain(d, []), d);
    assert [ManagedDomain(d, [])] == [] + [ManagedDomain(d, [])];
  }

  /** Thread 2 then removes `d` from the list... */
  lemma RemovalCommits(d: string, r: CertAndKey, moves0: seq<Move>, now0: State) returns (moves: seq<Move>, now: State)
    requires Exec(OneDomain(d, r), moves0) == now0 == OneDomain(d, r).(threads := map[1 := WorkOrder(d, [])])
    ensures Exec(OneDomain(d, r), moves) == now
    ensures now == State(now0.sh.(managed := [], log := [Removed(d)], basis := [Some(0)]), map[1 := WorkOrder(d, []), 2 := DisownRead(d)])
  {
    var s, i := OneDomain(d, r), Calm(0, SetupFailed(""));
    OnlyNameRemoved(d);
    moves, now := Take(s, moves0, now0, Spawn(2, RemoveEnter(d, false)));
    moves, now := Go(s, moves, now, 2, i, RemoveEnter(d, false), RemoveCommit(d, false, s.sh.managed, Some(0)), Hold);
    moves, now := Go(s, moves, now, 2, i, RemoveCommit(d, false, s.sh.managed, Some(0)), DisownRead(d), Commit([], Removed(d), Some(0)));
    assert now.threads == map[1 := WorkOrder(d, []), 2 := DisownRead(d)];
  }

  /** ...and reads its record. */
  lemma RemovalReads(d: string, r: CertAndKey, moves0: seq<Move>, now0: State) returns (moves: seq<Move>, now: State)
    requires r.commonName != ""
    requires Exec(OneDomain(d, r), moves0) == now0 == OneDomain(d, r).(threads := map[1 := WorkOrder(d, [])])
    ensures Exec(OneDomain(d, r), moves) == now
    ensures now.sh == now0.sh.(managed := [], log := [Removed(d)], basis := [Some(0)])
    ensures now.threads == map[1 := WorkOrder(d, []), 2 := Rewrite(d, r.(managed := false), Some(0), Done)]
  {
    moves, now := RemovalCommits(d, r, moves0, now0);
    moves, now := Take(OneDomain(d, r), moves, now, Step(2, Calm(0, SetupFailed(""))));
  }

  /** Thread 1's order is granted and stored. */
  lemma WorkerStores(s: State, d: string, moves0: seq<Move>, now0: State, ca: CaAnswer) returns (moves: seq<Move>, now: State)
    requires Exec(s, moves0) == now0 && 1 in now0.threads && now0.threads[1] == WorkOrder(d, []) && now0.sh.lock == None
    requires ca.Obtained? && IssuedRecord(ca.chain, ca.key, ca.url).Some?
    ensures Exec(s, moves) == now && moves0 <= moves
    ensures now.threads == now0.threads[1 := WorkCheck([])]
    ensures now.sh.records == now0.sh.records[d := IssuedRecord(ca.chain, ca.key, ca.url).value]
    ensures now.sh.managed == now0.sh.managed && now.sh.lock == None
  {
    var rec := IssuedRecord(ca.chain, ca.key, ca.url).value;
    moves, now := WorkerIsGranted(s, d, moves0, now0, ca, rec);
    moves, now := GrantIsStored(s, d, moves, now, rec);
    assert now.threads == now0.threads[1 := WorkCheck([])];
  }

  lemma WorkerIsGranted(s: State, d: string, moves0: seq<Move>, now0: State, ca: CaAnswer, rec: CertAndKey)
    returns (moves: seq<Move>, now: State)
    requires Exec(s, moves0) == now0 && 1 in now0.threads && now0.threads[1] == WorkOrder(d, [])
    requires ca.Obtained? && IssuedRecord(ca.chain, ca.key, ca.url) == Some(rec)
    ensures Exec(s, moves) == now && moves0 <= moves && now.threads == now0.threads[1 := WorkStore(d, [], rec)]
    ensures now.sh.records == now0.sh.records && now.sh.managed == now0.sh.managed && now.sh.lock == now0.sh.lock
  {
    moves, now := Go(s, moves0, now0, 1, Calm(0, ca), WorkOrder(d, []), WorkStore(d, [], rec), Originate(d, rec));
  }

  lemma GrantIsStored(s: State, d: string, moves0: seq<Move>, now0: State, rec: CertAndKey) returns (moves: seq<Move>, now: State)
    requires Exec(s, moves0) == now0 && 1 in now0.threads && now0.threads[1] == WorkStore(d, [], rec) && now0.sh.lock == None
    ensures Exec(s, moves) == now && moves0 <= moves
    ensures now.threads == now0.threads[1 := WorkCheck([])]
    ensures now.sh.records == now0.sh.records[d := rec] && now.sh.managed == now0.sh.managed && now.sh.lock == None
  {
    moves, now := Go(s, moves0, now0, 1, Calm(0, SetupFailed("")), WorkStore(d, [], rec), WorkCheck([]), Write(d, rec));
  }

  ghost predicate StoredAt(s: State, moves: seq<Move>, k: nat, d: string, r: CertAndKey) {
    k <= |moves| && d in Exec(s, moves[..k]).sh.records && Exec(s, moves[..k]).sh.records[d] == r
  }

  /** For every managed record that is due and every certificate the authority may grant, a soft
      removal can read the record before the worker stores the new certificate and write it after:
      the new one is issued, stored, and lost. */
  lemma SoftRemovalLosesIssuance(d: string, r: CertAndKey, clock: int, ca: CaAnswer) returns (moves: seq<Move>, k: nat)
    requires r.commonName != "" && r.managed && NeedsUpdate(r.leaf, clock)
    requires ca.Obtained? && IssuedRecord(ca.chain, ca.key, ca.url).Some?
    ensures Initial(OneDomain(d, r))
    ensures StoredAt(OneDomain(d, r), moves, k, d, IssuedRecord(ca.chain, ca.key, ca.url).value)
    ensures k < |moves| && StoredAt(OneDomain(d, r), moves, |moves|, d, r.(managed := false))
  {
    var before, now := WorkerOrders(d, r, clock, ca);
    before, now := RemovalReads(d, r, before, now);
    before, now := WorkerStores(OneDomain(d, r), d, before, now, ca);
    k := |before|;
    moves := WritesBack(OneDomain(d, r), d, before, now, r.(managed := false), Done);
  }

  /** The write-back of thread 2, after which the run so far is a prefix. */
  lemma WritesBack(s: State, d: string, before: seq<Move>, now: State, rec: CertAndKey, next: Pc) returns (moves: seq<Move>)
    requires Exec(s, before) == now && 2 in now.threads && now.threads[2] == Rewrite(d, rec, Some(0), next) && now.sh.lock == None
    ensures |moves| == |before| + 1 && StoredAt(s, moves, |moves|, d, rec)
    ensures forall r :: d in now.sh.records && now.sh.records[d] == r ==> StoredAt(s, moves, |before|, d, r)
  {
    var end;
    moves, end := Take(s, before, now, Step(2, Calm(0, SetupFailed(""))));
    assert moves[..|before|] == before && moves[..|moves|] == moves;
  }

  const EMPTY := State(Shared(true, None, [], map[], map[], {}, [], []), map[])

  /** Thread 2 adds `d` to an empty keystore, and finds no record to keep. */
  lemma AdditionReads(d: string, sans: seq<string>) returns (moves: seq<Move>, now: State)
    ensures Exec(EMPTY, moves) == now
    ensures now.sh == EMPTY.sh.(managed := [ManagedDomain(d, sans)], log := [Added(d, sans)], basis := [Some(0)])
    ensures now.threads == map[2 := Rewrite(d, Placeholder(d, sans), Some(0), AddDone(d, 0))]
  {
    var i := Calm(0, SetupFailed(""));
    moves, now := Take(EMPTY, [], EMPTY, Spawn(2, AddEnter(d, sans)));
    moves, now := Go(EMPTY, moves, now, 2, i, AddEnter(d, sans), AddCommit(d, sans, [], Some(0)), Hold);
    moves, now := NewDomainCommits(d, sans, moves, now);
    moves, now := Go(EMPTY, moves, now, 2, i, AddRead(d, sans, 0), Rewrite(d, Placeholder(d, sans), Some(0), AddDone(d, 0)), Nothing);
  }

  lemma NewDomainCommits(d: string, sans: seq<string>, moves0: seq<Move>, now0: State) returns (moves: seq<Move>, now: State)
    requires Exec(EMPTY, moves0) == now0 && now0.sh == EMPTY.sh.(lock := Some(2))
    requires now0.threads == map[2 := AddCommit(d, sans, [], Some(0))]
    ensures Exec(EMPTY, moves) == now && now.threads == map[2 := AddRead(d, sans, 0)]
    ensures now.sh == EMPTY.sh.(managed := [ManagedDomain(d, sans)], log := [Added(d, sans)], basis := [Some(0)])
  {
    var i, list := Calm(0, SetupFailed("")), [ManagedDomain(d, sans)];
    assert [] + list == list;
    moves, now := Go(EMPTY, moves0, now0, 2, i, AddCommit(d, sans, [], Some(0)), AddRead(d, sans, 0), Commit(list, Added(d, sans), Some(0)));
  }

  /** Thread 1, the worker, finds the new domain listed and due. */
  lemma WorkerFindsNew(d: string, sans: seq<string>, clock: int, moves0: seq<Move>, now0: State) returns (moves: seq<Move>, now: State)
    requires Exec(EMPTY, moves0) == now0 && now0.sh.lock == None && now0.sh.records == map[]
    requires now0.sh.managed == [ManagedDomain(d, sans)] && 1 !in now0.threads
    ensures Exec(EMPTY, moves) == now && OnlyWorkerMoved(now0, now, WorkOrder(d, []))
  {
    var i := Calm(clock, SetupFailed(""));
    assert Names(now0.sh.managed) == [d] && [d][1..] == [];
    moves, now := Take(EMPTY, moves0, now0, Spawn(1, WorkList));
    moves, now := WorkerMoves(EMPTY, now0, moves, now, WorkList, i, WorkCheck([d]));
    moves, now := WorkerMoves(EMPTY, now0, moves, now, WorkCheck([d]), i, WorkLeaf(d, []));
    moves, now := WorkerMoves(EMPTY, now0, moves, now, WorkLeaf(d, []), i, WorkOrder(d, []));
  }

  /** A new domain is listed before its placeholder is written.  A worker that runs in between
      issues for it, and for every certificate the authority may grant, the placeholder then takes
      the place of the one just stored. */
  lemma AdditionLosesIssuance(d: string, sans: seq<string>, clock: int, ca: CaAnswer) returns (moves: seq<Move>, k: nat)
    requires ca.Obtained? && IssuedRecord(ca.chain, ca.key, ca.url).Some?
    ensures Initial(EMPTY)
    ensures StoredAt(EMPTY, moves, k, d, IssuedRecord(ca.chain, ca.key, ca.url).value)
    ensures k < |moves| && StoredAt(EMPTY, moves, |moves|, d, Placeholder(d, sans))
  {
    var before, now := AdditionReads(d, sans);
    before, now := WorkerFindsNew(d, sans, clock, before, now);
    before, now := WorkerStores(EMPTY, d, before, now, ca);
    k := |before|;
    moves := WritesBack(EMPTY, d, before, now, Placeholder(d, sans), AddDone(d, 0));
  }

  /** The other order breaks the agreement of flag and list: a worker that took its snapshot before
      a removal stores a managed record after it, for a domain no longer listed. */
  lemma WorkerOutlivesRemoval(d: string, r: CertAndKey, clock: int, ca: CaAnswer) returns (moves: seq<Move>)
    requires r.commonName != "" && r.managed && NeedsUpdate(r.leaf, clock)
    requires ca.Obtained? && IssuedRecord(ca.chain, ca.key, ca.url).Some?
    ensures var after := Exec(OneDomain(d, r), moves);
            after.threads == map[1 := WorkCheck([]), 2 := Done] && after.sh.managed == [] &&
            d in after.sh.records && after.sh.records[d].managed
  {
    var s, now := OneDomain(d, r), OneDomain(d, r);
    moves, now := WorkerOrders(d, r, clock, ca);
    moves, now := RemovalReads(d, r, moves, now);
    moves, now := RemovalEnds(s, d, moves, now, r.(managed := false));
    moves, now := WorkerStores(s, d, moves, now, ca);
  }

  lemma RemovalEnds(s: State, d: string, moves0: seq<Move>, now0: State, rec: CertAndKey) returns (moves: seq<Move>, now: State)
    requires Exec(s, moves0) == now0 && now0.sh.lock == None
    requires now0.threads == map[1 := WorkOrder(d, []), 2 := Rewrite(d, rec, Some(0), Done)]
    ensures Exec(s, moves) == now && now.threads == map[1 := WorkOrder(d, []), 2 := Done]
    ensures now.sh.managed == now0.sh.managed && now.sh.lock == None
  {
    moves, now := Take(s, moves0, now0, Step(2, Calm(0, SetupFailed(""))));
  }

  /** Without a lock, two additions that read the same list both succeed, and one is lost. */
  lemma VaultLosesAddition(d: string, e: string) returns (s: State, moves: seq<Move>)
    requires d != e
    ensures Initial(s) && !s.sh.locking
    ensures !NoLostAddition(Exec(s, moves))
  {
    var i := Calm(0, SetupFailed(""));
    s := State(Shared(false, None, [], map[], map[], {}, [], []), map[]);
    var now := s;
    moves, now := Take(s, [], s, Spawn(1, AddEnter(d, [])));
    moves, now := Take(s, moves, now, Spawn(2, AddEnter(e, [])));
    moves, now := Take(s, moves, now, Step(1, i));
    moves, now := Take(s, moves, now, Step(2, i));
    assert now.threads == map[1 := AddCommit(d, [], [], Some(0)), 2 := AddCommit(e, [], [], Some(0))];
    moves, now := BothCommit(s, moves, now, d, e);
    moves, now := FirstFinishes(s, moves, now, d);
    assert NotRemovedSince(now.sh.log, 0, d) && d !in Names(now.sh.managed);
  }

  lemma FirstFinishes(s: State, moves0: seq<Move>, now0: State, d: string) returns (moves: seq<Move>, now: State)
    requires Exec(s, moves0) == now0 && now0.sh.lock == None && now0.sh.records == map[]
    requires 1 in now0.threads && now0.threads[1] == AddRead(d, [], 0)
    ensures Exec(s, moves) == now && 1 in now.threads && now.threads[1] == AddDone(d, 0)
    ensures now.sh.managed == now0.sh.managed && now.sh.log == now0.sh.log
  {
    var i := Calm(0, SetupFailed(""));
    var pc := Rewrite(d, Placeholder(d, []), Some(Version(now0.sh, d)), AddDone(d, 0));
    moves, now := Go(s, moves0, now0, 1, i, AddRead(d, [], 0), pc, Nothing);
    moves, now := Go(s, moves, now, 1, i, pc, AddDone(d, 0), Write(d, Placeholder(d, [])));
  }

  lemma BothCommit(s: State, moves0: seq<Move>, now0: State, d: string, e: string) returns (moves: seq<Move>, now: State)
    requires Exec(s, moves0) == now0
    requires now0 == State(Shared(false, None, [], map[], map[], {}, [], []), map[1 := AddCommit(d, [], [], Some(0)), 2 := AddCommit(e, [], [], Some(0))])
    ensures Exec(s, moves) == now
    ensures now.sh == now0.sh.(managed := [ManagedDomain(e, [])], log := [Added(d, []), Added(e, [])], basis := [Some(0), Some(0)])
    ensures 1 in now.threads && now.threads[1] == AddRead(d, [], 0)
  {
    var i := Calm(0, SetupFailed(""));
    moves, now := Take(s, moves0, now0, Step(1, i));
    assert now.sh.log == [Added(d, [])];
    moves, now := Take(s, moves, now, Step(2, i));
    assert now.sh.log == [Added(d, []), Added(e, [])] && now.sh.managed == [ManagedDomain(e, [])];
  }
}
