/** How soon the authority can grant again, with handlers running beside the worker. */
module ConcurrentRate {
  import opened Wrappers
  import opened Certificates
  import opened Keystore
  import opened Interleaving

  predicate AtWork(pc: Pc) {
    pc.WorkList? || pc.WorkCheck? || pc.WorkLeaf? || pc.WorkOrder? || pc.WorkStore? || pc.FailRead? || pc.MarkRead? ||
    (pc.Rewrite? && (pc.next.WorkCheck? || pc.next.MarkRead?))
  }

  /** The mutex lets one run of the worker proceed at a time. */
  ghost predicate OneWorker(s: State) {
    forall t, u :: t in s.threads && u in s.threads && AtWork(s.threads[t]) && AtWork(s.threads[u]) ==> t == u
  }

  /** Thread `t` takes its next step, from `pc`. */
  ghost predicate Steps(s: State, m: Move, t: nat, pc: Pc) {
    m.Step? && m.t == t && t in s.threads && s.threads[t] == pc && Enabled(s.sh, t, pc)
  }

  /** At move `j` the authority grants `rec` for `d`. */
  ghost predicate GrantedAt(s: State, moves: seq<Move>, j: nat, t: nat, d: string, rest: seq<string>, rec: CertAndKey)
    requires j < |moves|
  {
    Steps(Exec(s, moves[..j]), moves[j], t, WorkOrder(d, rest)) && moves[j].i.ca.Obtained? &&
    IssuedRecord(moves[j].i.ca.chain, moves[j].i.ca.key, moves[j].i.ca.url) == Some(rec)
  }

  /** At move `c` the worker finds the stored certificate of `d` due. */
  ghost predicate FoundDueAt(s: State, moves: seq<Move>, c: nat, u: nat, d: string, rest: seq<string>)
    requires c < |moves|
  {
    var now := Exec(s, moves[..c]);
    Steps(now, moves[c], u, WorkLeaf(d, rest)) && !moves[c].i.fails && NeedsUpdate(Lookup(now.sh, d).leaf, moves[c].i.now)
  }

  /** Move `m` leaves what is stored for `d`, or is the store of `rec`; and that store does not fail. */
  ghost predicate Undisturbed(s: State, m: Move, t: nat, d: string, rest: seq<string>, rec: CertAndKey) {
    var store := Steps(s, m, t, WorkStore(d, rest, rec));
    (store ==> !m.i.fails) && (Payload(Lookup(Next(s, m).sh, d)) == Payload(Lookup(s.sh, d)) || store)
  }

  ghost predicate UndisturbedAt(s: State, moves: seq<Move>, k: nat, t: nat, d: string, rest: seq<string>, rec: CertAndKey)
    requires k < |moves|
  {
    Undisturbed(Exec(s, moves[..k]), moves[k], t, d, rest, rec)
  }

  /** The grant is about to be stored, or it is what is stored. */
  ghost predicate Carried(s: State, t: nat, d: string, rest: seq<string>, rec: CertAndKey) {
    (t in s.threads && s.threads[t] == WorkStore(d, rest, rec)) || Payload(Lookup(s.sh, d)) == Payload(rec)
  }

  lemma NextCarries(s: State, m: Move, t: nat, d: string, rest: seq<string>, rec: CertAndKey)
    requires Carried(s, t, d, rest, rec) && Undisturbed(s, m, t, d, rest, rec)
    ensures Carried(Next(s, m), t, d, rest, rec)
  {
    if Steps(s, m, t, WorkStore(d, rest, rec)) {
      assert Local(s.sh, t, WorkStore(d, rest, rec), m.i) == (WorkCheck(rest), Write(d, rec));
    }
  }

  lemma ExecUpTo(s: State, moves: seq<Move>, n: nat)
    requires 0 < n <= |moves|
    ensures Exec(s, moves[..n]) == Next(Exec(s, moves[..n - 1]), moves[n - 1])
  {
    assert moves[..n][..n - 1] == moves[..n - 1];
  }

  lemma GrantStartsCarrying(s: State, m: Move, t: nat, d: string, rest: seq<string>, rec: CertAndKey)
    requires Steps(s, m, t, WorkOrder(d, rest)) && m.i.ca.Obtained?
    requires IssuedRecord(m.i.ca.chain, m.i.ca.key, m.i.ca.url) == Some(rec)
    ensures Carried(Next(s, m), t, d, rest, rec)
  {
    assert Local(s.sh, t, WorkOrder(d, rest), m.i) == (WorkStore(d, rest, rec), Originate(d, rec));
  }

  lemma {:induction false} GrantIsCarried(s: State, moves: seq<Move>, j: nat, n: nat, t: nat, d: string, rest: seq<string>, rec: CertAndKey)
    requires j < n <= |moves| && GrantedAt(s, moves, j, t, d, rest, rec)
    requires forall k :: j < k < n ==> UndisturbedAt(s, moves, k, t, d, rest, rec)
    ensures Carried(Exec(s, moves[..n]), t, d, rest, rec)
  {
    if j < n - 1 {
      GrantIsCarried(s, moves, j, n - 1, t, d, rest, rec);
      CarriedOn(s, moves, n, t, d, rest, rec);
    } else {
      CarriedFirst(s, moves, j, t, d, rest, rec);
    }
  }

  lemma CarriedOn(s: State, moves: seq<Move>, n: nat, t: nat, d: string, rest: seq<string>, rec: CertAndKey)
    requires 0 < n <= |moves| && Carried(Exec(s, moves[..n - 1]), t, d, rest, rec)
    requires UndisturbedAt(s, moves, n - 1, t, d, rest, rec)
    ensures Carried(Exec(s, moves[..n]), t, d, rest, rec)
  {
    ExecUpTo(s, moves, n);
    NextCarries(Exec(s, moves[..n - 1]), moves[n - 1], t, d, rest, rec);
  }

  lemma CarriedFirst(s: State, moves: seq<Move>, j: nat, t: nat, d: string, rest: seq<string>, rec: CertAndKey)
    requires j < |moves| && GrantedAt(s, moves, j, t, d, rest, rec)
    ensures Carried(Exec(s, moves[..j + 1]), t, d, rest, rec)
  {
    ExecUpTo(s, moves, j + 1);
    GrantStartsCarrying(Exec(s, moves[..j]), moves[j], t, d, rest, rec);
  }

  /** In every interleaving with one worker at a time: if the authority grants a certificate valid for
      at least `valid`, its store does not fail, and nothing else changes what is stored for the
      domain, then the worker finds the domain due again only after more than `valid` minus 21 days.
      What can change it is listed by `Races.IssuedChangesOnlyBy`. */
  lemma GrantsAreSpacedConcurrently(s: State, moves: seq<Move>, j: nat, c: nat, t: nat, u: nat, d: string,
                                    rest: seq<string>, todo: seq<string>, rec: CertAndKey, valid: int)
    requires j < c < |moves| && GrantedAt(s, moves, j, t, d, rest, rec) && FoundDueAt(s, moves, c, u, d, todo)
    requires LeafIn(moves[j].i.ca.chain).value.notAfter >= moves[j].i.now + valid
    requires forall k :: j < k < c ==> UndisturbedAt(s, moves, k, t, d, rest, rec)
    requires OneWorker(Exec(s, moves[..c]))
    ensures moves[c].i.now - moves[j].i.now > valid - RENEWAL_DAYS * DAY
  {
    var now := Exec(s, moves[..c]);
    GrantIsCarried(s, moves, j, c, t, d, rest, rec);
    assert Payload(Lookup(now.sh, d)).leaf == Lookup(now.sh, d).leaf && Payload(rec).leaf == rec.leaf;
    IssuedRecordDeadline(moves[j].i.ca.chain, moves[j].i.ca.key, moves[j].i.ca.url, moves[c].i.now);
  }
}
