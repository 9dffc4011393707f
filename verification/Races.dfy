/** What can change an issued certificate under interleaving, and two races that do happen. */
module Races {
  import opened Wrappers
  import opened Keystore
  import opened Interleaving

  /******* Writes that answer to a read *******/

  /** A write-back computed from the record as it still is keeps what was issued, unless it is an
      addition's placeholder for a record without a name. */
  ghost predicate UpToDate(sh: Shared, pc: Pc) {
    pc.Rewrite? && pc.seen.Some? ==>
      pc.seen.value <= Version(sh, pc.d) &&
      (pc.seen.value == Version(sh, pc.d) ==>
         Payload(pc.rec) == Payload(Lookup(sh, pc.d)) || (pc.next.AddDone? && Lookup(sh, pc.d).commonName == ""))
  }

  ghost predicate AllUpToDate(s: State) {
    forall t :: t in s.threads ==> UpToDate(s.sh, s.threads[t]) && SimpleNext(s.threads[t])
  }

  ghost predicate SimpleNext(pc: Pc) {
    pc.Rewrite? ==> !pc.next.Rewrite?
  }

  lemma LocalIsUpToDate(sh: Shared, t: nat, pc: Pc, i: Input)
    requires SimpleNext(pc)
    ensures var (pc', e) := Local(sh, t, pc, i);
            SimpleNext(pc') && UpToDate(sh, pc') && (pc'.Rewrite? ==> e.Nothing?)
  {
  }

  lemma OthersStayUpToDate(sh: Shared, t: nat, e: Effect, pc: Pc)
    requires UpToDate(sh, pc)
    ensures UpToDate(Perform(sh, t, e), pc)
  {
  }

  lemma NextKeepsUpToDate(s: State, m: Move)
    requires AllUpToDate(s)
    ensures AllUpToDate(Next(s, m))
  {
    if m.Step? && m.t in s.threads && Enabled(s.sh, m.t, s.threads[m.t]) {
      var e := Local(s.sh, m.t, s.threads[m.t], m.i).1;
      LocalIsUpToDate(s.sh, m.t, s.threads[m.t], m.i);
      forall t | t in s.threads && t != m.t ensures UpToDate(Next(s, m).sh, s.threads[t]) {
        OthersStayUpToDate(s.sh, m.t, e, s.threads[t]);
      }
    }
  }

  lemma {:induction false} RunsAreUpToDate(s: State, moves: seq<Move>)
    requires Initial(s)
    ensures AllUpToDate(Exec(s, moves))
  {
    if moves != [] {
      RunsAreUpToDate(s, moves[..|moves| - 1]);
      NextKeepsUpToDate(Exec(s, moves[..|moves| - 1]), moves[|moves| - 1]);
    }
  }

  /** The steps that are meant to replace or delete what is stored for `d`, and three kinds of
      write-back: an addition's whose read failed, one whose record was written meanwhile, and an
      addition's placeholder over a record that has no name. */
  ghost predicate MayChange(sh: Shared, pc: Pc, d: string) {
    (pc.WorkStore? && pc.d == d) || (pc.ImportWrite? && pc.d == d) || (pc.DeleteWrite? && pc.d == d) ||
    (pc.Rewrite? && pc.d == d &&
     (pc.seen.None? || pc.seen.value < Version(sh, d) || (pc.next.AddDone? && Lookup(sh, d).commonName == "")))
  }

  ghost predicate WritesOwn(pc: Pc, e: Effect) {
    (e.Write? ==> (pc.Rewrite? || pc.WorkStore?) && e.d == pc.d && e.rec == pc.rec) &&
    (e.Install? ==> pc.ImportWrite? && e.d == pc.d) && (e.Erase? ==> pc.DeleteWrite? && e.d == pc.d)
  }

  lemma LocalWritesOwn(sh: Shared, t: nat, pc: Pc, i: Input)
    ensures WritesOwn(pc, Local(sh, t, pc, i).1)
  {
  }

  lemma EffectChanges(sh: Shared, t: nat, pc: Pc, e: Effect, d: string)
    requires UpToDate(sh, pc) && WritesOwn(pc, e)
    requires Payload(Lookup(Perform(sh, t, e), d)) != Payload(Lookup(sh, d))
    ensures MayChange(sh, pc, d)
  {
  }

  lemma OnlyTheseChange(s: State, m: Move, d: string)
    requires AllUpToDate(s)
    requires Payload(Lookup(Next(s, m).sh, d)) != Payload(Lookup(s.sh, d))
    ensures m.Step? && m.t in s.threads && MayChange(s.sh, s.threads[m.t], d)
  {
    LocalWritesOwn(s.sh, m.t, s.threads[m.t], m.i);
    EffectChanges(s.sh, m.t, s.threads[m.t], Local(s.sh, m.t, s.threads[m.t], m.i).1, d);
  }

  /** In every interleaving, what was issued for a domain changes only by those steps. */
  lemma IssuedChangesOnlyBy(s: State, moves: seq<Move>, m: Move, d: string)
    requires Initial(s)
    requires Payload(Lookup(Next(Exec(s, moves), m).sh, d)) != Payload(Lookup(Exec(s, moves).sh, d))
    ensures var now := Exec(s, moves);
            m.Step? && m.t in now.threads && MayChange(now.sh, now.threads[m.t], d)
  {
    RunsAreUpToDate(s, moves);
    OnlyTheseChange(Exec(s, moves), m, d);
  }

  /** In particular adding, softly removing and failure marking keep what was issued for a record
      with a name, if their read succeeded and nothing wrote the record since. */
  lemma UndisturbedWriteKeeps(s: State, moves: seq<Move>, t: nat, i: Input)
    requires Initial(s) && t in Exec(s, moves).threads
    requires var now := Exec(s, moves); var pc := now.threads[t];
             pc.Rewrite? && pc.seen == Some(Version(now.sh, pc.d)) && Lookup(now.sh, pc.d).commonName != ""
    ensures var now := Exec(s, moves); var d := now.threads[t].d;
            Payload(Lookup(Next(now, Step(t, i)).sh, d)) == Payload(Lookup(now.sh, d))
  {
    RunsAreUpToDate(s, moves);
    assert UpToDate(Exec(s, moves).sh, Exec(s, moves).threads[t]);
  }

  /******* Where certificates come from *******/

  /** The move brings `p` into being for `d`: an answer of the authority, or imported data. */
  ghost predicate Brings(s: State, m: Move, d: string, p: CertAndKey) {
    m.Step? && m.t in s.threads &&
    var pc := s.threads[m.t];
    (pc.ImportWrite? && pc.d == d && p == Payload(pc.rec)) ||
    (pc.WorkOrder? && pc.d == d && m.i.ca.Obtained? &&
     var issued := IssuedRecord(m.i.ca.chain, m.i.ca.key, m.i.ca.url);
     issued.Some? && p == Payload(issued.value))
  }

  ghost predicate BroughtAt(s: State, moves: seq<Move>, k: nat, d: string, p: CertAndKey)
    requires k < |moves|
  {
    Brings(Exec(s, moves[..k]), moves[k], d, p)
  }

  lemma LocalBrings(sh: Shared, t: nat, pc: Pc, i: Input, d: string, p: CertAndKey)
    requires (d, p) in Perform(sh, t, Local(sh, t, pc, i).1).origins && (d, p) !in sh.origins
    ensures (pc.ImportWrite? && pc.d == d && p == Payload(pc.rec)) ||
            (pc.WorkOrder? && pc.d == d && i.ca.Obtained? &&
             var issued := IssuedRecord(i.ca.chain, i.ca.key, i.ca.url);
             issued.Some? && p == Payload(issued.value))
  {
  }

  lemma NextBrings(s: State, m: Move, d: string, p: CertAndKey)
    requires (d, p) in Next(s, m).sh.origins && (d, p) !in s.sh.origins
    ensures Brings(s, m, d, p)
  {
    LocalBrings(s.sh, m.t, s.threads[m.t], m.i, d, p);
  }

  lemma {:induction false} OriginsAreMoves(s: State, moves: seq<Move>, d: string, p: CertAndKey)
    requires (d, p) in Exec(s, moves).sh.origins
    ensures (d, p) in s.sh.origins || exists k: nat :: k < |moves| && BroughtAt(s, moves, k, d, p)
  {
    if moves != [] {
      var front, m := moves[..|moves| - 1], moves[|moves| - 1];
      if (d, p) in Exec(s, front).sh.origins {
        OriginsAreMoves(s, front, d, p);
        if (d, p) !in s.sh.origins {
          var k: nat :| k < |front| && BroughtAt(s, front, k, d, p);
          assert front[..k] == moves[..k];
          assert BroughtAt(s, moves, k, d, p);
        }
      } else {
        NextBrings(Exec(s, front), m, d, p);
        assert BroughtAt(s, moves, |moves| - 1, d, p);
      }
    }
  }

  /** Every stored record is keyless, or what it holds was there at the start, or some move of
      the run issued or imported it for this domain. */
  lemma EveryRecordHasOneSource(s: State, moves: seq<Move>, d: string)
    requires Initial(s) && d in Exec(s, moves).sh.records
    ensures var r := Exec(s, moves).sh.records[d];
            Keyless(r) || (d, Payload(r)) in s.sh.origins || exists k: nat :: k < |moves| && BroughtAt(s, moves, k, d, Payload(r))
  {
    RecordsStayWhole(s, moves);
    var r := Exec(s, moves).sh.records[d];
    if !Keyless(r) {
      OriginsAreMoves(s, moves, d, Payload(r));
    }
  }
}
