/** Operations that read a record and write it back later: exactly what their write leaves. */
module WriteBacks {
  import opened Keystore
  import opened Interleaving
  import opened Races

  predicate Reading(pc: Pc) {
    pc.AddRead? || pc.DisownRead? || pc.FailRead? || pc.MarkRead?
  }

  /** At move `k` the thread read and came to the write-back `pc`, where it has been since. */
  ghost predicate ReadAt(s: State, moves: seq<Move>, k: nat, t: nat, pc: Pc)
    requires k < |moves|
  {
    var was, m := Exec(s, moves[..k]), moves[k];
    m.Step? && m.t == t && t in was.threads && Reading(was.threads[t]) && Enabled(was.sh, t, was.threads[t]) &&
    pc == Local(was.sh, t, was.threads[t], m.i).0 &&
    forall j :: k < j <= |moves| ==> AtPc(Exec(s, moves[..j]), t, pc)
  }

  predicate AtPc(s: State, t: nat, pc: Pc) {
    t in s.threads && s.threads[t] == pc
  }

  lemma ReadAtMore(s: State, moves: seq<Move>, m: Move, k: nat, t: nat, pc: Pc)
    requires k < |moves| && ReadAt(s, moves, k, t, pc) && AtPc(Exec(s, moves + [m]), t, pc)
    ensures ReadAt(s, moves + [m], k, t, pc)
  {
    assert (moves + [m])[..k] == moves[..k] && (moves + [m])[k] == moves[k];
    forall j | k < j <= |moves| + 1 ensures AtPc(Exec(s, (moves + [m])[..j]), t, pc) {
      if j <= |moves| {
        assert (moves + [m])[..j] == moves[..j];
      } else {
        assert (moves + [m])[..j] == moves + [m];
      }
    }
  }

  lemma ReadNow(s: State, moves: seq<Move>, m: Move, t: nat, pc: Pc)
    requires var was := Exec(s, moves);
             m.Step? && m.t == t && t in was.threads && Reading(was.threads[t]) && Enabled(was.sh, t, was.threads[t]) &&
             pc == Local(was.sh, t, was.threads[t], m.i).0
    requires AtPc(Exec(s, moves + [m]), t, pc)
    ensures ReadAt(s, moves + [m], |moves|, t, pc)
  {
    assert (moves + [m])[..|moves|] == moves && (moves + [m])[..|moves| + 1] == moves + [m];
  }

  /** Only a read leads to a write-back. */
  lemma LocalWritesBackReads(sh: Shared, t: nat, pc: Pc, i: Input)
    requires SimpleNext(pc) && Local(sh, t, pc, i).0.Rewrite? && !pc.Done? && !pc.AddDone?
    ensures Reading(pc)
  {
  }

  lemma {:induction false} WriteBackWasRead(s: State, moves: seq<Move>, t: nat) returns (k: nat)
    requires Initial(s) && t in Exec(s, moves).threads && Exec(s, moves).threads[t].Rewrite?
    ensures k < |moves| && ReadAt(s, moves, k, t, Exec(s, moves).threads[t])
  {
    var front, m := moves[..|moves| - 1], moves[|moves| - 1];
    var was, pc := Exec(s, front), Exec(s, moves).threads[t];
    assert moves == front + [m];
    RunsAreUpToDate(s, front);
    if m.Step? && m.t == t && t in was.threads && Enabled(was.sh, t, was.threads[t]) {
      LocalWritesBackReads(was.sh, t, was.threads[t], m.i);
      ReadNow(s, front, m, t, pc);
      k := |front|;
    } else {
      k := WriteBackWasRead(s, front, t);
      ReadAtMore(s, front, m, k, t, pc);
    }
  }

  /** What a read makes of what was issued: nothing new, except that an addition whose read failed, or
      found a record without a name, goes on with a placeholder. */
  function Brought(sh: Shared, pc: Pc, i: Input): CertAndKey
    requires Reading(pc)
  {
    if pc.AddRead? && (i.fails || Lookup(sh, pc.d).commonName == "") then Payload(Placeholder(pc.d, pc.sans))
    else Payload(Lookup(sh, pc.d))
  }

  lemma LocalBringsBack(sh: Shared, t: nat, pc: Pc, i: Input)
    requires Reading(pc) && Local(sh, t, pc, i).0.Rewrite? && SimpleNext(Local(sh, t, pc, i).0)
    ensures var write := Local(sh, t, pc, i).0;
            write.d == pc.d && Payload(write.rec) == Brought(sh, pc, i) && (write.next.AddDone? <==> pc.AddRead?)
  {
  }

  /** In every interleaving, a write-back that does not fail leaves what its own read brought, whatever
      happened in between. */
  lemma WriteBackExactly(s: State, moves: seq<Move>, t: nat, i: Input) returns (k: nat)
    requires Initial(s) && t in Exec(s, moves).threads && Exec(s, moves).threads[t].Rewrite?
    requires Enabled(Exec(s, moves).sh, t, Exec(s, moves).threads[t]) && !i.fails
    ensures k < |moves| && ReadAt(s, moves, k, t, Exec(s, moves).threads[t])
    ensures var now, read := Exec(s, moves), Exec(s, moves[..k]);
            var d, after := now.threads[t].d, Next(now, Step(t, i));
            read.threads[t].d == d && (now.threads[t].next.AddDone? <==> read.threads[t].AddRead?) &&
            Payload(Lookup(after.sh, d)) == Brought(read.sh, read.threads[t], moves[k].i)
  {
    k := WriteBackWasRead(s, moves, t);
    RunsAreUpToDate(s, moves);
    var read := Exec(s, moves[..k]);
    LocalBringsBack(read.sh, t, read.threads[t], moves[k].i);
  }

  /** So a soft removal or a failure mark changes what was issued exactly if it was changed between
      its read and its write; a change of flags alone does not matter. */
  lemma RemovalOrMarkLosesExactly(s: State, moves: seq<Move>, t: nat, i: Input) returns (k: nat)
    requires Initial(s) && t in Exec(s, moves).threads && Exec(s, moves).threads[t].Rewrite?
    requires !Exec(s, moves).threads[t].next.AddDone?
    requires Enabled(Exec(s, moves).sh, t, Exec(s, moves).threads[t]) && !i.fails
    ensures k < |moves| && ReadAt(s, moves, k, t, Exec(s, moves).threads[t])
    ensures var now, read := Exec(s, moves), Exec(s, moves[..k]);
            var d, after := now.threads[t].d, Next(now, Step(t, i));
            Payload(Lookup(after.sh, d)) != Payload(Lookup(now.sh, d))
            <==> Payload(Lookup(read.sh, d)) != Payload(Lookup(now.sh, d))
  {
    k := WriteBackExactly(s, moves, t, i);
  }

  /** And an addition exactly if it was changed since, or if the addition brings a placeholder and
      anything else is stored. */
  lemma AdditionLosesExactly(s: State, moves: seq<Move>, t: nat, i: Input) returns (k: nat)
    requires Initial(s) && t in Exec(s, moves).threads && Exec(s, moves).threads[t].Rewrite?
    requires Exec(s, moves).threads[t].next.AddDone?
    requires Enabled(Exec(s, moves).sh, t, Exec(s, moves).threads[t]) && !i.fails
    ensures k < |moves| && ReadAt(s, moves, k, t, Exec(s, moves).threads[t]) && Exec(s, moves[..k]).threads[t].AddRead?
    ensures var now, read := Exec(s, moves), Exec(s, moves[..k]);
            var d, after := now.threads[t].d, Next(now, Step(t, i));
            Payload(Lookup(after.sh, d)) != Payload(Lookup(now.sh, d))
            <==> if moves[k].i.fails || Lookup(read.sh, d).commonName == ""
                 then Payload(Lookup(now.sh, d)) != Payload(Placeholder(d, read.threads[t].sans))
                 else Payload(Lookup(read.sh, d)) != Payload(Lookup(now.sh, d))
  {
    k := WriteBackExactly(s, moves, t, i);
  }
}
