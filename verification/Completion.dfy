/** How many steps of its own a thread takes at most. */
module Completion {
  import opened Interleaving
  import opened ManagedLists

  /** The steps left when the worker has `rest` still to visit. */
  function Visits(rest: seq<string>): nat {
    1 + 7 * |rest|
  }

  /** An upper bound; a worker that has yet to read the list has none. */
  function Left(pc: Pc): nat {
    match pc
    case AddEnter(_, _) => 4
    case AddCommit(_, _, _, _) => 3
    case AddRead(_, _, _) => 2
    case AddDone(_, _) => 0
    case RemoveEnter(_, _) => 4
    case RemoveCommit(_, _, _, _) => 3
    case DisownRead(_) => 2
    case DeleteCheck(_) => 2
    case DeleteWrite(_) => 1
    case ImportWrite(_, _) => 1
    case WorkList => 0
    case WorkCheck(todo) => Visits(todo)
    case WorkLeaf(_, rest) => 6 + Visits(rest)
    case WorkOrder(_, rest) => 5 + Visits(rest)
    case FailRead(_, rest, _) => 4 + Visits(rest)
    case WorkStore(_, rest, _) => 3 + Visits(rest)
    case MarkRead(_, rest, _) => 2 + Visits(rest)
    case Rewrite(_, _, _, next) => 1 + Left(next)
    case Done => 0
  }

  /** The worker lists its domains first of all. */
  ghost predicate Past(pc: Pc) {
    !pc.WorkList? && (pc.Rewrite? ==> !pc.next.WorkList?) && PlainNext(pc)
  }

  lemma StepStaysPast(sh: Shared, t: nat, pc: Pc, i: Input)
    requires Past(pc)
    ensures Past(Local(sh, t, pc, i).0)
  {
  }

  predicate Visiting(pc: Pc) {
    pc.WorkLeaf? || pc.WorkOrder? || pc.FailRead? || pc.WorkStore? || pc.MarkRead?
  }

  lemma VisitShrinks(sh: Shared, t: nat, pc: Pc, i: Input)
    requires Visiting(pc)
    ensures Left(Local(sh, t, pc, i).0) < Left(pc)
  {
  }

  lemma CheckShrinks(sh: Shared, t: nat, todo: seq<string>, i: Input)
    ensures Left(Local(sh, t, WorkCheck(todo), i).0) < Left(WorkCheck(todo))
  {
    if todo != [] { assert |todo[1..]| == |todo| - 1; }
  }

  lemma RequestShrinks(sh: Shared, t: nat, pc: Pc, i: Input)
    requires !Visiting(pc) && !pc.WorkCheck? && !pc.WorkList? && !Finished(pc)
    ensures Left(Local(sh, t, pc, i).0) < Left(pc)
  {
  }

  lemma LocalShrinks(sh: Shared, t: nat, pc: Pc, i: Input)
    requires !pc.WorkList? && !Finished(pc)
    ensures Left(Local(sh, t, pc, i).0) < Left(pc)
  {
    if pc.WorkCheck? {
      CheckShrinks(sh, t, pc.todo, i);
    } else if Visiting(pc) {
      VisitShrinks(sh, t, pc, i);
    } else {
      RequestShrinks(sh, t, pc, i);
    }
  }

  /** The worker's first step fixes how many are left: seven for each listed domain, and one. */
  lemma ListStepBounds(sh: Shared, t: nat, i: Input)
    ensures Left(Local(sh, t, WorkList, i).0) <= 1 + 7 * |sh.managed|
  {
  }

  predicate Moves(s: State, m: Move, t: nat) {
    m.Step? && m.t == t && t in s.threads && Enabled(s.sh, t, s.threads[t])
  }

  /** The steps thread `t` takes along `moves`. */
  function OwnSteps(s: State, moves: seq<Move>, t: nat): nat {
    if moves == [] then 0
    else OwnSteps(s, moves[..|moves| - 1], t) + (if Moves(Exec(s, moves[..|moves| - 1]), moves[|moves| - 1], t) then 1 else 0)
  }

  ghost predicate Started(s: State, t: nat) {
    t in s.threads && Past(s.threads[t])
  }

  lemma NextShrinks(s: State, m: Move, t: nat)
    requires Started(s, t)
    ensures Started(Next(s, m), t)
    ensures Left(Next(s, m).threads[t]) + (if Moves(s, m, t) then 1 else 0) <= Left(s.threads[t])
  {
    if Moves(s, m, t) {
      StepStaysPast(s.sh, t, s.threads[t], m.i);
      LocalShrinks(s.sh, t, s.threads[t], m.i);
    }
  }

  /** Whatever the others do, the thread's own steps use up its bound... */
  lemma {:induction false} StepsAreBounded(s: State, moves: seq<Move>, t: nat)
    requires Started(s, t)
    ensures Started(Exec(s, moves), t)
    ensures OwnSteps(s, moves, t) + Left(Exec(s, moves).threads[t]) <= Left(s.threads[t])
  {
    if moves != [] {
      StepsAreBounded(s, moves[..|moves| - 1], t);
      NextShrinks(Exec(s, moves[..|moves| - 1]), moves[|moves| - 1], t);
    }
  }

  /** ...and when they have, it has finished. */
  lemma FinishesWithin(s: State, moves: seq<Move>, t: nat)
    requires Started(s, t) && OwnSteps(s, moves, t) >= Left(s.threads[t])
    ensures t in Exec(s, moves).threads && Finished(Exec(s, moves).threads[t])
  {
    StepsAreBounded(s, moves, t);
  }
}
