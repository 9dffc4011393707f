/** Without a lock, as over Vault: exactly which list a run leaves behind, and so exactly when a
    successful addition is lost. */
module StaleLists {
  import opened Wrappers
  import opened Keystore
  import opened Interleaving
  import opened ManagedLists

  /** Every event knows when its list was read: no later than it happened, or not at all. */
  ghost predicate Dated(log: seq<Event>, basis: seq<Option<nat>>) {
    |log| == |basis| && forall k :: 0 <= k < |basis| && basis[k].Some? ==> basis[k].value <= k
  }

  /** The list after the first `n` events: each is applied to the list as it was when its thread
      read it, and to the empty list when it could not read it. */
  ghost function ListAfter(start: seq<ManagedDomain>, log: seq<Event>, basis: seq<Option<nat>>, n: nat): seq<ManagedDomain>
    requires Dated(log, basis) && n <= |log|
    decreases n, 0
  {
    if n == 0 then start
    else if log[n - 1].Refused? then ListAfter(start, log, basis, n - 1)
    else ApplyEvent(ListAsOf(start, log, basis, basis[n - 1]), log[n - 1])
  }

  ghost function ListAsOf(start: seq<ManagedDomain>, log: seq<Event>, basis: seq<Option<nat>>, asOf: Option<nat>): seq<ManagedDomain>
    requires Dated(log, basis) && (asOf.Some? ==> asOf.value <= |log|)
    decreases if asOf.Some? then asOf.value else 0, 1
  {
    if asOf.None? then [] else ListAfter(start, log, basis, asOf.value)
  }

  /******* Every run leaves that list *******/

  ghost predicate KnowsList(start: seq<ManagedDomain>, sh: Shared, pc: Pc)
    requires Dated(sh.log, sh.basis)
  {
    Committing(pc) ==> (pc.asOf.Some? ==> pc.asOf.value <= |sh.log|) && pc.md == ListAsOf(start, sh.log, sh.basis, pc.asOf)
  }

  ghost predicate ListKnown(start: seq<ManagedDomain>, sh: Shared) {
    Dated(sh.log, sh.basis) && sh.managed == ListAfter(start, sh.log, sh.basis, |sh.log|)
  }

  ghost predicate Known(start: seq<ManagedDomain>, s: State) {
    ListKnown(start, s.sh) && forall t :: t in s.threads ==> KnowsList(start, s.sh, s.threads[t]) && PlainNext(s.threads[t])
  }

  /** Later events do not change what was. */
  lemma {:induction false} ListOfPrefix(start: seq<ManagedDomain>, log: seq<Event>, basis: seq<Option<nat>>, ev: Event, asOf: Option<nat>, n: nat)
    requires Dated(log, basis) && Dated(log + [ev], basis + [asOf]) && n <= |log|
    ensures ListAfter(start, log + [ev], basis + [asOf], n) == ListAfter(start, log, basis, n)
  {
    if n > 0 {
      ListOfPrefix(start, log, basis, ev, asOf, n - 1);
      if basis[n - 1].Some? { ListOfPrefix(start, log, basis, ev, asOf, basis[n - 1].value); }
    }
  }

  /** How a step treats the list. */
  ghost predicate Treats(sh: Shared, pc: Pc, after: Pc, e: Effect) {
    (e.Commit? ==> Committing(pc) && !e.ev.Refused? && e.asOf == pc.asOf && e.md == ApplyEvent(pc.md, e.ev)) &&
    (e.Answer? ==> e.ev.Refused?) &&
    (Committing(after) ==>
       e.Hold? && if after.asOf.Some? then after.asOf.value == |sh.log| && after.md == sh.managed else after.md == [])
  }

  lemma LocalTreats(sh: Shared, t: nat, pc: Pc, i: Input)
    requires PlainNext(pc)
    ensures var (after, e) := Local(sh, t, pc, i); PlainNext(after) && Treats(sh, pc, after, e)
  {
  }

  lemma EventKeepsListKnown(start: seq<ManagedDomain>, sh: Shared, pc: Pc, ev: Event, asOf: Option<nat>, md: seq<ManagedDomain>)
    requires ListKnown(start, sh) && (asOf.Some? ==> asOf.value <= |sh.log|)
    requires md == if ev.Refused? then sh.managed else ApplyEvent(ListAsOf(start, sh.log, sh.basis, asOf), ev)
    ensures ListKnown(start, sh.(managed := md, log := sh.log + [ev], basis := sh.basis + [asOf]))
  {
    if ev.Refused? {
      ListOfPrefix(start, sh.log, sh.basis, ev, asOf, |sh.log|);
    } else if asOf.Some? {
      ListOfPrefix(start, sh.log, sh.basis, ev, asOf, asOf.value);
    }
  }

  lemma EffectKeepsListKnown(start: seq<ManagedDomain>, sh: Shared, t: nat, pc: Pc, after: Pc, e: Effect)
    requires ListKnown(start, sh) && KnowsList(start, sh, pc) && Treats(sh, pc, after, e)
    ensures ListKnown(start, Perform(sh, t, e)) && KnowsList(start, Perform(sh, t, e), after)
  {
    if e.Commit? {
      EventKeepsListKnown(start, sh, pc, e.ev, e.asOf, e.md);
    } else if e.Answer? {
      EventKeepsListKnown(start, sh, pc, e.ev, Some(|sh.log|), sh.managed);
    }
  }

  lemma OthersStillKnow(start: seq<ManagedDomain>, sh: Shared, t: nat, e: Effect, pc: Pc)
    requires Dated(sh.log, sh.basis) && Dated(Perform(sh, t, e).log, Perform(sh, t, e).basis) && KnowsList(start, sh, pc)
    ensures KnowsList(start, Perform(sh, t, e), pc)
  {
    if Committing(pc) && pc.asOf.Some? {
      if e.Commit? {
        ListOfPrefix(start, sh.log, sh.basis, e.ev, e.asOf, pc.asOf.value);
      } else if e.Answer? {
        ListOfPrefix(start, sh.log, sh.basis, e.ev, Some(|sh.log|), pc.asOf.value);
      }
    }
  }

  lemma NextKeepsKnown(start: seq<ManagedDomain>, s: State, m: Move)
    requires Known(start, s)
    ensures Known(start, Next(s, m))
  {
    if m.Step? && m.t in s.threads && Enabled(s.sh, m.t, s.threads[m.t]) {
      var (after, e) := Local(s.sh, m.t, s.threads[m.t], m.i);
      LocalTreats(s.sh, m.t, s.threads[m.t], m.i);
      EffectKeepsListKnown(start, s.sh, m.t, s.threads[m.t], after, e);
      forall t | t in s.threads && t != m.t ensures KnowsList(start, Perform(s.sh, m.t, e), s.threads[t]) {
        OthersStillKnow(start, s.sh, m.t, e, s.threads[t]);
      }
    }
  }

  /** In every interleaving, with or without a lock, the managed list is exactly what its events make
      of the lists they were computed from. */
  lemma {:induction false} ListIsExact(s: State, moves: seq<Move>)
    requires Initial(s)
    ensures Known(s.sh.managed, Exec(s, moves))
  {
    if moves != [] {
      ListIsExact(s, moves[..|moves| - 1]);
      NextKeepsKnown(s.sh.managed, Exec(s, moves[..|moves| - 1]), moves[|moves| - 1]);
    }
  }

  /******* Exactly when a domain is listed *******/

  /** Going back from each commit to the read it was computed from: an addition of `d`, or the start
      with `d` listed, comes before a removal of `d` and before a failed read. */
  ghost predicate Stands(start: seq<ManagedDomain>, log: seq<Event>, basis: seq<Option<nat>>, n: nat, d: string)
    requires Dated(log, basis) && n <= |log|
    decreases n
  {
    if n == 0 then d in Names(start)
    else
      match log[n - 1]
      case Refused(_, _) => Stands(start, log, basis, n - 1, d)
      case Added(e, _) => e == d || (basis[n - 1].Some? && Stands(start, log, basis, basis[n - 1].value, d))
      case Removed(e) => e != d && basis[n - 1].Some? && Stands(start, log, basis, basis[n - 1].value, d)
  }

  lemma {:induction false} ListedIffStands(start: seq<ManagedDomain>, log: seq<Event>, basis: seq<Option<nat>>, n: nat, d: string)
    requires Dated(log, basis) && n <= |log|
    ensures d in Names(ListAfter(start, log, basis, n)) <==> Stands(start, log, basis, n, d)
    decreases n
  {
    if n > 0 {
      var ev, asOf := log[n - 1], basis[n - 1];
      if ev.Refused? {
        ListedIffStands(start, log, basis, n - 1, d);
      } else {
        if asOf.Some? { ListedIffStands(start, log, basis, asOf.value, d); }
        ListedAfterEvent(ListAsOf(start, log, basis, asOf), ev, d);
      }
    }
  }

  lemma ListedAfterEvent(md: seq<ManagedDomain>, ev: Event, d: string)
    requires !ev.Refused?
    ensures d in Names(ApplyEvent(md, ev)) <==> if ev.Added? then ev.d == d || d in Names(md) else ev.d != d && d in Names(md)
  {
    match ev
    case Added(e, sans) => NamesAppend(md, ManagedDomain(e, sans));
    case Removed(e) => WithoutMembers(md, e);
  }

  /** In every interleaving a domain is listed exactly if it stands.  So an addition that succeeded is
      lost exactly if the commits that followed, traced from read to read, lead past it. */
  lemma ListedExactly(s: State, moves: seq<Move>, d: string)
    requires Initial(s)
    ensures var now := Exec(s, moves);
            Dated(now.sh.log, now.sh.basis) &&
            (d in Names(now.sh.managed) <==> Stands(s.sh.managed, now.sh.log, now.sh.basis, |now.sh.log|, d))
  {
    var now := Exec(s, moves);
    ListIsExact(s, moves);
    ListedIffStands(s.sh.managed, now.sh.log, now.sh.basis, |now.sh.log|, d);
  }

  /******* What an addition can be lost to *******/

  /** The commit at `k` was computed from a list read before the event at `at`, or from the empty
      list a failed read is taken for. */
  predicate Stale(basis: seq<Option<nat>>, k: nat, at: nat)
    requires k < |basis|
  {
    basis[k].None? || basis[k].value <= at
  }

  lemma {:induction false} UndisturbedStands(start: seq<ManagedDomain>, log: seq<Event>, basis: seq<Option<nat>>, at: nat, d: string, n: nat)
    requires Dated(log, basis) && at < n <= |log| && log[at].Added? && log[at].d == d
    requires forall k: nat :: at < k < n ==> log[k].Refused? || (log[k] != Removed(d) && !Stale(basis, k, at))
    ensures Stands(start, log, basis, n, d)
    decreases n
  {
    if at < n - 1 {
      UndisturbedStands(start, log, basis, at, d, if log[n - 1].Refused? then n - 1 else basis[n - 1].value);
    }
  }

  /** In particular, a domain whose addition succeeded and which is not listed was removed since, or a
      later operation committed a list that was read before the addition, or the empty list for one
      it could not read. */
  lemma LostOnlyToStaleLists(s: State, moves: seq<Move>, t: nat)
    requires Initial(s) && t in Exec(s, moves).threads && Exec(s, moves).threads[t].AddDone?
    requires Exec(s, moves).threads[t].d !in Names(Exec(s, moves).sh.managed)
    ensures var now := Exec(s, moves); var (at, d) := (now.threads[t].at, now.threads[t].d);
            |now.sh.log| == |now.sh.basis| &&
            exists k: nat :: at < k < |now.sh.log| && !now.sh.log[k].Refused? && (now.sh.log[k] == Removed(d) || Stale(now.sh.basis, k, at))
  {
    var now := Exec(s, moves);
    var at, d := now.threads[t].at, now.threads[t].d;
    ListedExactly(s, moves, d);
    AdditionsAreRecorded(s, moves);
    assert Recorded(now.sh.log, now.threads[t]);
    if forall k: nat :: at < k < |now.sh.log| ==> now.sh.log[k].Refused? || (now.sh.log[k] != Removed(d) && !Stale(now.sh.basis, k, at)) {
      UndisturbedStands(s.sh.managed, now.sh.log, now.sh.basis, at, d, |now.sh.log|);
    }
  }
}
