/** What fetching achieves: from any disk contents it converges to the server's certificates, and
    then rests. */
module Reconciliation {
  import opened Wrappers
  import opened FileNames
  import opened Fetcher

  /** No text pairs with the empty one, which holds no block. */
  ghost predicate NoEmptyKey(pairs: (string, string) -> bool) {
    forall chain :: !pairs(chain, "")
  }

  function ChainOf(api: Api, d: string): string
    requires d in CertMap(api.certs)
  {
    ChainFor(CertMap(api.certs)[d])
  }

  predicate Wanted(api: Api, d: string) {
    Eligible(CertMap(api.certs), d)
  }

  /** The two files of `d` are the server's chain, and a key that fits it or the server's key, up to
      surrounding white space. */
  ghost predicate UpToDate(api: Api, pairs: (string, string) -> bool, files: Files, d: string)
    requires Wanted(api, d)
  {
    CertFile(d) in files && KeyFile(d) in files && Trim(files[CertFile(d)]) == Trim(ChainOf(api, d)) &&
    (pairs(ChainOf(api, d), files[KeyFile(d)]) || (d in api.keys && Trim(files[KeyFile(d)]) == Trim(api.keys[d])))
  }

  /** Different wanted domains have different files. */
  ghost predicate DistinctFiles(api: Api) {
    forall d, e :: d in api.domains && e in api.domains && Wanted(api, d) && Wanted(api, e) && SafeDomain(d) == SafeDomain(e) ==> d == e
  }

  /******* One domain *******/

  lemma ProcessedIsUpToDate(api: Api, pairs: (string, string) -> bool, files: Files, d: string, io: DomainIo)
    requires Wanted(api, d) && Process(api, pairs, files, d, io).1 != Failed
    ensures UpToDate(api, pairs, Process(api, pairs, files, d, io).0, d)
  {
    CertFileNeverKeyFile(d, d);
  }

  lemma ProcessTouchesOwnFiles(api: Api, pairs: (string, string) -> bool, files: Files, d: string, io: DomainIo, f: string)
    requires !Wanted(api, d) || (f != CertFile(d) && f != KeyFile(d))
    ensures var after := Process(api, pairs, files, d, io).0;
            (f in after <==> f in files) && (f in files ==> after[f] == files[f])
  {
  }

  lemma ProcessLeavesOthers(api: Api, pairs: (string, string) -> bool, files: Files, e: string, io: DomainIo, d: string)
    requires Wanted(api, d) && UpToDate(api, pairs, files, d) && SafeDomain(d) != SafeDomain(e)
    ensures UpToDate(api, pairs, Process(api, pairs, files, e, io).0, d)
  {
    FilesFollowSafeDomain(d, e);
    CertFileNeverKeyFile(d, e);
    CertFileNeverKeyFile(e, d);
    ProcessTouchesOwnFiles(api, pairs, files, e, io, CertFile(d));
    ProcessTouchesOwnFiles(api, pairs, files, e, io, KeyFile(d));
  }

  lemma ProcessUnwanted(api: Api, pairs: (string, string) -> bool, files: Files, d: string, io: DomainIo)
    requires !Wanted(api, d)
    ensures Process(api, pairs, files, d, io).0 == files && Process(api, pairs, files, d, io).1 != Saved
  {
  }

  /******* Convergence *******/

  lemma {:induction false} LoopConverges(api: Api, pairs: (string, string) -> bool, files: Files, io: nat -> DomainIo, n: nat, d: string)
    requires n <= |api.domains| && DistinctFiles(api)
    requires Loop(api, pairs, files, io, n).1.failed == 0
    requires d in api.domains[..n] && Wanted(api, d)
    ensures UpToDate(api, pairs, Loop(api, pairs, files, io, n).0, d)
  {
    var e, before := api.domains[n - 1], Loop(api, pairs, files, io, n - 1).0;
    if e == d {
      ProcessedIsUpToDate(api, pairs, before, d, io(n - 1));
    } else {
      assert d in api.domains[..n - 1];
      LoopConverges(api, pairs, files, io, n - 1, d);
      if Wanted(api, e) {
        ProcessLeavesOthers(api, pairs, before, e, io(n - 1), d);
      } else {
        ProcessUnwanted(api, pairs, before, e, io(n - 1));
      }
    }
  }

  /** From any disk contents, and with any file accesses failing that do not count as errors, a fetch
      without errors leaves every eligible domain up to date: its two files are there, and they hold
      the server's chain, and a key that fits it or the server's, but for surrounding white space. */
  lemma FetchConverges(api: Api, pairs: (string, string) -> bool, files: Files, io: nat -> DomainIo, d: string)
    requires DistinctFiles(api) && Loop(api, pairs, files, io, |api.domains|).1.failed == 0
    requires d in api.domains && Wanted(api, d)
    ensures var after := Loop(api, pairs, files, io, |api.domains|).0;
            UpToDate(api, pairs, after, d) && SameButSpaces(after[CertFile(d)], ChainOf(api, d)) &&
            (pairs(ChainOf(api, d), after[KeyFile(d)]) || (d in api.keys && SameButSpaces(after[KeyFile(d)], api.keys[d])))
  {
    var after := Loop(api, pairs, files, io, |api.domains|).0;
    assert api.domains[..|api.domains|] == api.domains;
    LoopConverges(api, pairs, files, io, |api.domains|, d);
    TrimDecides(after[CertFile(d)], ChainOf(api, d));
    if d in api.keys { TrimDecides(after[KeyFile(d)], api.keys[d]); }
  }

  /** A domain whose certificate file differs from the server's chain by more than surrounding white
      space is never skipped, whatever fails. */
  lemma RenewedIsNotSkipped(api: Api, pairs: (string, string) -> bool, files: Files, d: string, io: DomainIo)
    requires Wanted(api, d) && CertFile(d) in files && !SameButSpaces(files[CertFile(d)], ChainOf(api, d))
    ensures Process(api, pairs, files, d, io).1 != Skipped
  {
    TrimDecides(files[CertFile(d)], ChainOf(api, d));
  }

  /** If the server's own pairs fit, the chain and key then on disk are a pair that fits, up to
      surrounding white space. */
  lemma UpToDatePairFits(api: Api, pairs: (string, string) -> bool, files: Files, d: string)
    requires Wanted(api, d) && UpToDate(api, pairs, files, d)
    requires d in api.keys && pairs(ChainOf(api, d), api.keys[d])
    ensures Trim(files[CertFile(d)]) == Trim(ChainOf(api, d))
    ensures exists key :: pairs(ChainOf(api, d), key) && Trim(key) == Trim(files[KeyFile(d)])
  {
    if pairs(ChainOf(api, d), files[KeyFile(d)]) {
      assert pairs(ChainOf(api, d), files[KeyFile(d)]) && Trim(files[KeyFile(d)]) == Trim(files[KeyFile(d)]);
    }
  }

  /******* Rest *******/

  /** Nothing is left to write for `d`: the key on disk or the server's fits. */
  ghost predicate AtRest(api: Api, pairs: (string, string) -> bool, files: Files, d: string)
    requires Wanted(api, d) && UpToDate(api, pairs, files, d)
  {
    pairs(ChainOf(api, d), files[KeyFile(d)]) || (d in api.keys && pairs(ChainOf(api, d), api.keys[d]))
  }

  lemma ProcessAgain(api: Api, pairs: (string, string) -> bool, files: Files, d: string)
    requires NoEmptyKey(pairs) && Wanted(api, d) && UpToDate(api, pairs, files, d)
    ensures AtRest(api, pairs, files, d) ==> Process(api, pairs, files, d, IO_OK) == (files, Skipped)
    ensures !AtRest(api, pairs, files, d) ==> Process(api, pairs, files, d, IO_OK).1 == Saved
  {
  }

  ghost predicate AllUpToDate(api: Api, pairs: (string, string) -> bool, files: Files, n: nat)
    requires n <= |api.domains|
  {
    forall i :: 0 <= i < n && Wanted(api, api.domains[i]) ==> UpToDate(api, pairs, files, api.domains[i])
  }

  ghost predicate AllAtRest(api: Api, pairs: (string, string) -> bool, files: Files, n: nat)
    requires n <= |api.domains| && AllUpToDate(api, pairs, files, n)
  {
    forall i :: 0 <= i < n && Wanted(api, api.domains[i]) ==> AtRest(api, pairs, files, api.domains[i])
  }

  lemma {:induction false} SecondFetch(api: Api, pairs: (string, string) -> bool, files: Files, n: nat)
    requires n <= |api.domains| && NoEmptyKey(pairs) && AllUpToDate(api, pairs, files, n)
    ensures Loop(api, pairs, files, _ => IO_OK, n).1.saved == 0 <==> AllAtRest(api, pairs, files, n)
    ensures AllAtRest(api, pairs, files, n) ==> Loop(api, pairs, files, _ => IO_OK, n).0 == files
  {
    if n > 0 {
      SecondFetch(api, pairs, files, n - 1);
      var d, before := api.domains[n - 1], Loop(api, pairs, files, _ => IO_OK, n - 1);
      var (after, verdict) := Process(api, pairs, before.0, d, IO_OK);
      assert Loop(api, pairs, files, _ => IO_OK, n) == (after, Tally(before.1, verdict));
      if AllAtRest(api, pairs, files, n - 1) { RestsOrSaves(api, pairs, files, d, after, verdict); }
      assert AllAtRest(api, pairs, files, n) <==>
             AllAtRest(api, pairs, files, n - 1) && (Wanted(api, d) ==> AtRest(api, pairs, files, d));
    }
  }

  lemma RestsOrSaves(api: Api, pairs: (string, string) -> bool, files: Files, d: string, after: Files, verdict: Verdict)
    requires NoEmptyKey(pairs) && (Wanted(api, d) ==> UpToDate(api, pairs, files, d))
    requires (after, verdict) == Process(api, pairs, files, d, IO_OK)
    ensures verdict != Saved <==> (Wanted(api, d) ==> AtRest(api, pairs, files, d))
    ensures verdict != Saved ==> after == files
  {
    if Wanted(api, d) {
      ProcessAgain(api, pairs, files, d);
    } else {
      ProcessUnwanted(api, pairs, files, d, IO_OK);
    }
  }

  /** After a fetch without errors, whatever the disk held, a second one without failures writes
      nothing exactly when for every eligible domain the key now on disk or the server's key fits
      the server's chain.  A server whose pair does not fit has it rewritten on every fetch. */
  lemma SecondFetchRests(api: Api, pairs: (string, string) -> bool, files: Files, io: nat -> DomainIo)
    requires DistinctFiles(api) && NoEmptyKey(pairs)
    requires Loop(api, pairs, files, io, |api.domains|).1.failed == 0
    ensures var after := Loop(api, pairs, files, io, |api.domains|).0;
            AllUpToDate(api, pairs, after, |api.domains|) &&
            (Loop(api, pairs, after, _ => IO_OK, |api.domains|).1.saved == 0 <==> AllAtRest(api, pairs, after, |api.domains|)) &&
            (AllAtRest(api, pairs, after, |api.domains|) ==> Loop(api, pairs, after, _ => IO_OK, |api.domains|).0 == after)
  {
    var after := Loop(api, pairs, files, io, |api.domains|).0;
    forall i | 0 <= i < |api.domains| && Wanted(api, api.domains[i]) ensures UpToDate(api, pairs, after, api.domains[i]) {
      assert api.domains[i] in api.domains[..|api.domains|];
      LoopConverges(api, pairs, files, io, |api.domains|, api.domains[i]);
    }
    SecondFetch(api, pairs, after, |api.domains|);
  }

  /** With a server whose pairs fit, the second fetch leaves the disk as it is. */
  lemma SecondFetchWritesNothing(api: Api, pairs: (string, string) -> bool, files: Files, io: nat -> DomainIo)
    requires DistinctFiles(api) && NoEmptyKey(pairs)
    requires forall d :: d in api.domains && Wanted(api, d) ==> d in api.keys && pairs(ChainOf(api, d), api.keys[d])
    requires Loop(api, pairs, files, io, |api.domains|).1.failed == 0
    ensures var after := Loop(api, pairs, files, io, |api.domains|).0;
            var (again, counts) := Loop(api, pairs, after, _ => IO_OK, |api.domains|);
            again == after && counts.saved == 0
  {
    SecondFetchRests(api, pairs, files, io);
  }

  /** Names the web UI accepts have distinct files, so the theorems apply to them. */
  lemma AcceptedNamesAreDistinct(api: Api)
    requires forall d :: d in api.domains ==> AcceptedByUI(d)
    ensures DistinctFiles(api)
  {
    forall d, e | d in api.domains && e in api.domains && SafeDomain(d) == SafeDomain(e) ensures d == e {
      if d != e {
        AcceptedNamesAreDistinctFiles(d, e);
        FilesFollowSafeDomain(d, e);
      }
    }
  }

  /******* Where the hypothesis on names is needed *******/

  lemma {:induction false} NothingSavedNothingChanged(api: Api, pairs: (string, string) -> bool, files: Files, io: nat -> DomainIo, n: nat)
    requires n <= |api.domains| && Loop(api, pairs, files, io, n).1.saved == 0 && Loop(api, pairs, files, io, n).1.failed == 0
    ensures Loop(api, pairs, files, io, n).0 == files && AllUpToDate(api, pairs, files, n)
  {
    if n > 0 {
      NothingSavedNothingChanged(api, pairs, files, io, n - 1);
      if Wanted(api, api.domains[n - 1]) {
        ProcessedIsUpToDate(api, pairs, files, api.domains[n - 1], io(n - 1));
      }
    }
  }

  /** Two eligible domains that share a file name but not a chain keep overwriting each other: on no
      disk contents at all does a fetch end without saving something or reporting an error. */
  lemma CollidingDomainsNeverRest(api: Api, pairs: (string, string) -> bool, files: Files, io: nat -> DomainIo, d: string, e: string)
    requires d in api.domains && e in api.domains && Wanted(api, d) && Wanted(api, e)
    requires SafeDomain(d) == SafeDomain(e) && Trim(ChainOf(api, d)) != Trim(ChainOf(api, e))
    ensures var counts := Loop(api, pairs, files, io, |api.domains|).1;
            counts.saved > 0 || counts.failed > 0
  {
    var counts := Loop(api, pairs, files, io, |api.domains|).1;
    if counts.saved == 0 && counts.failed == 0 {
      NothingSavedNothingChanged(api, pairs, files, io, |api.domains|);
    }
  }

  /******* Counting, frame and the Traefik file *******/

  lemma {:induction false} CountsAddUp(api: Api, pairs: (string, string) -> bool, files: Files, io: nat -> DomainIo, n: nat)
    requires n <= |api.domains|
    ensures var c := Loop(api, pairs, files, io, n).1; c.saved + c.skipped + c.failed == n
  {
    if n > 0 { CountsAddUp(api, pairs, files, io, n - 1); }
  }

  /** A fetch touches the files of eligible domains of the managed list and no others. */
  lemma {:induction false} FetchLeavesOtherFiles(api: Api, pairs: (string, string) -> bool, files: Files, io: nat -> DomainIo, n: nat, f: string)
    requires n <= |api.domains|
    requires forall d :: d in api.domains && Wanted(api, d) ==> f != CertFile(d) && f != KeyFile(d)
    ensures var after := Loop(api, pairs, files, io, n).0;
            (f in after <==> f in files) && (f in files ==> after[f] == files[f])
  {
    if n > 0 {
      FetchLeavesOtherFiles(api, pairs, files, io, n - 1, f);
      ProcessTouchesOwnFiles(api, pairs, Loop(api, pairs, files, io, n - 1).0, api.domains[n - 1], io(n - 1), f);
    }
  }

  /** The i-th listed pair is that of the i-th eligible domain. */
  function WantedAmong(api: Api, domains: seq<string>): seq<string> {
    if domains == [] then []
    else
      var d := domains[|domains| - 1];
      WantedAmong(api, domains[..|domains| - 1]) + (if Wanted(api, d) then [d] else [])
  }

  lemma {:induction false} ListingFollowsWanted(api: Api, domains: seq<string>)
    ensures var listing, wanted := Listing(CertMap(api.certs), domains), WantedAmong(api, domains);
            |listing| == |wanted| &&
            (forall i :: 0 <= i < |wanted| ==> wanted[i] in domains && Wanted(api, wanted[i]) && listing[i] == (CertFile(wanted[i]), KeyFile(wanted[i]))) &&
            (forall d :: d in domains && Wanted(api, d) ==> d in wanted)
  {
    if domains != [] {
      ListingFollowsWanted(api, domains[..|domains| - 1]);
    }
  }

  /** Anything saved puts an entry into the list, so generating the Traefik file never fails for
      want of certificates. */
  lemma {:induction false} SavedIsListed(api: Api, pairs: (string, string) -> bool, files: Files, io: nat -> DomainIo, n: nat)
    requires n <= |api.domains| && Loop(api, pairs, files, io, n).1.saved > 0
    ensures Listing(CertMap(api.certs), api.domains[..n]) != []
  {
    var d := api.domains[n - 1];
    assert api.domains[..n][..n - 1] == api.domains[..n - 1];
    if !Wanted(api, d) {
      ProcessUnwanted(api, pairs, Loop(api, pairs, files, io, n - 1).0, d, io(n - 1));
      SavedIsListed(api, pairs, files, io, n - 1);
    }
  }

  /** After a fetch without errors the listed pairs are those of the eligible domains, in managed
      order, and each is on disk and up to date. */
  lemma ListedPairsAreOnDisk(api: Api, pairs: (string, string) -> bool, files: Files, io: nat -> DomainIo, i: nat)
    requires DistinctFiles(api) && Loop(api, pairs, files, io, |api.domains|).1.failed == 0
    requires i < |Listing(CertMap(api.certs), api.domains)|
    ensures var after, entry := Loop(api, pairs, files, io, |api.domains|).0, Listing(CertMap(api.certs), api.domains)[i];
            |WantedAmong(api, api.domains)| == |Listing(CertMap(api.certs), api.domains)| &&
            var d := WantedAmong(api, api.domains)[i];
            Wanted(api, d) && entry == (CertFile(d), KeyFile(d)) && entry.0 in after && entry.1 in after && UpToDate(api, pairs, after, d)
  {
    ListingFollowsWanted(api, api.domains);
    var d := WantedAmong(api, api.domains)[i];
    assert api.domains[..|api.domains|] == api.domains;
    FetchConverges(api, pairs, files, io, d);
  }

  /** Every eligible domain's files are the server's, and their keys fit. */
  ghost predicate Resting(api: Api, pairs: (string, string) -> bool, files: Files) {
    AllUpToDate(api, pairs, files, |api.domains|) && AllAtRest(api, pairs, files, |api.domains|)
  }

  /** A fetch without failures saves nothing exactly if the disk it finds is at rest. */
  lemma SavesUnlessResting(api: Api, pairs: (string, string) -> bool, files: Files)
    requires NoEmptyKey(pairs) && Loop(api, pairs, files, _ => IO_OK, |api.domains|).1.failed == 0
    ensures Loop(api, pairs, files, _ => IO_OK, |api.domains|).1.saved == 0 <==> Resting(api, pairs, files)
  {
    if AllUpToDate(api, pairs, files, |api.domains|) {
      SecondFetch(api, pairs, files, |api.domains|);
    } else if Loop(api, pairs, files, _ => IO_OK, |api.domains|).1.saved == 0 {
      NothingSavedNothingChanged(api, pairs, files, _ => IO_OK, |api.domains|);
    }
  }

  function Entries(api: Api): seq<(string, string)> {
    Listing(CertMap(api.certs), api.domains)
  }

  /** The Traefik file after a fetch without failures from these disk contents. */
  function TraefikThen(api: Api, pairs: (string, string) -> bool, files: Files, was: Option<seq<(string, string)>>): Option<seq<(string, string)>> {
    TraefikAfter(was, true, Loop(api, pairs, files, _ => IO_OK, |api.domains|).1.saved, Entries(api), false)
  }

  lemma TraefikExact(api: Api, pairs: (string, string) -> bool, files: Files, was: Option<seq<(string, string)>>)
    requires NoEmptyKey(pairs) && Loop(api, pairs, files, _ => IO_OK, |api.domains|).1.failed == 0
    ensures TraefikThen(api, pairs, files, was) == if Resting(api, pairs, files) then was else Some(Entries(api))
  {
    SavesUnlessResting(api, pairs, files);
    if Loop(api, pairs, files, _ => IO_OK, |api.domains|).1.saved > 0 {
      SavedIsListed(api, pairs, files, _ => IO_OK, |api.domains|);
      assert api.domains[..|api.domains|] == api.domains;
    }
  }

  /** So the Traefik file agrees with the server after it exactly if it did before, or the disk was
      not at rest. */
  lemma TraefikFollowsDisk(api: Api, pairs: (string, string) -> bool, files: Files, was: Option<seq<(string, string)>>)
    requires NoEmptyKey(pairs) && Loop(api, pairs, files, _ => IO_OK, |api.domains|).1.failed == 0
    ensures TraefikThen(api, pairs, files, was) == Some(Entries(api)) <==> was == Some(Entries(api)) || !Resting(api, pairs, files)
  {
    TraefikExact(api, pairs, files, was);
  }

  /** The certificate file of `d` is that of a domain the server wants kept. */
  ghost predicate Served(api: Api, d: string) {
    exists e :: e in api.domains && Wanted(api, e) && SafeDomain(e) == SafeDomain(d)
  }

  lemma EntryIsServed(api: Api, d: string)
    ensures (CertFile(d), KeyFile(d)) in Entries(api) <==> Served(api, d)
  {
    ListingFollowsWanted(api, api.domains);
    var wanted := WantedAmong(api, api.domains);
    if (CertFile(d), KeyFile(d)) in Entries(api) {
      var i :| 0 <= i < |Entries(api)| && Entries(api)[i] == (CertFile(d), KeyFile(d));
      FilesFollowSafeDomain(wanted[i], d);
    }
    if e :| e in api.domains && Wanted(api, e) && SafeDomain(e) == SafeDomain(d) {
      var i :| 0 <= i < |wanted| && wanted[i] == e;
      FilesFollowSafeDomain(e, d);
      assert Entries(api)[i] == (CertFile(d), KeyFile(d));
    }
  }

  /** A domain that was eligible when the Traefik file was last written, and whatever the server
      serves now: after a fetch without failures the file lists it exactly if its file name is still
      served, or the disk was at rest.  So a domain that was removed, its certificate with it or
      not, stays listed until something else has to be saved. */
  lemma DroppedDomainStaysListed(before: Api, api: Api, pairs: (string, string) -> bool, files: Files, d: string)
    requires NoEmptyKey(pairs) && Loop(api, pairs, files, _ => IO_OK, |api.domains|).1.failed == 0
    requires d in before.domains && Wanted(before, d)
    ensures var after := TraefikThen(api, pairs, files, Some(Entries(before)));
            after.Some? &&
            ((CertFile(d), KeyFile(d)) in after.value <==> Served(api, d) || Resting(api, pairs, files)) &&
            (Resting(api, pairs, files) ==> after.value == Entries(before))
  {
    TraefikExact(api, pairs, files, Some(Entries(before)));
    EntryIsServed(api, d);
    EntryIsServed(before, d);
  }
}
