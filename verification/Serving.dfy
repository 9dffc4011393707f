/** The two halves together: what the fetcher gets from a server with a given keystore.

    The server keeps records by domain (`cmd/acme-store/httpserver.go`), the fetcher looks
    certificates up by their common name (`cmd/acme-store-fetcher/main.go`). */
module Serving {
  import opened Wrappers
  import opened Certificates
  import opened Keystore
  import opened Handlers
  import Renewal
  import opened Fetcher
  import opened FileNames
  import opened Reconciliation
  import Lifecycle

  /** How a PEM text is written down; nothing but the empty one is written as nothing. */
  ghost predicate Renders(text: Pem -> string) {
    forall p :: text(p) == "" <==> p == []
  }

  function ToInfo(text: Pem -> string, s: Shown): CertInfo {
    CertInfo(s.commonName, text(s.leaf), text(s.chain), s.managed, s.status)
  }

  function Infos(text: Pem -> string, shown: seq<Shown>): seq<CertInfo> {
    seq(|shown|, i requires 0 <= i < |shown| => ToInfo(text, shown[i]))
  }

  lemma InfoFields(text: Pem -> string, shown: seq<Shown>, i: nat)
    requires i < |shown|
    ensures |Infos(text, shown)| == |shown|
    ensures var info, s := Infos(text, shown)[i], shown[i];
            info.commonName == s.commonName && info.leaf == text(s.leaf) && info.chain == text(s.chain) &&
            info.managed == s.managed && info.status == s.status
  {
  }

  lemma InfosAppend(text: Pem -> string, shown: seq<Shown>, s: Shown)
    ensures Infos(text, shown + [s]) == Infos(text, shown) + [ToInfo(text, s)]
  {
  }

  /** `/domains`, `/certs` with the stored domains in the order of the directory, and
      `/certs/<domain>/private-key`. */
  function ApiOf(text: Pem -> string, st: Store, order: seq<string>): Api {
    Api(Names(st.managed), Infos(text, CertList(st, order, {})),
        map d | d in st.records && ServePrivateKey(st, d, false).0 == 200 :: ServePrivateKey(st, d, false).1)
  }

  /** What the server offers besides the certificates: the names of the list, and a key for each record
      with a name. */
  lemma OffersExactly(text: Pem -> string, st: Store, order: seq<string>)
    ensures var api := ApiOf(text, st, order);
            |api.domains| == |st.managed| && (forall i :: 0 <= i < |st.managed| ==> api.domains[i] == st.managed[i].domain) &&
            (forall d :: d in api.keys <==> d != "" && d in st.records && st.records[d].commonName != "") &&
            (forall d :: d in api.keys ==> api.keys[d] == st.records[d].key)
  {
  }

  ghost predicate Enumerates(order: seq<string>, st: Store) {
    forall d :: d in order <==> d in st.records
  }

  /******* Looking up by name *******/

  ghost predicate Carries(st: Store, e: string, name: string) {
    e in st.records && st.records[e].commonName == name
  }

  lemma {:induction false} LookupByName(text: Pem -> string, st: Store, order: seq<string>, name: string)
    requires name != ""
    ensures var certs := CertMap(Infos(text, CertList(st, order, {})));
            (name in certs <==> exists e :: e in order && Carries(st, e, name)) &&
            (name in certs ==> exists e :: e in order && Carries(st, e, name) && certs[name] == ToInfo(text, Show(st.records[e])))
  {
    if order != [] {
      var front, d := order[..|order| - 1], order[|order| - 1];
      LookupByName(text, st, front, name);
      assert order == front + [d];
      if d in ShownCerts(st) {
        InfosAppend(text, CertList(st, front, {}), ShownCerts(st)[d]);
        CertMapAppend(Infos(text, CertList(st, front, {})), ToInfo(text, ShownCerts(st)[d]));
        if st.records[d].commonName == name { assert Carries(st, d, name); }
      }
    }
  }

  lemma CertMapAppend(certs: seq<CertInfo>, last: CertInfo)
    ensures CertMap(certs + [last]) == if last.commonName != "" then CertMap(certs)[last.commonName := last] else CertMap(certs)
  {
    assert (certs + [last])[..|certs|] == certs;
  }

  /** A domain is found on the server exactly when some record carries its name, and what is found is
      such a record. */
  lemma FoundExactlyByName(text: Pem -> string, st: Store, order: seq<string>, d: string)
    requires d != "" && Enumerates(order, st)
    ensures var certs := CertMap(ApiOf(text, st, order).certs);
            (d in certs <==> exists e :: Carries(st, e, d)) &&
            (d in certs ==> exists e :: Carries(st, e, d) && certs[d] == ToInfo(text, Show(st.records[e])))
  {
    LookupByName(text, st, order, d);
    if e :| Carries(st, e, d) { assert e in order; }
  }

  /** The domain's own record carries its name, and no other does. */
  ghost predicate OwnName(st: Store, d: string) {
    d != "" && Carries(st, d, d) && forall e :: Carries(st, e, d) ==> e == d
  }

  lemma FoundByOwnName(text: Pem -> string, st: Store, order: seq<string>, d: string)
    requires OwnName(st, d) && Enumerates(order, st)
    ensures var api := ApiOf(text, st, order);
            d in CertMap(api.certs) && CertMap(api.certs)[d] == ToInfo(text, Show(st.records[d])) &&
            d in api.keys && api.keys[d] == st.records[d].key
  {
    FoundExactlyByName(text, st, order, d);
  }

  /** A record that holds a certificate in use. */
  predicate InUse(r: CertAndKey) {
    r.managed && (r.status == "issued" || r.status == "") && r.leaf != []
  }

  lemma WantedExactly(text: Pem -> string, st: Store, order: seq<string>, d: string)
    requires Renders(text) && OwnName(st, d) && Enumerates(order, st)
    ensures Wanted(ApiOf(text, st, order), d) <==> InUse(st.records[d])
  {
    FoundByOwnName(text, st, order, d);
  }

  /** A worker that cannot read the leaf of a certificate that is in use and not due marks it failed,
      and the fetcher no longer takes it. */
  lemma MisreadStopsFetching(text: Pem -> string, st: Store, order: seq<string>, d: string, at: Renewal.Attempt)
    requires Renders(text) && OwnName(st, d) && Enumerates(order, st) && InUse(st.records[d]) && Lifecycle.Misreads(st, d, at)
    ensures Wanted(ApiOf(text, st, order), d) && !Wanted(ApiOf(text, Renewal.Visit(st, d, at), order), d)
  {
    var after := Renewal.Visit(st, d, at);
    Lifecycle.MisreadMarksFailed(st, d, at);
    forall e | Carries(after, e, d) ensures e == d {
      assert Carries(st, e, d);
    }
    assert Carries(after, d, d);
    WantedExactly(text, st, order, d);
    WantedExactly(text, after, order, d);
  }

  /** End to end: after a fetch without errors, whatever the disk held, the certificate file of a
      listed domain whose record is in use and carries its name holds that record's chain, up to
      surrounding white space, and its key file a key that fits or the record's own. */
  lemma ServedChainReachesDisk(text: Pem -> string, st: Store, order: seq<string>, d: string,
                               pairs: (string, string) -> bool, files: Files, io: nat -> DomainIo)
    requires Renders(text) && Enumerates(order, st) && DistinctFiles(ApiOf(text, st, order))
    requires d in Names(st.managed) && OwnName(st, d) && InUse(st.records[d])
    requires var api := ApiOf(text, st, order); Loop(api, pairs, files, io, |api.domains|).1.failed == 0
    ensures var api, r := ApiOf(text, st, order), st.records[d];
            var after, chain := Loop(api, pairs, files, io, |api.domains|).0, if r.chain == [] then text(r.leaf) else text(r.chain);
            CertFile(d) in after && KeyFile(d) in after && SameButSpaces(after[CertFile(d)], chain) &&
            (pairs(chain, after[KeyFile(d)]) || SameButSpaces(after[KeyFile(d)], r.key))
  {
    var api := ApiOf(text, st, order);
    FoundByOwnName(text, st, order, d);
    WantedExactly(text, st, order, d);
    assert api.domains[..|api.domains|] == api.domains;
    FetchConverges(api, pairs, files, io, d);
  }

  lemma {:induction false} NotFoundFails(api: Api, pairs: (string, string) -> bool, files: Files, io: nat -> DomainIo, n: nat, d: string)
    requires n <= |api.domains| && d in api.domains[..n] && d !in CertMap(api.certs)
    ensures Loop(api, pairs, files, io, n).1.failed > 0
  {
    if api.domains[n - 1] != d {
      assert d in api.domains[..n - 1];
      NotFoundFails(api, pairs, files, io, n - 1, d);
    }
  }

  /** A listed domain whose name no record carries, as when the authority names its leaf otherwise,
      makes every fetch fail. */
  lemma UncarriedNameFails(text: Pem -> string, st: Store, order: seq<string>, d: string,
                           pairs: (string, string) -> bool, files: Files, io: nat -> DomainIo)
    requires Enumerates(order, st) && d in Names(st.managed) && d != "" && forall e :: !Carries(st, e, d)
    ensures var api := ApiOf(text, st, order); Loop(api, pairs, files, io, |api.domains|).1.failed > 0
  {
    var api := ApiOf(text, st, order);
    FoundExactlyByName(text, st, order, d);
    assert api.domains[..|api.domains|] == api.domains;
    NotFoundFails(api, pairs, files, io, |api.domains|, d);
  }

  /******* A removed domain *******/

  ghost predicate OwnNames(st: Store) {
    forall d :: d in st.records ==> d != "" && st.records[d].commonName == d
  }

  lemma RemovalKeepsRest(st: Store, d: string, deleteCert: bool)
    requires OwnNames(st) && d in Names(st.managed) && d != ""
    ensures var after := HandleRemove(st, d, deleteCert, DETACH_OK).0;
            OwnNames(after) && d !in Names(after.managed) &&
            (forall e :: e in Names(after.managed) ==> e in Names(st.managed) && e != d) &&
            (forall e :: e != d ==> Lifecycle.SameAt(after, st, e))
  {
    WithoutMembers(st.managed, d);
  }

  /** The same record is served alike. */
  lemma SameRecordRests(text: Pem -> string, st: Store, order: seq<string>, st1: Store, order1: seq<string>, e: string,
                        pairs: (string, string) -> bool, files: Files)
    requires OwnNames(st) && OwnNames(st1) && Enumerates(order, st) && Enumerates(order1, st1)
    requires e in st.records && Lifecycle.SameAt(st1, st, e) && Wanted(ApiOf(text, st1, order1), e)
    ensures Wanted(ApiOf(text, st, order), e)
    ensures UpToDate(ApiOf(text, st, order), pairs, files, e) == UpToDate(ApiOf(text, st1, order1), pairs, files, e)
    ensures UpToDate(ApiOf(text, st, order), pairs, files, e) ==>
              AtRest(ApiOf(text, st, order), pairs, files, e) == AtRest(ApiOf(text, st1, order1), pairs, files, e)
  {
    FoundByOwnName(text, st, order, e);
    FoundByOwnName(text, st1, order1, e);
  }

  lemma {:induction false} KnownNamesNeverFail(api: Api, pairs: (string, string) -> bool, files: Files, n: nat)
    requires n <= |api.domains|
    requires forall d :: d in api.domains ==> d in CertMap(api.certs) && d in api.keys
    ensures Loop(api, pairs, files, _ => IO_OK, n).1.failed == 0
  {
    if n > 0 {
      KnownNamesNeverFail(api, pairs, files, n - 1);
      assert api.domains[n - 1] in api.domains;
    }
  }

  lemma ListedRecordsNeverFail(text: Pem -> string, st: Store, order: seq<string>, pairs: (string, string) -> bool, files: Files)
    requires OwnNames(st) && Enumerates(order, st) && forall d :: d in Names(st.managed) ==> d in st.records
    ensures var api := ApiOf(text, st, order); Loop(api, pairs, files, _ => IO_OK, |api.domains|).1.failed == 0
  {
    var api := ApiOf(text, st, order);
    forall e | e in api.domains ensures e in CertMap(api.certs) && e in api.keys {
      FoundByOwnName(text, st, order, e);
    }
    KnownNamesNeverFail(api, pairs, files, |api.domains|);
  }

  /** A domain is removed, softly or hard, when the disk is at rest and the Traefik file lists what is
      served.  The next fetch finds nothing to save and leaves the Traefik file as it is, with the
      removed domain in it. */
  lemma RemovedDomainStaysListed(text: Pem -> string, st: Store, order: seq<string>, d: string, deleteCert: bool, order1: seq<string>,
                                 pairs: (string, string) -> bool, files: Files)
    requires Renders(text) && NoEmptyKey(pairs) && Lifecycle.Coherent(Filesystem, st) && OwnNames(st) && Enumerates(order, st)
    requires Enumerates(order1, HandleRemove(st, d, deleteCert, DETACH_OK).0)
    requires d in Names(st.managed) && InUse(st.records[d]) && Resting(ApiOf(text, st, order), pairs, files)
    ensures var before, now := ApiOf(text, st, order), ApiOf(text, HandleRemove(st, d, deleteCert, DETACH_OK).0, order1);
            d !in now.domains && (CertFile(d), KeyFile(d)) in Entries(before) &&
            TraefikThen(now, pairs, files, Some(Entries(before))) == Some(Entries(before))
  {
    var st1 := HandleRemove(st, d, deleteCert, DETACH_OK).0;
    var before, now := ApiOf(text, st, order), ApiOf(text, st1, order1);
    RemovalKeepsRest(st, d, deleteCert);
    WantedExactly(text, st, order, d);
    EntryIsServed(before, d);
    forall e | e in Names(st1.managed) ensures e in st.records && Lifecycle.SameAt(st1, st, e) {
      assert e in Names(st.managed);
    }
    ListedRecordsNeverFail(text, st1, order1, pairs, files);
    RestSurvivesRemoval(text, st, order, st1, order1, pairs, files);
    TraefikExact(now, pairs, files, Some(Entries(before)));
  }

  lemma RestSurvivesRemoval(text: Pem -> string, st: Store, order: seq<string>, st1: Store, order1: seq<string>,
                            pairs: (string, string) -> bool, files: Files)
    requires OwnNames(st) && OwnNames(st1) && Enumerates(order, st) && Enumerates(order1, st1)
    requires forall e :: e in Names(st1.managed) ==> e in Names(st.managed) && e in st.records && Lifecycle.SameAt(st1, st, e)
    requires Resting(ApiOf(text, st, order), pairs, files)
    ensures Resting(ApiOf(text, st1, order1), pairs, files)
  {
    var before, now := ApiOf(text, st, order), ApiOf(text, st1, order1);
    forall i | 0 <= i < |now.domains| && Wanted(now, now.domains[i])
      ensures UpToDate(now, pairs, files, now.domains[i]) && AtRest(now, pairs, files, now.domains[i])
    {
      var e := now.domains[i];
      assert e in Names(st1.managed);
      SameRecordRests(text, st, order, st1, order1, e, pairs, files);
      var k :| 0 <= k < |before.domains| && before.domains[k] == e;
      assert UpToDate(before, pairs, files, before.domains[k]);
    }
  }
}
