/** The filesystem keystore behaves as the memory keystore does, over whole runs.  The two differ by
    placeholders only the filesystem creates. */
module Refinement {
  import opened Wrappers
  import opened Keystore
  import opened Handlers
  import opened Backup
  import opened Renewal
  import opened Operations
  import opened Lifecycle

  /** A record nothing was issued for, standing for a domain the memory keystore has no record of. */
  ghost predicate OnlyPlaceholder(r: CertAndKey, d: string, listed: bool) {
    Keyless(r) && r.commonName == d && d != "" && r.managed == listed
  }

  ghost predicate AgreeAt(fs: Store, mem: Store, d: string) {
    if d in mem.records then d in fs.records && fs.records[d] == mem.records[d] && mem.records[d].commonName != ""
    else d in fs.records ==> OnlyPlaceholder(fs.records[d], d, d in Names(fs.managed))
  }

  ghost predicate Agree(fs: Store, mem: Store) {
    Names(fs.managed) == Names(mem.managed) && forall d :: AgreeAt(fs, mem, d)
  }

  /** What callers observe of stored certificates is the same. */
  lemma AgreeOnLeaves(fs: Store, mem: Store, d: string)
    requires Agree(fs, mem)
    ensures Fetch(fs, d).leaf == Fetch(mem, d).leaf && Fetch(fs, d).key == Fetch(mem, d).key
  {
    assert AgreeAt(fs, mem, d);
  }

  lemma AddAgrees(fs: Store, mem: Store, d: string, sans: seq<string>)
    requires Agree(fs, mem) && d != ""
    ensures Agree(Add(Filesystem, fs, d, sans, ADD_OK).0, Add(Memory, mem, d, sans, ADD_OK).0)
    ensures Add(Filesystem, fs, d, sans, ADD_OK).1 == Add(Memory, mem, d, sans, ADD_OK).1
  {
    if d !in Names(fs.managed) {
      var fs1, mem1 := Add(Filesystem, fs, d, sans, ADD_OK).0, Add(Memory, mem, d, sans, ADD_OK).0;
      NamesAppend(fs.managed, ManagedDomain(d, sans));
      NamesAppend(mem.managed, ManagedDomain(d, []));
      forall e ensures AgreeAt(fs1, mem1, e) {
        assert AgreeAt(fs, mem, e);
      }
    }
  }

  lemma RemoveAgrees(fs: Store, mem: Store, d: string, deleteCert: bool)
    requires Agree(fs, mem)
    ensures Agree(HandleRemove(fs, d, deleteCert, DETACH_OK).0, HandleRemove(mem, d, deleteCert, DETACH_OK).0)
    ensures HandleRemove(fs, d, deleteCert, DETACH_OK).1 == HandleRemove(mem, d, deleteCert, DETACH_OK).1
  {
    var fs1, mem1 := HandleRemove(fs, d, deleteCert, DETACH_OK).0, HandleRemove(mem, d, deleteCert, DETACH_OK).0;
    RemovedNamesAgree(fs, mem, d);
    forall e ensures AgreeAt(fs1, mem1, e) {
      assert AgreeAt(fs, mem, e);
      RemovedAgreeAt(fs, mem, d, deleteCert, e);
    }
  }

  lemma RemovedNamesAgree(fs: Store, mem: Store, d: string)
    requires Names(fs.managed) == Names(mem.managed)
    ensures Names(Without(fs.managed, d)) == Names(Without(mem.managed, d))
  {
    NamesWithout(fs.managed, d);
    NamesWithout(mem.managed, d);
  }

  lemma RemovedAgreeAt(fs: Store, mem: Store, d: string, deleteCert: bool, e: string)
    requires Names(fs.managed) == Names(mem.managed) && AgreeAt(fs, mem, e)
    ensures AgreeAt(HandleRemove(fs, d, deleteCert, DETACH_OK).0, HandleRemove(mem, d, deleteCert, DETACH_OK).0, e)
  {
    if e == d {
      RemovalSettles(fs, d, deleteCert);
      RemovalSettles(mem, d, deleteCert);
    } else {
      RemovalLeavesOthers(fs, d, deleteCert, e);
      RemovalLeavesOthers(mem, d, deleteCert, e);
    }
  }

  lemma RemovalLeavesOthers(st: Store, d: string, deleteCert: bool, e: string)
    requires e != d
    ensures var after := HandleRemove(st, d, deleteCert, DETACH_OK).0;
            SameAt(after, st, e) && (e in Names(after.managed) <==> e in Names(st.managed))
  {
    WithoutMembers(st.managed, d);
  }

  lemma RemovalSettles(st: Store, d: string, deleteCert: bool)
    ensures var after := HandleRemove(st, d, deleteCert, DETACH_OK).0;
            if d == "" || (!deleteCert && d !in Names(st.managed)) then after == st
            else d !in Names(after.managed) &&
                 if deleteCert then d !in after.records
                 else if d in st.records && st.records[d].commonName != "" then
                   d in after.records && after.records[d] == st.records[d].(managed := false)
                 else SameAt(after, st, d)
  {
    WithoutMembers(st.managed, d);
  }

  /** Deleting the certificate of a managed placeholder is refused on the filesystem, while the
      memory keystore, which has no record, reports success.  Nothing changes in either case. */
  ghost predicate PlaceholderOnlyHere(fs: Store, mem: Store, d: string) {
    d in fs.records && fs.records[d].managed && d !in mem.records
  }

  lemma DeleteAgrees(fs: Store, mem: Store, d: string)
    requires Agree(fs, mem)
    ensures Agree(HandleDeleteCert(fs, d, false, false).0, HandleDeleteCert(mem, d, false, false).0)
    ensures HandleDeleteCert(fs, d, false, false).1 == HandleDeleteCert(mem, d, false, false).1
            <==> !PlaceholderOnlyHere(fs, mem, d) || d == ""
  {
    var fs1, mem1 := HandleDeleteCert(fs, d, false, false).0, HandleDeleteCert(mem, d, false, false).0;
    assert AgreeAt(fs, mem, d);
    forall e ensures AgreeAt(fs1, mem1, e) {
      assert AgreeAt(fs, mem, e);
    }
  }

  lemma VisitAgrees(fs: Store, mem: Store, d: string, at: Attempt)
    requires Agree(fs, mem) && Reliable(at) && d in Names(fs.managed)
    ensures Agree(Visit(fs, d, at), Visit(mem, d, at))
  {
    VisitKeepsList(fs, d, at);
    VisitKeepsList(mem, d, at);
    VisitOutcome(fs, d, at);
    VisitOutcome(mem, d, at);
    assert AgreeAt(fs, mem, d);
    if d in mem.records {
      VisitIsLocal(fs, mem, d, at);
    } else {
      assert Keyless(Fetch(fs, d)) ==> Keyless(Payload(Fetch(fs, d)));
    }
    forall e ensures AgreeAt(Visit(fs, d, at), Visit(mem, d, at), e) {
      assert AgreeAt(fs, mem, e);
      if e != d {
        VisitLeavesOthers(fs, d, at, e);
        VisitLeavesOthers(mem, d, at, e);
      }
    }
  }

  /** What corresponding visits keep between two stores, the passes keep. */
  lemma {:induction false} PassesKeep(rel: (Store, Store) -> bool, fs: Store, mem: Store, domains: seq<string>, attempts: nat -> Attempt, n: nat)
    requires rel(fs, mem) && n <= |domains|
    requires forall s: Store, m: Store, i: nat :: i < n && rel(s, m) ==> rel(Visit(s, domains[i], attempts(i)), Visit(m, domains[i], attempts(i)))
    ensures rel(Pass(fs, domains, attempts, n), Pass(mem, domains, attempts, n))
  {
    if n > 0 { PassesKeep(rel, fs, mem, domains, attempts, n - 1); }
  }

  lemma PassAgrees(fs: Store, mem: Store, domains: seq<string>, attempts: nat -> Attempt, n: nat)
    requires Agree(fs, mem) && domains == Names(fs.managed) && n <= |domains|
    requires forall i: nat :: Reliable(attempts(i))
    ensures Agree(Pass(fs, domains, attempts, n), Pass(mem, domains, attempts, n))
  {
    var rel := (s: Store, m: Store) => Agree(s, m) && s.managed == fs.managed;
    forall s: Store, m: Store, i: nat | i < n && rel(s, m) ensures rel(Visit(s, domains[i], attempts(i)), Visit(m, domains[i], attempts(i))) {
      assert Reliable(attempts(i));
      VisitKeepsList(s, domains[i], attempts(i));
      VisitAgrees(s, m, domains[i], attempts(i));
    }
    PassesKeep(rel, fs, mem, domains, attempts, n);
  }

  /** Imported records and names that are not empty. */
  ghost predicate NamedData(data: KeystoreExport) {
    (forall d :: d in data.certificates ==> data.certificates[d].cn != "") && "" !in data.domains
  }

  lemma OverlayAgrees(fs: Store, mem: Store, data: KeystoreExport)
    requires Agree(fs, mem) && NamedData(data)
    ensures Agree(Overlaid(fs, data, IMPORT_OK), Overlaid(mem, data, IMPORT_OK))
  {
    forall e ensures AgreeAt(Overlaid(fs, data, IMPORT_OK), Overlaid(mem, data, IMPORT_OK), e) {
      assert AgreeAt(fs, mem, e);
    }
  }

  lemma {:induction false} ImportDomainsAgree(fs: Store, mem: Store, data: KeystoreExport, n: nat)
    requires Agree(fs, mem) && NamedData(data) && n <= |data.domains|
    ensures Agree(ImportDomains(Filesystem, fs, data, IMPORT_OK, n), ImportDomains(Memory, mem, data, IMPORT_OK, n))
  {
    if n > 0 {
      ImportDomainsAgree(fs, mem, data, n - 1);
      var d := data.domains[n - 1];
      var fs1, mem1 := ImportDomains(Filesystem, fs, data, IMPORT_OK, n - 1), ImportDomains(Memory, mem, data, IMPORT_OK, n - 1);
      AddAgrees(fs1, mem1, d, SansFor(data, d));
    }
  }

  lemma {:induction false} OutcomesAgree(fs: Store, mem: Store, data: KeystoreExport, n: nat, outcome: Option<bool>)
    requires Agree(fs, mem) && NamedData(data) && n <= |data.domains|
    ensures Outcomes(Filesystem, fs, data, IMPORT_OK, n, outcome) == Outcomes(Memory, mem, data, IMPORT_OK, n, outcome)
  {
    if n > 0 {
      OutcomesAgree(fs, mem, data, n - 1, outcome);
      ImportDomainsAgree(fs, mem, data, n - 1);
      var d := data.domains[n - 1];
      OutcomeAgrees(ImportDomains(Filesystem, fs, data, IMPORT_OK, n - 1), ImportDomains(Memory, mem, data, IMPORT_OK, n - 1), data, d);
    }
  }

  lemma OutcomeAgrees(fs: Store, mem: Store, data: KeystoreExport, d: string)
    requires Agree(fs, mem) && d != ""
    ensures ImportOutcome(Filesystem, fs, data, d, false, ADD_OK) == ImportOutcome(Memory, mem, data, d, false, ADD_OK)
  {
    AddAgrees(fs, mem, d, SansFor(data, d));
  }

  lemma StatisticAgrees(fs: Store, mem: Store, data: KeystoreExport)
    requires Agree(fs, mem) && NamedData(data)
    ensures Statistic(Filesystem, fs, data, IMPORT_OK) == Statistic(Memory, mem, data, IMPORT_OK)
  {
    OverlayAgrees(fs, mem, data);
    OutcomesAgree(Overlaid(fs, data, IMPORT_OK), Overlaid(mem, data, IMPORT_OK), data, |data.domains|, Some(true));
    OutcomesAgree(Overlaid(fs, data, IMPORT_OK), Overlaid(mem, data, IMPORT_OK), data, |data.domains|, Some(false));
  }

  /******* Handlers that only read *******/

  /** The filesystem holds a placeholder where the memory keystore has nothing. */
  predicate OnlyOnDisk(fs: Store, mem: Store, d: string) {
    d in fs.records && d !in mem.records
  }

  /** The private key of a domain is answered alike unless it is such a placeholder's: the filesystem
      then answers 200 with an empty key, and the memory keystore 404. */
  lemma PrivateKeysAgree(fs: Store, mem: Store, d: string)
    requires Agree(fs, mem)
    ensures ServePrivateKey(fs, d, false) == ServePrivateKey(mem, d, false) <==> !OnlyOnDisk(fs, mem, d)
    ensures OnlyOnDisk(fs, mem, d) ==> ServePrivateKey(fs, d, false) == (200, "") && ServePrivateKey(mem, d, false) == (404, "")
  {
    assert AgreeAt(fs, mem, d);
  }

  /** The certificates shown and exported for a domain are the same, except that such placeholders,
      without chain, leaf and key, are shown and exported on the filesystem only. */
  lemma ShownAgree(fs: Store, mem: Store, d: string)
    requires Agree(fs, mem)
    ensures d in ShownCerts(mem) ==> d in ShownCerts(fs) && ShownCerts(fs)[d] == ShownCerts(mem)[d]
    ensures d in ShownCerts(fs) && d !in ShownCerts(mem) <==> OnlyOnDisk(fs, mem, d)
    ensures OnlyOnDisk(fs, mem, d) ==> ShownCerts(fs)[d].leaf == [] && ShownCerts(fs)[d].chain == []
    ensures var onDisk, inMemory := Exported(fs, {}), Exported(mem, {});
            onDisk.domains == inMemory.domains &&
            (d in inMemory.certificates ==> d in onDisk.certificates && onDisk.certificates[d] == inMemory.certificates[d]) &&
            (d in onDisk.certificates && d !in inMemory.certificates <==> OnlyOnDisk(fs, mem, d)) &&
            (OnlyOnDisk(fs, mem, d) ==> onDisk.certificates[d].privateKeyPEM == "")
  {
    assert AgreeAt(fs, mem, d);
  }

  ghost predicate Faithful(op: Op) {
    Smooth(op) && ReliableWorker(op) && (op.ImportKeystore? ==> NamedData(op.data))
  }

  /** The same code and, for an import, the same statistics. */
  ghost predicate SameAnswer(fs: Store, mem: Store, op: Op) {
    Apply(Filesystem, fs, op).1 == Apply(Memory, mem, op).1 &&
    (op.ImportKeystore? ==> Statistic(Filesystem, fs, op.data, IMPORT_OK) == Statistic(Memory, mem, op.data, IMPORT_OK))
  }

  /** One operation: the stores keep agreeing, and the answers are the same unless it is the
      deletion of a certificate that is only a managed placeholder. */
  lemma ApplyAgrees(fs: Store, mem: Store, op: Op)
    requires Agree(fs, mem) && Faithful(op)
    ensures Agree(Apply(Filesystem, fs, op).0, Apply(Memory, mem, op).0)
    ensures SameAnswer(fs, mem, op) <==> !(op.DeleteCert? && op.d != "" && PlaceholderOnlyHere(fs, mem, op.d))
  {
    match op
    case AddDomain(d, sans, _) => if d != "" { AddAgrees(fs, mem, d, sans); }
    case RemoveDomain(d, deleteCert, _) => RemoveAgrees(fs, mem, d, deleteCert);
    case DeleteCert(d, _, _) => DeleteAgrees(fs, mem, d);
    case ImportKeystore(data, _) =>
      StatisticAgrees(fs, mem, data);
      OverlayAgrees(fs, mem, data);
      ImportDomainsAgree(Overlaid(fs, data, IMPORT_OK), Overlaid(mem, data, IMPORT_OK), data, |data.domains|);
    case RunWorker(attempts) =>
      PassAgrees(fs, mem, Names(fs.managed), attempts, |fs.managed|);
      assert |fs.managed| == |Names(fs.managed)| == |mem.managed|;
  }

  /** From empty keystores, after any run: the same names in the same order, the same certificates
      and keys, and on the filesystem besides at most a placeholder for a domain the memory
      keystore knows no certificate of. */
  lemma {:induction false} FilesystemRefinesMemory(ops: seq<Op>)
    requires forall op :: op in ops ==> Faithful(op)
    ensures Agree(Run(Filesystem, EMPTY_STORE, ops), Run(Memory, EMPTY_STORE, ops))
  {
    if ops != [] {
      var front, op := ops[..|ops| - 1], ops[|ops| - 1];
      FilesystemRefinesMemory(front);
      ApplyAgrees(Run(Filesystem, EMPTY_STORE, front), Run(Memory, EMPTY_STORE, front), op);
    }
  }

  /** Along every run, each operation is answered alike, statistics included, except the deletion of
      a managed placeholder's certificate; and at every point of it the reading handlers answer
      alike, except about placeholders that only the filesystem holds. */
  lemma AnswersAgree(ops: seq<Op>, i: nat, d: string)
    requires i < |ops| && forall op :: op in ops ==> Faithful(op)
    ensures var fs, mem := Run(Filesystem, EMPTY_STORE, ops[..i]), Run(Memory, EMPTY_STORE, ops[..i]);
            (SameAnswer(fs, mem, ops[i]) <==> !(ops[i].DeleteCert? && ops[i].d != "" && PlaceholderOnlyHere(fs, mem, ops[i].d))) &&
            (ServePrivateKey(fs, d, false) == ServePrivateKey(mem, d, false) <==> !OnlyOnDisk(fs, mem, d)) &&
            (d in ShownCerts(mem) ==> d in ShownCerts(fs) && ShownCerts(fs)[d] == ShownCerts(mem)[d]) &&
            (d in ShownCerts(fs) && d !in ShownCerts(mem) <==> OnlyOnDisk(fs, mem, d))
  {
    var fs, mem := Run(Filesystem, EMPTY_STORE, ops[..i]), Run(Memory, EMPTY_STORE, ops[..i]);
    FilesystemRefinesMemory(ops[..i]);
    ApplyAgrees(fs, mem, ops[i]);
    PrivateKeysAgree(fs, mem, d);
    ShownAgree(fs, mem, d);
  }

  /** The exceptions occur: a domain is added, and its certificate deleted, or its key asked for. */
  lemma AnswersDiffer(d: string)
    requires d != ""
    ensures var fs, mem := Run(Filesystem, EMPTY_STORE, [AddDomain(d, [], ADD_OK)]), Run(Memory, EMPTY_STORE, [AddDomain(d, [], ADD_OK)]);
            Apply(Filesystem, fs, DeleteCert(d, false, false)).1 == 400 && Apply(Memory, mem, DeleteCert(d, false, false)).1 == 200 &&
            ServePrivateKey(fs, d, false) == (200, "") && ServePrivateKey(mem, d, false) == (404, "") &&
            d in ShownCerts(fs) && d !in ShownCerts(mem)
  {
    assert [AddDomain(d, [], ADD_OK)][..0] == [];
  }

  /** Why imported records have to have a name: adding the domain of a nameless one replaces it by a
      placeholder on the filesystem, and keeps it in memory. */
  lemma NamelessImportDiffers(d: string, c: CertExport)
    requires c.cn == ""
    ensures var data := KeystoreExport(VERSION, map[d := c], [d]);
            var fs, mem := HandleImport(Filesystem, EMPTY_STORE, data, IMPORT_OK).0, HandleImport(Memory, EMPTY_STORE, data, IMPORT_OK).0;
            d in fs.records && fs.records[d] == Placeholder(d, c.altNames) &&
            d in mem.records && mem.records[d] == FromExport(c).(managed := true)
  {
    var data := KeystoreExport(VERSION, map[d := c], [d]);
    NamelessAdded(Filesystem, data, d, c);
    NamelessAdded(Memory, data, d, c);
  }

  lemma NamelessAdded(b: Backend, data: KeystoreExport, d: string, c: CertExport)
    requires data == KeystoreExport(VERSION, map[d := c], [d])
    ensures HandleImport(b, EMPTY_STORE, data, IMPORT_OK).0 == Add(b, Store([], map[d := FromExport(c)]), d, c.altNames, ADD_OK).0
  {
    var st := Overlaid(EMPTY_STORE, data, IMPORT_OK);
    assert data.certificates.Keys - {} == {d};
    assert st == Store([], map[d := FromExport(c)]);
    assert ImportDomains(b, st, data, IMPORT_OK, 0) == st;
    assert ImportDomains(b, st, data, IMPORT_OK, 1) == ImportDomain(b, st, data, d, false, ADD_OK);
  }
}
