/** Export and import of the whole keystore: the rest of `cmd/acme-store/httpserver.go`. */
module Backup {
  import opened Wrappers
  import opened Certificates
  import opened Keystore
  import opened FilesystemKeystores

  datatype CertExport = CertExport(
    chainPEM: Pem, leafPEM: Pem, chainURL: string, privateKeyPEM: string, issuerNames: seq<string>,
    issuedAt: Option<int>, expiresAt: Option<int>,
    cn: string, altNames: seq<string>, isManaged: bool, state: string, failure: string)

  datatype KeystoreExport = KeystoreExport(version: string, certificates: map<string, CertExport>, domains: seq<string>)

  const VERSION := "1.0"

  function ToExport(r: CertAndKey): CertExport {
    CertExport(r.chain, r.leaf, r.url, r.key, r.issuers, r.issuedOn, r.expiration,
               r.commonName, r.sans, r.managed, r.status, r.error)
  }

  function FromExport(c: CertExport): CertAndKey {
    CertAndKey(c.chainPEM, c.leafPEM, c.chainURL, c.privateKeyPEM, c.issuerNames, c.issuedAt, c.expiresAt,
               c.cn, c.altNames, c.isManaged, c.state, c.failure)
  }

  function Exported(st: Store, unreadable: set<string>): KeystoreExport {
    KeystoreExport(VERSION, map d | d in st.records.Keys - unreadable :: ToExport(st.records[d]), Names(st.managed))
  }

  function ExportedCerts(st: Store, domains: seq<string>, unreadable: set<string>): map<string, CertExport> {
    if domains == [] then map[]
    else
      var front, d := ExportedCerts(st, domains[..|domains| - 1], unreadable), domains[|domains| - 1];
      if d in unreadable then front else front[d := ToExport(Fetch(st, d))]
  }

  lemma {:induction false} ExportedCertsMembers(st: Store, domains: seq<string>, unreadable: set<string>)
    ensures forall d :: d in ExportedCerts(st, domains, unreadable) <==> d in domains && d !in unreadable
    ensures forall d :: d in ExportedCerts(st, domains, unreadable) ==> ExportedCerts(st, domains, unreadable)[d] == ToExport(Fetch(st, d))
  {
    if domains != [] {
      ExportedCertsMembers(st, domains[..|domains| - 1], unreadable);
      assert domains == domains[..|domains| - 1] + [domains[|domains| - 1]];
    }
  }

  lemma ExportedCertsAre(st: Store, domains: seq<string>, unreadable: set<string>)
    requires forall d :: d in domains <==> d in st.records
    ensures ExportedCerts(st, domains, unreadable) == Exported(st, unreadable).certificates
  {
    ExportedCertsMembers(st, domains, unreadable);
  }

  /** The code and, when it is 200, the data. */
  method ExportKeystore(ks: FilesystemKeystore?, accountFails: bool, dir: Directory, listFails: bool, unreadable: set<string>)
    returns (code: int, data: Option<KeystoreExport>)
    requires ks != null ==> !ks.locked && Shows(dir, ks.domainFiles)
    modifies ks
    ensures ks != null ==> !ks.locked && ks.Contents() == old(ks.Contents())
    ensures code == if ks == null then 503 else if accountFails || dir.Unlistable? || listFails then 500 else 200
    ensures if code == 200 then data == Some(Exported(ks.Contents(), unreadable)) else data == None
  {
    if ks == null { return 503, None; }
    if accountFails { return 500, None; }
    var domains := ks.GetAllDomains(dir);
    if domains.None? { return 500, None; }
    var managedDomains := ks.GetManagedDomains(listFails);
    if managedDomains.None? { return 500, None; }
    var certificates := ExportCerts(ks, domains.value, unreadable);
    return 200, Some(KeystoreExport(VERSION, certificates, managedDomains.value));
  }

  method ExportCerts(ks: FilesystemKeystore, domains: seq<string>, unreadable: set<string>) returns (certificates: map<string, CertExport>)
    requires !ks.locked && forall d :: d in domains <==> d in ks.Contents().records
    modifies ks`locked
    ensures !ks.locked
    ensures certificates == Exported(ks.Contents(), unreadable).certificates
  {
    ghost var st := ks.Contents();
    certificates := map[];
    for i := 0 to |domains|
      invariant !ks.locked && ks.Contents() == st
      invariant certificates == ExportedCerts(st, domains[..i], unreadable)
    {
      assert domains[..i + 1][..i] == domains[..i];
      var certAndKey := ks.GetCertAndKey(domains[i], domains[i] in unreadable);
      if certAndKey.None? { continue; }
      certificates := certificates[domains[i] := ToExport(certAndKey.value)];
    }
    assert domains[..|domains|] == domains;
    ExportedCertsAre(st, domains, unreadable);
  }

  /** The certificates that cannot be written, the positions in the list of domains at which the
      managed list cannot be read, and the file accesses of adding the i-th domain. */
  datatype ImportIo = ImportIo(unwritable: set<string>, unlistable: set<nat>, add: nat -> AddIo)
  const IMPORT_OK := ImportIo({}, {}, _ => ADD_OK)

  function Overlay(records: map<string, CertAndKey>, certs: map<string, CertExport>, written: set<string>): map<string, CertAndKey>
    requires written <= certs.Keys
  {
    records + (map d | d in written :: FromExport(certs[d]))
  }

  /** What one more certificate changes while those in `todo` are still to be written. */
  lemma OverlayOneMore(records: map<string, CertAndKey>, certs: map<string, CertExport>,
                       todo: set<string>, skip: set<string>, d: string)
    requires d in todo && todo <= certs.Keys
    ensures var before, after := Overlay(records, certs, certs.Keys - todo - skip),
                                 Overlay(records, certs, certs.Keys - (todo - {d}) - skip);
            after == if d in skip then before else before[d := FromExport(certs[d])]
  {
    if d in skip {
      assert certs.Keys - (todo - {d}) - skip == certs.Keys - todo - skip;
    }
  }

  /** How far the import has come: what is stored, and the two counts. */
  ghost predicate Progress(before: Store, now: Store, certs: map<string, CertExport>, todo: set<string>, skip: set<string>,
                           imported: nat, failed: nat)
  {
    todo <= certs.Keys &&
    now == before.(records := Overlay(before.records, certs, certs.Keys - todo - skip)) &&
    imported + failed + |todo| == |certs| && failed == |(certs.Keys - todo) * skip|
  }

  lemma ProgressStart(st: Store, certs: map<string, CertExport>, skip: set<string>)
    ensures Progress(st, st, certs, certs.Keys, skip, 0, 0)
  {
    assert certs.Keys - certs.Keys - skip == {} && (certs.Keys - certs.Keys) * skip == {};
  }

  lemma ProgressStep(before: Store, now: Store, certs: map<string, CertExport>, todo: set<string>, skip: set<string>,
                     imported: nat, failed: nat, d: string)
    requires Progress(before, now, certs, todo, skip, imported, failed) && d in todo
    ensures d in skip ==> Progress(before, now, certs, todo - {d}, skip, imported, failed + 1)
    ensures d !in skip ==> Progress(before, Put(now, d, FromExport(certs[d])), certs, todo - {d}, skip, imported + 1, failed)
  {
    OverlayOneMore(before.records, certs, todo, skip, d);
    SkippedOneMore(certs.Keys, todo, skip, d);
  }

  lemma ProgressEnd(before: Store, now: Store, certs: map<string, CertExport>, skip: set<string>, imported: nat, failed: nat)
    requires Progress(before, now, certs, {}, skip, imported, failed)
    ensures now == before.(records := Overlay(before.records, certs, certs.Keys - skip))
    ensures imported + failed == |certs| && failed == |certs.Keys * skip|
  {
    assert certs.Keys - {} == certs.Keys;
  }

  lemma SkippedOneMore(keys: set<string>, todo: set<string>, skip: set<string>, d: string)
    requires d in todo && todo <= keys
    ensures |todo - {d}| == |todo| - 1
    ensures |(keys - (todo - {d})) * skip| == |(keys - todo) * skip| + (if d in skip then 1 else 0)
  {
    var before, after := (keys - todo) * skip, (keys - (todo - {d})) * skip;
    assert after == if d in skip then before + {d} else before;
  }

  function SansFor(data: KeystoreExport, d: string): seq<string> {
    if d in data.certificates then data.certificates[d].altNames else []
  }

  function ImportDomain(b: Backend, st: Store, data: KeystoreExport, d: string, listFails: bool, io: AddIo): Store {
    if listFails || d in Names(st.managed) then st else Add(b, st, d, SansFor(data, d), io).0
  }

  function ImportDomains(b: Backend, st: Store, data: KeystoreExport, io: ImportIo, n: nat): Store
    requires n <= |data.domains|
  {
    if n == 0 then st
    else ImportDomain(b, ImportDomains(b, st, data, io, n - 1), data, data.domains[n - 1], n - 1 in io.unlistable, io.add(n - 1))
  }

  function Overlaid(st: Store, data: KeystoreExport, io: ImportIo): Store {
    st.(records := Overlay(st.records, data.certificates, data.certificates.Keys - io.unwritable))
  }

  function HandleImport(b: Backend, st: Store, data: KeystoreExport, io: ImportIo): (Store, int) {
    if data.version != VERSION then (st, 400)
    else (ImportDomains(b, Overlaid(st, data, io), data, io, |data.domains|), 200)
  }

  datatype Statistics = Statistics(certsImported: nat, certsFailed: nat, domainsImported: nat, domainsFailed: nat)

  /** The certificates are visited in whatever order the map yields them; the result does not
      depend on it. */
  method ImportCerts(ks: FilesystemKeystore, certs: map<string, CertExport>, unwritable: set<string>)
    returns (imported: nat, failed: nat)
    requires !ks.locked
    modifies ks`domainFiles, ks`locked
    ensures !ks.locked
    ensures ks.Contents() == old(ks.Contents()).(records := Overlay(old(ks.Contents()).records, certs, certs.Keys - unwritable))
    ensures imported + failed == |certs|
    ensures failed == |certs.Keys * unwritable|
  {
    imported, failed := 0, 0;
    ghost var before := ks.Contents();
    ProgressStart(before, certs, unwritable);
    var todo := certs.Keys;
    while todo != {}
      invariant !ks.locked
      invariant Progress(before, ks.Contents(), certs, todo, unwritable, imported, failed)
      decreases todo
    {
      var domain :| domain in todo;
      ProgressStep(before, ks.Contents(), certs, todo, unwritable, imported, failed, domain);
      var ok := ks.StoreCertAndKey(domain, FromExport(certs[domain]), domain in unwritable);
      if ok { imported := imported + 1; } else { failed := failed + 1; }
      todo := todo - {domain};
    }
    ProgressEnd(before, ks.Contents(), certs, unwritable, imported, failed);
  }

  /** None for a name that is listed already, else whether it is added. */
  function ImportOutcome(b: Backend, st: Store, data: KeystoreExport, d: string, listFails: bool, io: AddIo): Option<bool> {
    if listFails then Some(false)
    else if d in Names(st.managed) then None
    else Some(Add(b, st, d, SansFor(data, d), io).1.None?)
  }

  /** What the i-th domain of an import comes to. */
  function OutcomeAt(b: Backend, st: Store, data: KeystoreExport, io: ImportIo, i: nat): Option<bool> {
    if i < |data.domains| then
      ImportOutcome(b, ImportDomains(b, st, data, io, i), data, data.domains[i], i in io.unlistable, io.add(i))
    else None
  }

  /** How many of the first `n` values of `f` are `outcome`. */
  function CountOf(f: nat -> Option<bool>, n: nat, outcome: Option<bool>): nat {
    if n == 0 then 0 else CountOf(f, n - 1, outcome) + (if f(n - 1) == outcome then 1 else 0)
  }

  /** How many of the first `n` domains come to `outcome`. */
  function Outcomes(b: Backend, st: Store, data: KeystoreExport, io: ImportIo, n: nat, outcome: Option<bool>): nat {
    CountOf((i: nat) => OutcomeAt(b, st, data, io, i), n, outcome)
  }

  lemma OutcomesMore(b: Backend, st: Store, data: KeystoreExport, io: ImportIo, n: nat, outcome: Option<bool>)
    ensures Outcomes(b, st, data, io, 0, outcome) == 0
    ensures Outcomes(b, st, data, io, n + 1, outcome) ==
            Outcomes(b, st, data, io, n, outcome) + if OutcomeAt(b, st, data, io, n) == outcome then 1 else 0
  {
  }

  function Statistic(b: Backend, st: Store, data: KeystoreExport, io: ImportIo): Statistics {
    var overlaid, n := Overlaid(st, data, io), |data.domains|;
    Statistics(|data.certificates.Keys - io.unwritable|, |data.certificates.Keys * io.unwritable|,
               Outcomes(b, overlaid, data, io, n, Some(true)), Outcomes(b, overlaid, data, io, n, Some(false)))
  }

  lemma {:induction false} CountsAddUp(f: nat -> Option<bool>, n: nat)
    ensures CountOf(f, n, Some(true)) + CountOf(f, n, Some(false)) + CountOf(f, n, None) == n
  {
    if n > 0 {
      CountsAddUp(f, n - 1);
      var o := f(n - 1);
      assert o == Some(true) || o == Some(false) || o == None by { if o.Some? { assert o.value || !o.value; } }
    }
  }

  lemma OneDomainGrows(b: Backend, st: Store, data: KeystoreExport, d: string, listFails: bool, io: AddIo, after: Store, outcome: Option<bool>)
    requires after == ImportDomain(b, st, data, d, listFails, io) && outcome == ImportOutcome(b, st, data, d, listFails, io)
    requires b.Vault? ==> !io.load
    ensures |after.managed| == |st.managed| + (if outcome == Some(true) then 1 else 0)
  {
  }

  /** Whether every addition over Vault can read the list. */
  ghost predicate ListsRead(b: Backend, io: ImportIo, n: nat) {
    b.Vault? ==> forall i: nat :: i < n ==> !io.add(i).load
  }

  lemma {:induction false} ListGrows(b: Backend, st: Store, data: KeystoreExport, io: ImportIo, n: nat)
    requires n <= |data.domains| && ListsRead(b, io, n)
    ensures |ImportDomains(b, st, data, io, n).managed| == |st.managed| + Outcomes(b, st, data, io, n, Some(true))
  {
    if n == 0 {
      OutcomesMore(b, st, data, io, 0, Some(true));
    } else {
      ListGrows(b, st, data, io, n - 1);
      NextDomainGrows(b, st, data, io, n - 1);
    }
  }

  lemma NextDomainGrows(b: Backend, st: Store, data: KeystoreExport, io: ImportIo, n: nat)
    requires n < |data.domains| && (b.Vault? ==> !io.add(n).load)
    requires |ImportDomains(b, st, data, io, n).managed| == |st.managed| + Outcomes(b, st, data, io, n, Some(true))
    ensures |ImportDomains(b, st, data, io, n + 1).managed| == |st.managed| + Outcomes(b, st, data, io, n + 1, Some(true))
  {
    OutcomesMore(b, st, data, io, n, Some(true));
    OneDomainGrows(b, ImportDomains(b, st, data, io, n), data, data.domains[n], n in io.unlistable, io.add(n),
                   ImportDomains(b, st, data, io, n + 1), OutcomeAt(b, st, data, io, n));
  }

  /** The certificates imported and failed make up all of them, the domains imported are the growth
      of the list, except over Vault when an addition cannot read the list, and the remaining ones
      failed or were listed already. */
  lemma StatisticsAddUp(b: Backend, st: Store, data: KeystoreExport, io: ImportIo)
    requires data.version == VERSION
    ensures var stats, after := Statistic(b, st, data, io), HandleImport(b, st, data, io).0;
            stats.certsImported + stats.certsFailed == |data.certificates| &&
            (ListsRead(b, io, |data.domains|) ==> stats.domainsImported == |after.managed| - |st.managed|) &&
            stats.domainsImported + stats.domainsFailed + Outcomes(b, Overlaid(st, data, io), data, io, |data.domains|, None) == |data.domains|
  {
    CountsAddUp((i: nat) => OutcomeAt(b, Overlaid(st, data, io), data, io, i), |data.domains|);
    if ListsRead(b, io, |data.domains|) { ListGrows(b, Overlaid(st, data, io), data, io, |data.domains|); }
    SplitKeys(data.certificates, io.unwritable);
  }

  lemma SplitKeys(certs: map<string, CertExport>, unwritable: set<string>)
    ensures |certs.Keys - unwritable| + |certs.Keys * unwritable| == |certs|
  {
    assert certs.Keys == (certs.Keys - unwritable) + certs.Keys * unwritable;
    assert |certs.Keys| == |certs|;
  }

  method ImportOneDomain(ks: FilesystemKeystore, data: KeystoreExport, domain: string, listFails: bool, io: AddIo) returns (added: Option<bool>)
    requires !ks.locked
    modifies ks
    ensures !ks.locked
    ensures ks.Contents() == ImportDomain(Filesystem, old(ks.Contents()), data, domain, listFails, io)
    ensures added == ImportOutcome(Filesystem, old(ks.Contents()), data, domain, listFails, io)
  {
    var isManaged := ks.IsManagedDomain(domain, listFails);
    if isManaged.None? { return Some(false); }
    if isManaged.value { return None; }
    var sans := if domain in data.certificates then data.certificates[domain].altNames else [];
    var err := ks.AddManagedDomainWithSANs(domain, sans, io);
    return Some(err.None?);
  }

  /** The second loop of the import. */
  method ImportListed(ks: FilesystemKeystore, data: KeystoreExport, io: ImportIo, ghost st: Store) returns (added: nat, failed: nat)
    requires !ks.locked && ks.Contents() == st
    modifies ks
    ensures !ks.locked
    ensures ks.Contents() == ImportDomains(Filesystem, st, data, io, |data.domains|)
    ensures added == Outcomes(Filesystem, st, data, io, |data.domains|, Some(true))
    ensures failed == Outcomes(Filesystem, st, data, io, |data.domains|, Some(false))
  {
    added, failed := 0, 0;
    OutcomesMore(Filesystem, st, data, io, 0, Some(true));
    OutcomesMore(Filesystem, st, data, io, 0, Some(false));
    for i := 0 to |data.domains|
      invariant !ks.locked
      invariant ks.Contents() == ImportDomains(Filesystem, st, data, io, i)
      invariant added == Outcomes(Filesystem, st, data, io, i, Some(true))
      invariant failed == Outcomes(Filesystem, st, data, io, i, Some(false))
    {
      OutcomesMore(Filesystem, st, data, io, i, Some(true));
      OutcomesMore(Filesystem, st, data, io, i, Some(false));
      var outcome := ImportOneDomain(ks, data, data.domains[i], i in io.unlistable, io.add(i));
      assert outcome == OutcomeAt(Filesystem, st, data, io, i);
      if outcome == Some(false) { failed := failed + 1; }
      if outcome == Some(true) { added := added + 1; }
    }
  }

  method ImportKeystore(ks: FilesystemKeystore?, body: Option<KeystoreExport>, io: ImportIo) returns (code: int, stats: Statistics)
    requires ks != null ==> !ks.locked
    modifies ks
    ensures ks == null ==> code == 503
    ensures ks != null ==> !ks.locked
    ensures ks != null && body.None? ==> (ks.Contents(), code) == (old(ks.Contents()), 400)
    ensures ks != null && body.Some? ==> (ks.Contents(), code) == HandleImport(Filesystem, old(ks.Contents()), body.value, io)
    ensures code == 200 ==> ks != null && body.Some? && stats == Statistic(Filesystem, old(ks.Contents()), body.value, io)
  {
    stats := Statistics(0, 0, 0, 0);
    if ks == null { return 503, stats; }
    if body.None? { return 400, stats; }
    var data := body.value;
    if data.version != VERSION { return 400, stats; }
    ghost var st := ks.Contents();
    var imported, failed := ImportCerts(ks, data.certificates, io.unwritable);
    var added, notAdded := ImportListed(ks, data, io, Overlaid(st, data, io));
    SplitKeys(data.certificates, io.unwritable);
    return 200, Statistics(imported, failed, added, notAdded);
  }

  /******* In plain terms *******/

  /** Export takes the twelve fields of a record over one by one... */
  lemma ExportedFields(r: CertAndKey)
    ensures var c := ToExport(r);
            c.chainPEM == r.chain && c.leafPEM == r.leaf && c.chainURL == r.url && c.privateKeyPEM == r.key && c.issuerNames == r.issuers &&
            c.issuedAt == r.issuedOn && c.expiresAt == r.expiration && c.cn == r.commonName && c.altNames == r.sans &&
            c.isManaged == r.managed && c.state == r.status && c.failure == r.error
  {
  }

  /** ...of every record that can be read, with the names of the list in order. */
  lemma ExportedExactly(st: Store, unreadable: set<string>)
    ensures var data := Exported(st, unreadable);
            data.version == "1.0" && |data.domains| == |st.managed| &&
            (forall i :: 0 <= i < |st.managed| ==> data.domains[i] == st.managed[i].domain) &&
            (forall d :: d in data.certificates <==> d in st.records && d !in unreadable) &&
            (forall d :: d in data.certificates ==> data.certificates[d] == ToExport(st.records[d]))
  {
  }

  /** Only version 1.0 is imported. */
  lemma OtherVersionsAreRefused(b: Backend, st: Store, data: KeystoreExport, io: ImportIo)
    ensures HandleImport(b, st, data, io).1 == if data.version == "1.0" then 200 else 400
    ensures data.version != "1.0" ==> HandleImport(b, st, data, io).0 == st
  {
  }

  /** After the certificates are imported, each one that could be written is the record of its domain,
      field by field, and every other record is as it was. */
  lemma OverlaidExactly(st: Store, data: KeystoreExport, io: ImportIo, d: string)
    ensures var after := Overlaid(st, data, io);
            after.managed == st.managed &&
            if d in data.certificates && d !in io.unwritable then
              d in after.records &&
              var r, c := after.records[d], data.certificates[d];
              r.chain == c.chainPEM && r.leaf == c.leafPEM && r.url == c.chainURL && r.key == c.privateKeyPEM && r.issuers == c.issuerNames &&
              r.issuedOn == c.issuedAt && r.expiration == c.expiresAt && r.commonName == c.cn && r.sans == c.altNames &&
              r.managed == c.isManaged && r.status == c.state && r.error == c.failure
            else (d in after.records <==> d in st.records) && (d in st.records ==> after.records[d] == st.records[d])
  {
  }

  /** A listed domain is left alone and counts as neither imported nor failed; any other is added with the
      names its certificate carries in the import, and counts as imported if that succeeds. */
  lemma ImportedDomainExactly(st: Store, data: KeystoreExport, d: string, listFails: bool, io: AddIo)
    ensures var after, outcome := ImportDomain(Filesystem, st, data, d, listFails, io), ImportOutcome(Filesystem, st, data, d, listFails, io);
            var listed := exists m :: m in st.managed && m.domain == d;
            outcome == (if listFails then Some(false) else if listed then None else Some(!io.load && !io.list)) &&
            if outcome == Some(true) then
              AddedTo(st.managed, st, after, d, if d in data.certificates then data.certificates[d].altNames else [], io)
            else after == st
  {
    NamesMember(st.managed, d);
    AddFilesystemExactly(st, d, SansFor(data, d), io);
  }

  /** The certificates counted as imported are those that could be written, and those counted as failed
      the others; the same for the domains, position by position. */
  lemma StatisticExactly(b: Backend, st: Store, data: KeystoreExport, io: ImportIo)
    ensures var stats, overlaid := Statistic(b, st, data, io), Overlaid(st, data, io);
            stats.certsImported == |set d | d in data.certificates && d !in io.unwritable| &&
            stats.certsFailed == |set d | d in data.certificates && d in io.unwritable| &&
            stats.domainsImported == |Positions(b, overlaid, data, io, |data.domains|, Some(true))| &&
            stats.domainsFailed == |Positions(b, overlaid, data, io, |data.domains|, Some(false))|
  {
    assert (set d | d in data.certificates && d !in io.unwritable) == data.certificates.Keys - io.unwritable;
    assert (set d | d in data.certificates && d in io.unwritable) == data.certificates.Keys * io.unwritable;
    OutcomesArePositions(b, Overlaid(st, data, io), data, io, |data.domains|, Some(true));
    OutcomesArePositions(b, Overlaid(st, data, io), data, io, |data.domains|, Some(false));
  }

  lemma OutcomesArePositions(b: Backend, st: Store, data: KeystoreExport, io: ImportIo, n: nat, outcome: Option<bool>)
    ensures Outcomes(b, st, data, io, n, outcome) == |Positions(b, st, data, io, n, outcome)|
  {
    var f := (i: nat) => OutcomeAt(b, st, data, io, i);
    CountOfPositions(f, n, outcome);
    assert (set i: nat | i < n && f(i) == outcome) == Positions(b, st, data, io, n, outcome);
  }

  /** The positions in the list of domains, among the first `n`, that come to `outcome`. */
  function Positions(b: Backend, st: Store, data: KeystoreExport, io: ImportIo, n: nat, outcome: Option<bool>): set<nat> {
    set i: nat | i < n && OutcomeAt(b, st, data, io, i) == outcome
  }

  lemma {:induction false} CountOfPositions(f: nat -> Option<bool>, n: nat, outcome: Option<bool>)
    ensures CountOf(f, n, outcome) == |set i: nat | i < n && f(i) == outcome|
  {
    if n > 0 {
      CountOfPositions(f, n - 1, outcome);
      OnePositionMore(f, n - 1, outcome, set i: nat | i < n - 1 && f(i) == outcome, set i: nat | i < n && f(i) == outcome);
    }
  }

  lemma OnePositionMore(f: nat -> Option<bool>, n: nat, outcome: Option<bool>, before: set<nat>, after: set<nat>)
    requires forall i: nat :: i in before <==> i < n && f(i) == outcome
    requires forall i: nat :: i in after <==> i < n + 1 && f(i) == outcome
    ensures |after| == |before| + (if f(n) == outcome then 1 else 0)
  {
    assert after == if f(n) == outcome then before + {n} else before;
  }

  /** With no failed access everything new is imported and nothing fails. */
  lemma SmoothImportNeverFails(b: Backend, st: Store, data: KeystoreExport)
    ensures var stats := Statistic(b, st, data, IMPORT_OK);
            stats.certsImported == |data.certificates| && stats.certsFailed == 0 && stats.domainsFailed == 0
  {
    assert data.certificates.Keys - {} == data.certificates.Keys && data.certificates.Keys * {} == {};
    NoneFails(b, Overlaid(st, data, IMPORT_OK), data, |data.domains|);
  }

  lemma {:induction false} NoneFails(b: Backend, st: Store, data: KeystoreExport, n: nat)
    requires n <= |data.domains|
    ensures Outcomes(b, st, data, IMPORT_OK, n, Some(false)) == 0
  {
    if n > 0 { NoneFails(b, st, data, n - 1); }
  }
}
