/** The HTTP handlers, with the status codes they answer: `cmd/acme-store/httpserver.go`. */
module Handlers {
  import opened Wrappers
  import opened Certificates
  import opened Keystore
  import opened FilesystemKeystores

  function HandleAdd(b: Backend, st: Store, d: string, sans: seq<string>, io: AddIo): (Store, int) {
    if d == "" then (st, 400)
    else
      var (added, err) := Add(b, st, d, sans, io);
      (added, if err.Some? then 400 else 201)
  }

  datatype DetachIo = DetachIo(remove: RemoveIo, read: bool, write: bool, drop: bool)
  const DETACH_OK := DetachIo(REMOVE_OK, false, false, false)

  function HandleRemove(st: Store, d: string, deleteCert: bool, io: DetachIo): (Store, int) {
    if d == "" then (st, 400)
    else
      var (removed, err) := Remove(st, d, io.remove);
      if deleteCert then
        if io.drop then (removed, if err.Some? then 404 else 500) else (Drop(removed, d), 200)
      else if err.Some? then (removed, 404)
      else (PutIf(removed, d, if io.write then None else Disown(Read(removed, d, io.read))), 200)
  }

  function HandleDeleteCert(st: Store, d: string, readFails: bool, dropFails: bool): (Store, int) {
    if d == "" then (st, 400)
    else if readFails then (st, 404)
    else if Fetch(st, d).managed then (st, 400)
    else if dropFails then (st, 500)
    else (Drop(st, d), 200)
  }

  datatype AddRequest = AddRequest(domain: string, sans: seq<string>)

  /** In every handler `ks` is null until the keystore is connected, and a body that cannot be
      parsed is None. */
  method AddDomain(ks: FilesystemKeystore?, body: Option<AddRequest>, io: AddIo) returns (code: int)
    requires ks != null ==> !ks.locked
    modifies ks
    ensures ks == null ==> code == 503
    ensures ks != null ==> !ks.locked
    ensures ks != null && body.None? ==> (ks.Contents(), code) == (old(ks.Contents()), 400)
    ensures ks != null && body.Some? ==>
              (ks.Contents(), code) == HandleAdd(Filesystem, old(ks.Contents()), body.value.domain, body.value.sans, io)
  {
    if ks == null { return 503; }
    if body.None? { return 400; }
    var req := body.value;
    if req.domain == "" { return 400; }
    var err := ks.AddManagedDomainWithSANs(req.domain, req.sans, io);
    return if err.Some? then 400 else 201;
  }

  method RemoveDomain(ks: FilesystemKeystore?, d: string, deleteCert: bool, io: DetachIo) returns (code: int)
    requires ks != null ==> !ks.locked
    modifies ks
    ensures ks == null ==> code == 503
    ensures ks != null ==> !ks.locked && (ks.Contents(), code) == HandleRemove(old(ks.Contents()), d, deleteCert, io)
  {
    if ks == null { return 503; }
    if d == "" { return 400; }
    var removeErr := ks.RemoveManagedDomain(d, io.remove);
    if deleteCert {
      var deleted := ks.DeleteCertAndKey(d, io.drop);
      if !deleted {
        return if removeErr.Some? then 404 else 500;
      }
      return 200;
    }
    if removeErr.Some? { return 404; }
    var certAndKey := ks.GetCertAndKey(d, io.read);
    if certAndKey.Some? && certAndKey.value.commonName != "" {
      var _ := ks.StoreCertAndKey(d, certAndKey.value.(managed := false), io.write);
    }
    return 200;
  }

  method DeleteCert(ks: FilesystemKeystore?, d: string, readFails: bool, dropFails: bool) returns (code: int)
    requires ks != null ==> !ks.locked
    modifies ks
    ensures ks == null ==> code == 503
    ensures ks != null ==> !ks.locked && (ks.Contents(), code) == HandleDeleteCert(old(ks.Contents()), d, readFails, dropFails)
  {
    if ks == null { return 503; }
    if d == "" { return 400; }
    var certAndKey := ks.GetCertAndKey(d, readFails);
    if certAndKey.None? { return 404; }
    if certAndKey.value.managed { return 400; }
    var deleted := ks.DeleteCertAndKey(d, dropFails);
    return if deleted then 200 else 500;
  }

  /** What the status codes tell when no file access fails: an addition succeeds exactly for a new
      name, a soft removal exactly for a listed one, a hard removal always, listed or not, and a
      deletion exactly when no record claims to be managed.  Success leaves the name listed last,
      unlisted, or without a record; anything else leaves the store alone. */
  lemma CodesTellOutcome(st: Store, d: string, sans: seq<string>, deleteCert: bool)
    requires d != ""
    ensures var (added, code) := HandleAdd(Filesystem, st, d, sans, ADD_OK);
            (code == 201 <==> d !in Names(st.managed)) &&
            (if code == 201 then Names(added.managed) == Names(st.managed) + [d] && d in added.records else code == 400 && added == st)
    ensures var (removed, code) := HandleRemove(st, d, deleteCert, DETACH_OK);
            (code == 200 <==> deleteCert || d in Names(st.managed)) &&
            (if code == 200 then d !in Names(removed.managed) && (deleteCert ==> d !in removed.records) else code == 404 && removed == st)
    ensures var (deleted, code) := HandleDeleteCert(st, d, false, false);
            (code == 200 <==> (d in st.records ==> !st.records[d].managed)) &&
            (if code == 200 then d !in deleted.records && deleted.managed == st.managed else code == 400 && deleted == st)
  {
    NamesAppend(st.managed, ManagedDomain(d, sans));
    WithoutMembers(st.managed, d);
  }

  /** The addition in full, whichever accesses fail: 201 exactly when the domain has a name, the list can be
      read and written and does not have it; else 400, and nothing changes. */
  lemma AddExactly(st: Store, d: string, sans: seq<string>, io: AddIo)
    ensures var (after, code) := HandleAdd(Filesystem, st, d, sans, io);
            (code == 201 <==> d != "" && !io.load && !io.list && forall m :: m in st.managed ==> m.domain != d) &&
            if code == 201 then AddedTo(st.managed, st, after, d, sans, io) else code == 400 && after == st
  {
    AddFilesystemExactly(st, d, sans, io);
  }

  /** The list can be read and written, and has the domain. */
  ghost predicate Unlists(st: Store, d: string, io: RemoveIo) {
    d != "" && !io.load && !io.list && exists m :: m in st.managed && m.domain == d
  }

  lemma RemoveOutcome(st: Store, d: string, io: RemoveIo)
    requires d != ""
    ensures Remove(st, d, io).1.None? <==> Unlists(st, d, io)
    ensures Remove(st, d, io).0 == if Unlists(st, d, io) then st.(managed := Without(st.managed, d)) else st
  {
    NamesMember(st.managed, d);
  }

  /** A soft removal in full, whichever accesses fail: 200 exactly when the domain is taken off the list,
      whatever becomes of its record, which loses its managed mark and nothing else. */
  lemma SoftRemovalExactly(st: Store, d: string, io: DetachIo)
    ensures var (after, code) := HandleRemove(st, d, false, io);
            var unlisted := Unlists(st, d, io.remove);
            code == (if d == "" then 400 else if unlisted then 200 else 404) &&
            after.managed == (if unlisted then Without(st.managed, d) else st.managed) && OthersKept(st, after, d) &&
            if unlisted && !io.read && !io.write && d in st.records && st.records[d].commonName != "" then
              d in after.records && after.records[d] == st.records[d].(managed := false)
            else after.records == st.records
  {
    if d != "" { RemoveOutcome(st, d, io.remove); }
  }

  /** A hard removal in full: 200 exactly when the record can be deleted, listed or not. */
  lemma HardRemovalExactly(st: Store, d: string, io: DetachIo)
    ensures var (after, code) := HandleRemove(st, d, true, io);
            var unlisted := Unlists(st, d, io.remove);
            code == (if d == "" then 400 else if !io.drop then 200 else if unlisted then 500 else 404) &&
            after.managed == (if unlisted then Without(st.managed, d) else st.managed) && OthersKept(st, after, d) &&
            if code == 200 then d !in after.records else after.records == st.records
  {
    if d != "" { RemoveOutcome(st, d, io.remove); }
  }

  /** The deletion of a certificate in full. */
  lemma DeletionExactly(st: Store, d: string, readFails: bool, dropFails: bool)
    ensures var (after, code) := HandleDeleteCert(st, d, readFails, dropFails);
            var managed := d in st.records && st.records[d].managed;
            code == (if d == "" then 400 else if readFails then 404 else if managed then 400 else if dropFails then 500 else 200) &&
            after.managed == st.managed && OthersKept(st, after, d) &&
            if code == 200 then d !in after.records else after == st
  {
  }

  ghost predicate CoherentAt(st: Store, d: string) {
    d in st.records ==> (st.records[d].managed <==> d in Names(st.managed))
  }

  /** Whatever state a removal finds, one that answers 200 leaves its domain unlisted and without a
      record that claims to be managed, with these exceptions and no others: a hard one whose list
      could not be rewritten, and a soft one whose managed record has no name, or could not be
      read or written. */
  lemma RemovalRepairs(st: Store, d: string, deleteCert: bool, io: DetachIo)
    requires HandleRemove(st, d, deleteCert, io).1 == 200
    ensures var after := HandleRemove(st, d, deleteCert, io).0;
            d !in Names(after.managed) && CoherentAt(after, d)
            <==>
            if deleteCert then d in Names(st.managed) ==> !io.remove.load && !io.remove.list
            else d in st.records && st.records[d].managed ==>
                   st.records[d].commonName != "" && !io.read && !io.write
  {
    WithoutMembers(st.managed, d);
  }

  /******* Handlers that only read *******/

  /** One certificate as `/api/certs` shows it. */
  datatype Shown = Shown(
    commonName: string, sans: seq<string>, leaf: Pem, chain: Pem, url: string, issuers: seq<string>,
    issuedOn: Option<int>, expiresOn: Option<int>, managed: bool, status: string, error: string)

  function Show(r: CertAndKey): Shown {
    var status := if r.status != "" then r.status else if r.leaf != [] then "issued" else "pending";
    Shown(r.commonName, r.sans, r.leaf, r.chain, r.url, r.issuers, r.issuedOn, r.expiration, r.managed, status, r.error)
  }

  /** Nameless records are not shown. */
  function ShownCerts(st: Store): map<string, Shown> {
    map d | d in st.records && st.records[d].commonName != "" :: Show(st.records[d])
  }

  /** In the order of `domains`, without those that cannot be read. */
  function CertList(st: Store, domains: seq<string>, unreadable: set<string>): seq<Shown> {
    if domains == [] then []
    else
      var front, d := CertList(st, domains[..|domains| - 1], unreadable), domains[|domains| - 1];
      if d in unreadable || d !in ShownCerts(st) then front else front + [ShownCerts(st)[d]]
  }

  /** `domains` are the stored domains, in the order of the directory. */
  method GetCerts(ks: FilesystemKeystore?, dir: Directory, unreadable: set<string>)
    returns (code: int, response: seq<Shown>, ghost domains: seq<string>)
    requires ks != null ==> !ks.locked && Shows(dir, ks.domainFiles)
    modifies ks
    ensures ks != null ==> !ks.locked && ks.Contents() == old(ks.Contents())
    ensures code == if ks == null then 503 else if dir.Unlistable? then 500 else 200
    ensures code != 200 ==> response == []
    ensures code == 200 ==> NoDup(domains) && (forall d :: d in domains <==> d in ks.Contents().records)
    ensures code == 200 ==> response == CertList(ks.Contents(), domains, unreadable)
  {
    domains := [];
    if ks == null { return 503, [], []; }
    var found := ks.GetAllDomains(dir);
    if found.None? { return 500, [], []; }
    domains := found.value;
    response := ShowAll(ks, found.value, unreadable);
    code := 200;
  }

  method ShowAll(ks: FilesystemKeystore, domains: seq<string>, unreadable: set<string>) returns (response: seq<Shown>)
    requires !ks.locked && forall d :: d in domains ==> d in ks.Contents().records
    modifies ks`locked
    ensures !ks.locked
    ensures response == CertList(ks.Contents(), domains, unreadable)
  {
    response := [];
    ghost var st := ks.Contents();
    for i := 0 to |domains|
      invariant !ks.locked && ks.Contents() == st
      invariant response == CertList(st, domains[..i], unreadable)
    {
      assert domains[..i + 1][..i] == domains[..i];
      var certAndKey := ks.GetCertAndKey(domains[i], domains[i] in unreadable);
      if certAndKey.None? { continue; }
      if certAndKey.value.commonName == "" { continue; }
      response := response + [Show(certAndKey.value)];
    }
    assert domains[..|domains|] == domains;
  }

  function ServePrivateKey(st: Store, d: string, readFails: bool): (int, string) {
    if d == "" then (400, "")
    else if readFails then (500, "")
    else if Fetch(st, d).commonName == "" then (404, "")
    else (200, Fetch(st, d).key)
  }

  method GetPrivateKey(ks: FilesystemKeystore?, d: string, readFails: bool) returns (code: int, key: string)
    requires ks != null ==> !ks.locked
    modifies ks
    ensures ks == null ==> code == 503
    ensures ks != null ==> !ks.locked && ks.Contents() == old(ks.Contents())
    ensures ks != null ==> (code, key) == ServePrivateKey(ks.Contents(), d, readFails)
  {
    if ks == null { return 503, ""; }
    if d == "" { return 400, ""; }
    var certAndKey := ks.GetCertAndKey(d, readFails);
    if certAndKey.None? { return 500, ""; }
    if certAndKey.value.commonName == "" { return 404, ""; }
    return 200, certAndKey.value.key;
  }

  /** What is shown of a record, field by field; a record without a status counts as issued if it has a
      leaf, and as pending if not. */
  lemma ShownFields(st: Store, d: string)
    ensures d in ShownCerts(st) <==> d in st.records && st.records[d].commonName != ""
    ensures d in ShownCerts(st) ==>
              var c, r := ShownCerts(st)[d], st.records[d];
              c.commonName == r.commonName && c.sans == r.sans && c.leaf == r.leaf && c.chain == r.chain && c.url == r.url &&
              c.issuers == r.issuers && c.issuedOn == r.issuedOn && c.expiresOn == r.expiration && c.managed == r.managed &&
              c.error == r.error &&
              c.status == if r.status != "" then r.status else if r.leaf == [] then "pending" else "issued"
  {
  }

  /** One more domain in the directory shows one more certificate, in its place. */
  lemma ShownInOrder(st: Store, domains: seq<string>, unreadable: set<string>, d: string)
    ensures CertList(st, [], unreadable) == []
    ensures CertList(st, domains + [d], unreadable) ==
            CertList(st, domains, unreadable) +
              if d in st.records && st.records[d].commonName != "" && d !in unreadable then [Show(st.records[d])] else []
  {
    assert (domains + [d])[..|domains|] == domains;
    assert CertList(st, domains, unreadable) + [] == CertList(st, domains, unreadable);
  }

  lemma PrivateKeyExactly(st: Store, d: string, readFails: bool)
    ensures var (code, key) := ServePrivateKey(st, d, readFails);
            code == (if d == "" then 400 else if readFails then 500 else if d in st.records && st.records[d].commonName != "" then 200 else 404) &&
            key == if code == 200 then st.records[d].key else ""
  {
  }
}
