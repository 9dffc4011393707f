/** The data every keystore backend holds, and the effect of each keystore operation on it:
    `pkg/keystore/keystore.go` and the bodies shared by its backends.

    The functions here are specifications.  The classes in Filesystem.dfy and Memory.dfy are
    proved against them, and the theorems are stated about them.  The outcome of each file access
    is a parameter: a field of an `...Io` value is true when that access fails.
  */
module Keystore {
  import opened Wrappers
  import opened Certificates

  datatype CertAndKey = CertAndKey(
    chain: Pem, leaf: Pem, url: string, key: string, issuers: seq<string>,
    issuedOn: Option<int>, expiration: Option<int>,
    commonName: string, sans: seq<string>, managed: bool, status: string, error: string)

  /** What reading a domain without a record yields. */
  const EMPTY_RECORD := CertAndKey([], [], "", "", [], None, None, "", [], false, "", "")

  datatype ManagedDomain = ManagedDomain(domain: string, sans: seq<string>)

  datatype Store = Store(managed: seq<ManagedDomain>, records: map<string, CertAndKey>)

  const EMPTY_STORE := Store([], map[])

  datatype Fail = Unreadable | Unwritable | AlreadyManaged | NotManaged

  /******* Issued records *******/

  function CertName(cert: X509): string {
    if cert.subjectCN == "" && |cert.dnsNames| > 0 then cert.dnsNames[0] else cert.subjectCN
  }

  /** The record of a fresh issuance, or None when the chain holds no leaf. */
  function IssuedRecord(chain: Pem, key: string, url: string): Option<CertAndKey> {
    match LeafIn(chain)
    case None => None
    case Some(cert) =>
      Some(CertAndKey(chain, CertToPem(cert), url, key, IssuersIn(CertsIn(chain)),
                      Some(cert.notBefore), Some(cert.notAfter),
                      CertName(cert), cert.dnsNames, true, "issued", ""))
  }

  method NewCertAndKey(chain: Pem, key: string, url: string) returns (r: Option<CertAndKey>)
    ensures r == IssuedRecord(chain, key, url)
  {
    var data := EMPTY_RECORD.(chain := chain, url := url, key := key, managed := true, status := "issued");
    var cert := GetLeafCert(data.chain);
    if cert.None? { return None; }
    data := data.(leaf := CertToPem(cert.value), commonName := cert.value.subjectCN);
    if data.commonName == "" && |cert.value.dnsNames| > 0 {
      data := data.(commonName := cert.value.dnsNames[0]);
    }
    data := data.(issuedOn := Some(cert.value.notBefore), expiration := Some(cert.value.notAfter));
    var issuers := GetIssuersCN(data.chain);
    return Some(data.(sans := cert.value.dnsNames, issuers := issuers));
  }

  /** The renewal check on a stored record reads the date of the very leaf the chain was issued
      with, because the stored leaf text decodes back to that certificate. */
  lemma IssuedRecordDeadline(chain: Pem, key: string, url: string, now: int)
    requires IssuedRecord(chain, key, url).Some?
    ensures LeafIn(IssuedRecord(chain, key, url).value.leaf) == LeafIn(chain)
    ensures NeedsUpdate(IssuedRecord(chain, key, url).value.leaf, now)
            <==> now + RENEWAL_DAYS * DAY > LeafIn(chain).value.notAfter
  {
    LeafRoundTrip(LeafIn(chain).value);
  }

  /** Wherever the leaf stands in the chain, with other texts and blocks around it and any number of
      authorities before it, the record describes that leaf and lists the authorities' names. */
  lemma IssuedRecordDescribesLeaf(before: Pem, leaf: X509, after: Pem, key: string, url: string)
    requires !leaf.isCA && forall c :: c in CertsIn(before) ==> c.isCA
    ensures var chain := before + CertToPem(leaf) + after;
            var r := IssuedRecord(chain, key, url);
            r.Some? && r.value.chain == chain && r.value.leaf == CertToPem(leaf) && r.value.key == key && r.value.url == url &&
            r.value.issuedOn == Some(leaf.notBefore) && r.value.expiration == Some(leaf.notAfter) &&
            r.value.sans == leaf.dnsNames && r.value.managed && r.value.status == "issued" && r.value.error == "" &&
            r.value.issuers == IssuersIn(CertsIn(before)) + IssuersIn(CertsIn(after)) &&
            (leaf.subjectCN != "" ==> r.value.commonName == leaf.subjectCN) &&
            (leaf.subjectCN == "" && leaf.dnsNames != [] ==> r.value.commonName == leaf.dnsNames[0])
  {
    CertsAround(before, leaf, after);
    FirstLeafAfterIssuers(CertsIn(before), leaf, CertsIn(after));
    IssuersAround(CertsIn(before), leaf, CertsIn(after));
  }

  lemma LeaflessChainIsRefused(chain: Pem, key: string, url: string)
    ensures IssuedRecord(chain, key, url).None? <==> forall c :: c in CertsIn(chain) ==> c.isCA
    ensures forall c: X509 :: c.subjectCN == "" && c.dnsNames == [] ==> CertName(c) == ""
  {
  }

  lemma CertsAround(before: Pem, leaf: X509, after: Pem)
    ensures CertsIn(before + CertToPem(leaf) + after) == CertsIn(before) + [leaf] + CertsIn(after)
  {
    CertsInAppend(before + CertToPem(leaf), after);
    CertsInAppend(before, CertToPem(leaf));
    assert CertsIn(CertToPem(leaf)) == [leaf] + CertsIn([]);
  }

  lemma IssuersAround(before: seq<X509>, leaf: X509, after: seq<X509>)
    requires !leaf.isCA
    ensures IssuersIn(before + [leaf] + after) == IssuersIn(before) + IssuersIn(after)
  {
    IssuersInAppend(before + [leaf], after);
    assert (before + [leaf])[..|before|] == before;
  }

  /******* The managed list *******/

  function Names(ms: seq<ManagedDomain>): (names: seq<string>)
    ensures |names| == |ms|
    ensures forall i :: 0 <= i < |ms| ==> names[i] == ms[i].domain
  {
    seq(|ms|, i requires 0 <= i < |ms| => ms[i].domain)
  }

  ghost predicate NoDup(names: seq<string>) {
    forall i, j :: 0 <= i < j < |names| ==> names[i] != names[j]
  }

  function Without(ms: seq<ManagedDomain>, d: string): (w: seq<ManagedDomain>)
    ensures forall m :: m in w <==> m in ms && m.domain != d
  {
    if ms == [] then []
    else
      var last := ms[|ms| - 1];
      assert ms == ms[..|ms| - 1] + [last];
      Without(ms[..|ms| - 1], d) + (if last.domain == d then [] else [last])
  }

  function WithoutName(names: seq<string>, d: string): seq<string> {
    if names == [] then []
    else
      var last := names[|names| - 1];
      WithoutName(names[..|names| - 1], d) + (if last == d then [] else [last])
  }

  lemma NamesAppend(ms: seq<ManagedDomain>, m: ManagedDomain)
    ensures Names(ms + [m]) == Names(ms) + [m.domain]
  {
  }

  lemma WithoutAppend(ms: seq<ManagedDomain>, m: ManagedDomain, d: string)
    ensures Without(ms + [m], d) == Without(ms, d) + (if m.domain == d then [] else [m])
  {
    assert (ms + [m])[..|ms|] == ms;
  }

  lemma {:induction false} NamesWithout(ms: seq<ManagedDomain>, d: string)
    ensures Names(Without(ms, d)) == WithoutName(Names(ms), d)
  {
    if ms != [] {
      var front, last := ms[..|ms| - 1], ms[|ms| - 1];
      NamesWithout(front, d);
      assert Names(ms)[..|ms| - 1] == Names(front);
      if last.domain != d {
        NamesAppend(Without(front, d), last);
      } else {
        assert Without(ms, d) == Without(front, d);
      }
    }
  }

  lemma NamesMember(ms: seq<ManagedDomain>, d: string)
    ensures d in Names(ms) <==> exists m :: m in ms && m.domain == d
  {
    if d in Names(ms) {
      var i :| 0 <= i < |ms| && Names(ms)[i] == d;
      assert ms[i] in ms;
    }
    if m :| m in ms && m.domain == d {
      var i :| 0 <= i < |ms| && ms[i] == m;
      assert Names(ms)[i] == d;
    }
  }

  lemma WithoutMembers(ms: seq<ManagedDomain>, d: string)
    ensures forall x :: x in Names(Without(ms, d)) <==> x in Names(ms) && x != d
  {
    forall x ensures x in Names(Without(ms, d)) <==> x in Names(ms) && x != d {
      NamesMember(ms, x);
      NamesMember(Without(ms, d), x);
    }
  }

  lemma {:induction false} WithoutNoDup(ms: seq<ManagedDomain>, d: string)
    requires NoDup(Names(ms))
    ensures NoDup(Names(Without(ms, d)))
  {
    if ms != [] {
      var front, last := ms[..|ms| - 1], ms[|ms| - 1];
      assert Names(front) == Names(ms)[..|ms| - 1];
      WithoutNoDup(front, d);
      WithoutMembers(front, d);
      if last.domain != d {
        NamesAppend(Without(front, d), last);
        assert last.domain !in Names(front);
      } else {
        assert Without(ms, d) == Without(front, d);
      }
    }
  }

  /******* Records *******/

  function Fetch(st: Store, d: string): CertAndKey {
    if d in st.records then st.records[d] else EMPTY_RECORD
  }

  function Put(st: Store, d: string, r: CertAndKey): Store {
    st.(records := st.records[d := r])
  }

  function PutIf(st: Store, d: string, r: Option<CertAndKey>): Store {
    if r.Some? then Put(st, d, r.value) else st
  }

  function Drop(st: Store, d: string): Store {
    st.(records := st.records - {d})
  }

  function Placeholder(d: string, sans: seq<string>): CertAndKey {
    EMPTY_RECORD.(commonName := d, sans := sans, managed := true, status := "pending")
  }

  /** What adding `d` writes, given what reading its record gave (None for a read error). */
  function Claim(read: Option<CertAndKey>, d: string, sans: seq<string>): Option<CertAndKey> {
    match read
    case None => Some(Placeholder(d, sans))
    case Some(r) =>
      if r.commonName == "" then Some(Placeholder(d, sans))
      else if !r.managed then Some(r.(managed := true))
      else None
  }

  /** What a soft removal writes. */
  function Disown(read: Option<CertAndKey>): Option<CertAndKey> {
    if read.Some? && read.value.commonName != "" then Some(read.value.(managed := false)) else None
  }

  /** What a failed order writes. */
  function Blame(read: Option<CertAndKey>, msg: string): Option<CertAndKey> {
    if read.Some? && read.value.commonName != "" then Some(read.value.(status := "failed", error := msg)) else None
  }

  function Read(st: Store, d: string, fails: bool): Option<CertAndKey> {
    if fails then None else Some(Fetch(st, d))
  }

  /** Everything in a record that issuance decides.  Only `managed`, `status` and `error` are left
      to the other operations. */
  function Payload(r: CertAndKey): CertAndKey {
    r.(managed := false, status := "", error := "")
  }

  /** A record no certificate was ever issued for. */
  ghost predicate Keyless(r: CertAndKey) {
    r.chain == [] && r.leaf == [] && r.url == "" && r.key == "" && r.issuers == [] &&
    r.issuedOn == None && r.expiration == None
  }

  /******* Operations *******/

  datatype AddIo = AddIo(load: bool, list: bool, read: bool, write: bool)
  const ADD_OK := AddIo(false, false, false, false)

  function AddFilesystem(st: Store, d: string, sans: seq<string>, io: AddIo): (Store, Option<Fail>) {
    if io.load then (st, Some(Unreadable))
    else if d in Names(st.managed) then (st, Some(AlreadyManaged))
    else if io.list then (st, Some(Unwritable))
    else
      var listed := st.(managed := st.managed + [ManagedDomain(d, sans)]);
      (PutIf(listed, d, if io.write then None else Claim(Read(st, d, io.read), d, sans)), None)
  }

  /** The memory keystore forgets the names, creates no placeholder and ignores the common name. */
  function AddMemory(st: Store, d: string): (Store, Option<Fail>) {
    if d in Names(st.managed) then (st, Some(AlreadyManaged))
    else
      var listed := st.(managed := st.managed + [ManagedDomain(d, [])]);
      if d in st.records && !st.records[d].managed then (Put(listed, d, st.records[d].(managed := true)), None)
      else (listed, None)
  }

  /** The Vault keystore takes a list it cannot read for an empty one. */
  function AddVault(st: Store, d: string, sans: seq<string>, io: AddIo): (Store, Option<Fail>) {
    var md := if io.load then [] else st.managed;
    if d in Names(md) then (st, Some(AlreadyManaged))
    else if io.list then (st, Some(Unwritable))
    else
      var listed := st.(managed := md + [ManagedDomain(d, sans)]);
      (PutIf(listed, d, if io.write then None else Claim(Read(st, d, io.read), d, sans)), None)
  }

  datatype Backend = Filesystem | Vault | Memory

  function Add(b: Backend, st: Store, d: string, sans: seq<string>, io: AddIo): (Store, Option<Fail>) {
    match b
    case Filesystem => AddFilesystem(st, d, sans, io)
    case Vault => AddVault(st, d, sans, io)
    case Memory => AddMemory(st, d)
  }

  datatype RemoveIo = RemoveIo(load: bool, list: bool)
  const REMOVE_OK := RemoveIo(false, false)

  function Remove(st: Store, d: string, io: RemoveIo): (Store, Option<Fail>) {
    if io.load then (st, Some(Unreadable))
    else if d !in Names(st.managed) then (st, Some(NotManaged))
    else if io.list then (st, Some(Unwritable))
    else (st.(managed := Without(st.managed, d)), None)
  }

  /** Adding a domain keeps what was issued for it exactly when its record has a common name and
      could be read: a failed read replaces the record by a placeholder. */
  lemma AddKeepsPayload(st: Store, d: string, sans: seq<string>, io: AddIo)
    requires AddFilesystem(st, d, sans, io).1.None? && d in st.records && !Keyless(st.records[d])
    ensures Payload(Fetch(AddFilesystem(st, d, sans, io).0, d)) == Payload(st.records[d])
            <==> io.write || (!io.read && st.records[d].commonName != "")
  {
    var r := st.records[d];
    assert Keyless(Payload(Placeholder(d, sans)));
    assert !Keyless(Payload(r));
  }

  /******* In the fields of a record *******/

  /** A record nothing was ever stored for. */
  lemma EmptyRecord(st: Store, d: string)
    requires d !in st.records
    ensures var r := Fetch(st, d);
            r.chain == [] && r.leaf == [] && r.url == "" && r.key == "" && r.issuers == [] && r.issuedOn == None && r.expiration == None &&
            r.commonName == "" && r.sans == [] && !r.managed && r.status == "" && r.error == ""
  {
  }

  /** Two records hold the same issuance exactly if they agree on these nine fields. */
  lemma SamePayload(r: CertAndKey, q: CertAndKey)
    ensures Payload(r) == Payload(q)
            <==> r.chain == q.chain && r.leaf == q.leaf && r.url == q.url && r.key == q.key && r.issuers == q.issuers &&
                 r.issuedOn == q.issuedOn && r.expiration == q.expiration && r.commonName == q.commonName && r.sans == q.sans
  {
    assert Payload(r).chain == r.chain && Payload(q).chain == q.chain;
  }

  /** Nothing was issued: no chain, leaf, URL, key, issuers and dates. */
  ghost predicate Bare(r: CertAndKey) {
    r.chain == [] && r.leaf == [] && r.url == "" && r.key == "" && r.issuers == [] && r.issuedOn == None && r.expiration == None
  }

  /** The record of an added domain: the one it had, marked managed; or, if it had none with a name or it
      could not be read, one with the domain as its name, the requested names, managed and pending. */
  ghost predicate Adopted(st: Store, d: string, sans: seq<string>, readFails: bool, r: CertAndKey) {
    if !readFails && d in st.records && st.records[d].commonName != "" then r == st.records[d].(managed := true)
    else r.commonName == d && r.sans == sans && r.managed && r.status == "pending" && r.error == "" && Bare(r)
  }

  ghost predicate OthersKept(st: Store, after: Store, d: string) {
    forall e :: e != d ==> (e in after.records <==> e in st.records) && (e in st.records ==> after.records[e] == st.records[e])
  }

  /** Adding to `md`, the list that was read, has this result: the entry with the requested names comes
      last, and the domain's record is adopted, or left as it was when it cannot be written. */
  ghost predicate AddedTo(md: seq<ManagedDomain>, st: Store, after: Store, d: string, sans: seq<string>, io: AddIo) {
    after.managed == md + [ManagedDomain(d, sans)] && OthersKept(st, after, d) &&
    if io.write then after.records == st.records
    else d in after.records && Adopted(st, d, sans, io.read, after.records[d])
  }

  lemma AdoptedRecord(st: Store, d: string, sans: seq<string>, io: AddIo)
    ensures var after := PutIf(st, d, if io.write then None else Claim(Read(st, d, io.read), d, sans));
            after.managed == st.managed && OthersKept(st, after, d) &&
            if io.write then after.records == st.records
            else d in after.records && Adopted(st, d, sans, io.read, after.records[d])
  {
  }

  /** What adding comes to on each keystore, whichever accesses fail. */
  lemma AddFilesystemExactly(st: Store, d: string, sans: seq<string>, io: AddIo)
    ensures var (after, err) := AddFilesystem(st, d, sans, io);
            (err.None? <==> !io.load && !io.list && forall m :: m in st.managed ==> m.domain != d) &&
            if err.None? then AddedTo(st.managed, st, after, d, sans, io) else after == st
  {
    NamesMember(st.managed, d);
    AdoptedRecord(st.(managed := st.managed + [ManagedDomain(d, sans)]), d, sans, io);
  }

  lemma AddVaultExactly(st: Store, d: string, sans: seq<string>, io: AddIo)
    ensures var (after, err) := AddVault(st, d, sans, io);
            (err.None? <==> !io.list && (io.load || forall m :: m in st.managed ==> m.domain != d)) &&
            if err.None? then AddedTo(if io.load then [] else st.managed, st, after, d, sans, io) else after == st
  {
    NamesMember(st.managed, d);
    AdoptedRecord(st.(managed := (if io.load then [] else st.managed) + [ManagedDomain(d, sans)]), d, sans, io);
  }

  lemma AddMemoryExactly(st: Store, d: string)
    ensures var (after, err) := AddMemory(st, d);
            (err.None? <==> forall m :: m in st.managed ==> m.domain != d) &&
            if err.None? then
              after.managed == st.managed + [ManagedDomain(d, [])] && OthersKept(st, after, d) &&
              (d in after.records <==> d in st.records) && (d in st.records ==> after.records[d] == st.records[d].(managed := true))
            else after == st
  {
    NamesMember(st.managed, d);
  }

  ghost predicate Lacks(ms: seq<ManagedDomain>, d: string) {
    forall i :: 0 <= i < |ms| ==> ms[i].domain != d
  }

  /** Removing keeps the other entries in their order, with their names, and touches no record. */
  lemma RemoveExactly(before: seq<ManagedDomain>, m: ManagedDomain, rest: seq<ManagedDomain>, records: map<string, CertAndKey>, io: RemoveIo)
    requires Lacks(before, m.domain) && Lacks(rest, m.domain)
    ensures var st := Store(before + [m] + rest, records);
            Remove(st, m.domain, io) ==
              if io.load then (st, Some(Unreadable)) else if io.list then (st, Some(Unwritable))
              else (Store(before + rest, records), None)
  {
    var ms := before + [m] + rest;
    assert ms[|before|] == m;
    NamesMember(ms, m.domain);
    WithoutAround(before, m, rest);
  }

  lemma {:induction false} WithoutNone(ms: seq<ManagedDomain>, d: string, n: nat)
    requires n <= |ms| && Lacks(ms, d)
    ensures Without(ms[..n], d) == ms[..n]
  {
    if n > 0 {
      WithoutNone(ms, d, n - 1);
      LastOfPrefix(ms, n);
      WithoutLast(ms[..n - 1], ms[n - 1], ms[..n], d);
    }
  }

  lemma LastOfPrefix(ms: seq<ManagedDomain>, n: nat)
    requires 0 < n <= |ms|
    ensures ms[..n] == ms[..n - 1] + [ms[n - 1]]
  {
  }

  lemma WithoutLast(front: seq<ManagedDomain>, last: ManagedDomain, ms: seq<ManagedDomain>, d: string)
    requires ms == front + [last] && last.domain != d && Without(front, d) == front
    ensures Without(ms, d) == ms
  {
    WithoutAppend(front, last, d);
  }

  lemma {:induction false} WithoutAround(before: seq<ManagedDomain>, m: ManagedDomain, rest: seq<ManagedDomain>)
    requires Lacks(before, m.domain) && Lacks(rest, m.domain)
    ensures Without(before + [m] + rest, m.domain) == before + rest
  {
    if rest == [] {
      WithoutNone(before, m.domain, |before|);
      assert before[..|before|] == before;
      WithoutAppend(before, m, m.domain);
      assert before + [m] + rest == before + [m] && before + rest == before && before + [] == before;
    } else {
      var front, last := rest[..|rest| - 1], rest[|rest| - 1];
      WithoutAround(before, m, front);
      WithoutAppend(before + [m] + front, last, m.domain);
      JoinLast(before + [m], front, last);
      JoinLast(before, front, last);
      assert rest == front + [last];
    }
  }

  lemma JoinLast(a: seq<ManagedDomain>, front: seq<ManagedDomain>, last: ManagedDomain)
    ensures a + (front + [last]) == a + front + [last]
  {
  }
}
