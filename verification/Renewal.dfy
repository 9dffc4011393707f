/** Renewing one certificate (`pkg/acme/acme.go`) and the pass over all managed domains
    (`cmd/acme-store/worker.go`).  Talking to the certificate authority is a parameter: each
    attempt carries the clock reading of its check and what the authority would answer. */
module Renewal {
  import opened Wrappers
  import opened Certificates
  import opened Keystore
  import opened FilesystemKeystores

  datatype CaAnswer =
    | SetupFailed(msg: string)   // DNS provider, account or key generation
    | OrderFailed(msg: string)   // the order failed, or came back without certificates
    | Obtained(chain: Pem, url: string, key: string)

  datatype RenewIo = RenewIo(
    check: bool, leaf: bool, failRead: bool, failWrite: bool, store: bool, markRead: bool, markWrite: bool)
  const RENEW_OK := RenewIo(false, false, false, false, false, false, false)

  /** `reason` is the text of the error when the leaf cannot be read or the certificate stored. */
  datatype Attempt = Attempt(now: int, ca: CaAnswer, io: RenewIo, reason: string)

  function NoLeaf(d: string): string {
    "could not populate cert for domain " + d + ": could not decode certificate"
  }

  function NoRead(reason: string): string {
    "could not retrieve existing cert from keystore: " + reason
  }

  function NoStore(d: string, reason: string): string {
    "could not store certificate and key for domain " + d + ": " + reason
  }

  const NO_ORDER := "obtaining certificate: "

  function Mark(st: Store, d: string, msg: string, readFails: bool, writeFails: bool): Store {
    PutIf(st, d, if writeFails then None else Blame(Read(st, d, readFails), msg))
  }

  function Renew(st: Store, cn: string, at: Attempt): (Store, Option<string>) {
    if at.io.leaf then (st, Some(NoRead(at.reason)))
    else if !NeedsUpdate(Fetch(st, cn).leaf, at.now) then (st, None)
    else match at.ca
      case SetupFailed(msg) => (st, Some(msg))
      case OrderFailed(msg) => (Mark(st, cn, msg, at.io.failRead, at.io.failWrite), Some(NO_ORDER + msg))
      case Obtained(chain, url, key) =>
        match IssuedRecord(chain, key, url)
        case None => (st, Some(NoLeaf(cn)))
        case Some(r) => if at.io.store then (st, Some(NoStore(cn, at.reason))) else (Put(st, cn, r), None)
  }

  predicate Unmanaged(r: Option<CertAndKey>) {
    r.Some? && r.value.commonName != "" && !r.value.managed
  }

  function Visit(st: Store, d: string, at: Attempt): Store {
    if Unmanaged(Read(st, d, at.io.check)) then st
    else match Renew(st, d, at)
      case (st1, None) => st1
      case (st1, Some(msg)) => Mark(st1, d, msg, at.io.markRead, at.io.markWrite)
  }

  /** The record of `d` marked failed with that text, if it has a name and can be read and written. */
  function FailedWith(st: Store, d: string, msg: string, fails: bool): Store {
    if d in st.records && st.records[d].commonName != "" && !fails then
      st.(records := st.records[d := st.records[d].(status := "failed", error := msg)])
    else st
  }

  /** One visit in full, whichever accesses fail.  An unmanaged record is left alone, and so is a
      certificate whose leaf can be read and is not due.  Otherwise the record is replaced by what was
      granted, or marked failed with the text of what went wrong; a failed order marks it twice. */
  lemma VisitExactly(st: Store, d: string, at: Attempt)
    ensures var r, after, fails := Fetch(st, d), Visit(st, d, at), at.io.markRead || at.io.markWrite;
            var due := LeafIn(r.leaf).None? || at.now + 1814400 > LeafIn(r.leaf).value.notAfter;
            after ==
              if !at.io.check && r.commonName != "" && !r.managed then st
              else if at.io.leaf then FailedWith(st, d, "could not retrieve existing cert from keystore: " + at.reason, fails)
              else if !due then st
              else match at.ca
                case SetupFailed(msg) => FailedWith(st, d, msg, fails)
                case OrderFailed(msg) =>
                  FailedWith(FailedWith(st, d, msg, at.io.failRead || at.io.failWrite), d, "obtaining certificate: " + msg, fails)
                case Obtained(chain, url, key) =>
                  var issued := IssuedRecord(chain, key, url);
                  if issued.None? then
                    FailedWith(st, d, "could not populate cert for domain " + d + ": could not decode certificate", fails)
                  else if at.io.store then
                    FailedWith(st, d, "could not store certificate and key for domain " + d + ": " + at.reason, fails)
                  else st.(records := st.records[d := issued.value])
  {
    MarkExactly(st, d, at);
  }

  lemma MarkExactly(st: Store, d: string, at: Attempt)
    ensures forall s: Store, msg: string :: Mark(s, d, msg, at.io.markRead, at.io.markWrite) == FailedWith(s, d, msg, at.io.markRead || at.io.markWrite)
    ensures forall s: Store, msg: string :: Mark(s, d, msg, at.io.failRead, at.io.failWrite) == FailedWith(s, d, msg, at.io.failRead || at.io.failWrite)
  {
  }

  /** The store after the first `n` domains of a snapshot; the i-th visit gets `attempts(i)`. */
  function Pass(st: Store, domains: seq<string>, attempts: nat -> Attempt, n: nat): Store
    requires n <= |domains|
  {
    if n == 0 then st else Visit(Pass(st, domains, attempts, n - 1), domains[n - 1], attempts(n - 1))
  }

  /** One run of the worker.  A keystore that cannot list its domains is left alone. */
  function Work(st: Store, attempts: nat -> Attempt): Store {
    Pass(st, Names(st.managed), attempts, |st.managed|)
  }

  method MarkFailed(ks: FilesystemKeystore, d: string, msg: string, readFails: bool, writeFails: bool)
    requires !ks.locked
    modifies ks
    ensures !ks.locked
    ensures ks.Contents() == Mark(old(ks.Contents()), d, msg, readFails, writeFails)
  {
    var existing := ks.GetCertAndKey(d, readFails);
    if existing.Some? && existing.value.commonName != "" {
      var data := existing.value.(status := "failed", error := msg);
      var _ := ks.StoreCertAndKey(d, data, writeFails);
    }
  }

  method RenewCertIfNeeded(ks: FilesystemKeystore, cn: string, at: Attempt) returns (err: Option<string>)
    requires !ks.locked
    modifies ks
    ensures !ks.locked
    ensures (ks.Contents(), err) == Renew(old(ks.Contents()), cn, at)
  {
    var existing := ks.GetLeafCert(cn, at.io.leaf);
    if existing.None? { return Some(NoRead(at.reason)); }
    var needed := CheckIfCertNeedsUpdate(existing.value, at.now);
    if !needed { return None; }
    match at.ca
    case SetupFailed(msg) =>
      return Some(msg);
    case OrderFailed(msg) =>
      MarkFailed(ks, cn, msg, at.io.failRead, at.io.failWrite);
      return Some(NO_ORDER + msg);
    case Obtained(chain, url, key) =>
      var data := NewCertAndKey(chain, key, url);
      if data.None? { return Some(NoLeaf(cn)); }
      var ok := ks.StoreCertAndKey(cn, data.value, at.io.store);
      return if ok then None else Some(NoStore(cn, at.reason));
  }

  method DoAcmeOrders(ks: FilesystemKeystore, listFails: bool, attempts: nat -> Attempt)
    requires !ks.locked
    modifies ks
    ensures !ks.locked
    ensures ks.Contents() == if listFails then old(ks.Contents()) else Work(old(ks.Contents()), attempts)
  {
    ghost var st := ks.Contents();
    var domains := ks.GetManagedDomains(listFails);
    if domains.None? { return; }
    VisitAll(ks, domains.value, attempts, st);
  }

  /** The loop over the snapshot. */
  method VisitAll(ks: FilesystemKeystore, domains: seq<string>, attempts: nat -> Attempt, ghost st: Store)
    requires !ks.locked && ks.Contents() == st
    modifies ks
    ensures !ks.locked
    ensures ks.Contents() == Pass(st, domains, attempts, |domains|)
  {
    for i := 0 to |domains|
      invariant !ks.locked
      invariant ks.Contents() == Pass(st, domains, attempts, i)
    {
      HandleDomain(ks, domains[i], attempts(i));
    }
  }

  /** The body of the loop. */
  method HandleDomain(ks: FilesystemKeystore, domain: string, at: Attempt)
    requires !ks.locked
    modifies ks
    ensures !ks.locked
    ensures ks.Contents() == Visit(old(ks.Contents()), domain, at)
  {
    var certAndKey := ks.GetCertAndKey(domain, at.io.check);
    if certAndKey.Some? && certAndKey.value.commonName != "" && !certAndKey.value.managed { return; }
    var acmeErr := RenewCertIfNeeded(ks, domain, at);
    if acmeErr.Some? {
      MarkFailed(ks, domain, acmeErr.value, at.io.markRead, at.io.markWrite);
    }
  }
}
