/** Runs of the server: handlers and worker passes, one after the other, each with whichever accesses
    fail.  (Those of the memory keystore never do: its runs are the smooth ones.) */
module Operations {
  import opened Certificates
  import opened Keystore
  import opened Handlers
  import opened Backup
  import opened Renewal

  datatype Op =
    | AddDomain(d: string, sans: seq<string>, addIo: AddIo)
    | RemoveDomain(d: string, deleteCert: bool, detachIo: DetachIo)
    | DeleteCert(d: string, readFails: bool, dropFails: bool)
    | ImportKeystore(data: KeystoreExport, importIo: ImportIo)
    | RunWorker(attempts: nat -> Attempt)

  /** The resulting store, and the status code a handler answers. */
  function Apply(b: Backend, st: Store, op: Op): (Store, int) {
    match op
    case AddDomain(d, sans, io) => HandleAdd(b, st, d, sans, io)
    case RemoveDomain(d, deleteCert, io) => HandleRemove(st, d, deleteCert, io)
    case DeleteCert(d, readFails, dropFails) => HandleDeleteCert(st, d, readFails, dropFails)
    case ImportKeystore(data, io) => HandleImport(b, st, data, io)
    case RunWorker(attempts) => (Work(st, attempts), 0)
  }

  /** A handler that meets no failed access. */
  ghost predicate Smooth(op: Op) {
    match op
    case AddDomain(_, _, io) => io == ADD_OK
    case RemoveDomain(_, _, io) => io == DETACH_OK
    case DeleteCert(_, readFails, dropFails) => !readFails && !dropFails
    case ImportKeystore(_, io) => io == IMPORT_OK
    case RunWorker(_) => true
  }

  function Run(b: Backend, st: Store, ops: seq<Op>): Store {
    if ops == [] then st else Apply(b, Run(b, st, ops[..|ops| - 1]), ops[|ops| - 1]).0
  }

  /** What every certificate authority is asked for: a leaf that names the domain. */
  ghost predicate NamesItsLeaf(ca: CaAnswer) {
    ca.Obtained? ==> (LeafIn(ca.chain).Some? ==> CertName(LeafIn(ca.chain).value) != "")
  }

  ghost predicate NamingWorker(op: Op) {
    op.RunWorker? ==> forall i: nat :: NamesItsLeaf(op.attempts(i).ca)
  }

  ghost predicate Reliable(at: Attempt) {
    at.io == RENEW_OK && NamesItsLeaf(at.ca)
  }

  ghost predicate ReliableWorker(op: Op) {
    op.RunWorker? ==> forall i: nat :: Reliable(op.attempts(i))
  }
}
