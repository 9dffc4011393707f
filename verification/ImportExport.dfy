/** What an import yields, and when export followed by import restores a keystore. */
module ImportExport {
  import opened Wrappers
  import opened Keystore
  import opened Backup

  /** The names of `ds` not listed before, each at its first occurrence. */
  function FirstNew(listed: seq<string>, ds: seq<string>): seq<string> {
    if ds == [] then []
    else
      var front, d := ds[..|ds| - 1], ds[|ds| - 1];
      FirstNew(listed, front) + (if d in listed || d in front then [] else [d])
  }

  lemma {:induction false} FirstNewMembers(listed: seq<string>, ds: seq<string>)
    ensures forall d :: d in FirstNew(listed, ds) <==> d in ds && d !in listed
  {
    if ds != [] {
      FirstNewMembers(listed, ds[..|ds| - 1]);
      assert ds == ds[..|ds| - 1] + [ds[|ds| - 1]];
    }
  }

  /** The record of a domain once it was added. */
  function Claimed(st: Store, data: KeystoreExport, d: string): CertAndKey {
    match Claim(Some(Fetch(st, d)), d, SansFor(data, d))
    case Some(r) => r
    case None => Fetch(st, d)
  }

  function RecordsWith(st: Store, data: KeystoreExport, added: set<string>): map<string, CertAndKey> {
    map d | d in st.records.Keys + added :: if d in added then Claimed(st, data, d) else st.records[d]
  }

  function Elems(ds: seq<string>): set<string> {
    set d | d in ds
  }

  ghost predicate Grown(st: Store, now: Store, data: KeystoreExport, added: seq<string>) {
    Names(now.managed) == Names(st.managed) + added && now.records == RecordsWith(st, data, Elems(added))
  }

  lemma {:induction false} ImportDomainsExact(st: Store, data: KeystoreExport, n: nat)
    requires n <= |data.domains|
    ensures Grown(st, ImportDomains(Filesystem, st, data, IMPORT_OK, n), data, FirstNew(Names(st.managed), data.domains[..n]))
  {
    if n == 0 {
      assert st.records == RecordsWith(st, data, Elems([]));
    } else {
      ImportDomainsExact(st, data, n - 1);
      var ds, d := data.domains[..n - 1], data.domains[n - 1];
      assert data.domains[..n][..n - 1] == ds;
      FirstNewMembers(Names(st.managed), ds);
      ImportGrows(st, ImportDomains(Filesystem, st, data, IMPORT_OK, n - 1), data, d, FirstNew(Names(st.managed), ds));
    }
  }

  lemma ImportGrows(st: Store, before: Store, data: KeystoreExport, d: string, added: seq<string>)
    requires Grown(st, before, data, added)
    ensures Grown(st, ImportDomain(Filesystem, before, data, d, false, ADD_OK), data,
                  added + (if d in Names(st.managed) || d in added then [] else [d]))
  {
    if d in Names(before.managed) {
      assert added + [] == added;
    } else {
      var r := Claim(Some(Fetch(st, d)), d, SansFor(data, d));
      assert Fetch(before, d) == Fetch(st, d);
      NamesAppend(before.managed, ManagedDomain(d, SansFor(data, d)));
      RecordsWithOneMore(st, data, added, d);
    }
  }

  lemma RecordsWithOneMore(st: Store, data: KeystoreExport, added: seq<string>, d: string)
    requires d !in added
    ensures var r := Claim(Some(Fetch(st, d)), d, SansFor(data, d));
            RecordsWith(st, data, Elems(added + [d])) ==
            if r.Some? then RecordsWith(st, data, Elems(added))[d := r.value] else RecordsWith(st, data, Elems(added))
  {
    assert Elems(added + [d]) == Elems(added) + {d};
  }

  /** The one result of an import without file errors, in whatever order the certificates came:
      the list grows by the first occurrences of the new names, the certificates replace the
      records they name, and beyond that only newly listed domains are touched: a nameless record
      gives way to a placeholder, an unmanaged one becomes managed. */
  lemma ImportExact(st: Store, data: KeystoreExport)
    requires data.version == VERSION
    ensures var after, added := HandleImport(Filesystem, st, data, IMPORT_OK).0, FirstNew(Names(st.managed), data.domains);
            var overlaid := st.(records := Overlay(st.records, data.certificates, data.certificates.Keys));
            Names(after.managed) == Names(st.managed) + added &&
            after.records == RecordsWith(overlaid, data, Elems(added))
  {
    assert data.certificates.Keys - {} == data.certificates.Keys;
    assert data.domains[..|data.domains|] == data.domains;
    ImportDomainsExact(st.(records := Overlay(st.records, data.certificates, data.certificates.Keys)), data, |data.domains|);
  }

  lemma ExportRoundTrip(r: CertAndKey)
    ensures FromExport(ToExport(r)) == r
  {
  }

  lemma {:induction false} FirstNewOfFresh(ds: seq<string>)
    ensures FirstNew([], ds) == ds <==> NoDup(ds)
    ensures |FirstNew([], ds)| <= |ds|
  {
    if ds != [] {
      var front, d := ds[..|ds| - 1], ds[|ds| - 1];
      FirstNewOfFresh(front);
      if NoDup(ds) {
        assert d !in front;
      }
      if FirstNew([], ds) == ds {
        assert d !in front;
        assert FirstNew([], ds)[..|ds| - 1] == FirstNew([], front);
        assert NoDup(front);
      }
    }
  }

  /** A named record that is marked managed; or, for the empty name, which only an import can list,
      its placeholder. */
  ghost predicate Reclaimable(d: string, r: CertAndKey) {
    (r.commonName != "" && r.managed) || r == Placeholder(d, r.sans)
  }

  /** No name is listed twice, and every listed domain has a record that adding it leaves alone. */
  ghost predicate Restorable(st: Store) {
    NoDup(Names(st.managed)) &&
    forall d :: d in Names(st.managed) ==> d in st.records && Reclaimable(d, st.records[d])
  }

  ghost function Restored(st: Store): Store {
    HandleImport(Filesystem, EMPTY_STORE, Exported(st, {}), IMPORT_OK).0
  }

  lemma RestoredExact(st: Store)
    ensures Names(Restored(st).managed) == FirstNew([], Names(st.managed))
    ensures Restored(st).records == RecordsWith(st.(managed := []), Exported(st, {}), Elems(Names(st.managed)))
  {
    var data, names := Exported(st, {}), Names(st.managed);
    ExportedOverlay(st);
    ImportExact(EMPTY_STORE, data);
    NothingListed(names);
  }

  lemma ExportedOverlay(st: Store)
    ensures var certs := Exported(st, {}).certificates; Overlay(map[], certs, certs.Keys) == st.records
  {
  }

  lemma NothingListed(names: seq<string>)
    ensures Names([]) == [] && Names([]) + FirstNew([], names) == FirstNew([], names)
    ensures Elems(FirstNew([], names)) == Elems(names)
  {
    FirstNewMembers([], names);
  }

  /** Importing an export into an empty keystore restores all the records and the ordered list of
      names exactly when the source is restorable. */
  lemma ExportImportRestores(st: Store)
    ensures Restored(st).records == st.records && Names(Restored(st).managed) == Names(st.managed) <==> Restorable(st)
  {
    RestoredExact(st);
    FirstNewOfFresh(Names(st.managed));
    ClaimsRestore(st.(managed := []), Exported(st, {}), Elems(Names(st.managed)));
  }

  lemma ClaimsRestore(st: Store, data: KeystoreExport, added: set<string>)
    requires forall d :: d in st.records ==> SansFor(data, d) == st.records[d].sans
    ensures RecordsWith(st, data, added) == st.records
            <==> forall d :: d in added ==> d in st.records && Reclaimable(d, st.records[d])
  {
    forall d | d in added
      ensures d in st.records && Claimed(st, data, d) == st.records[d] <==> d in st.records && Reclaimable(d, st.records[d])
    {
    }
    if RecordsWith(st, data, added) == st.records {
      forall d | d in added ensures d in st.records && Claimed(st, data, d) == st.records[d] {
        assert d in RecordsWith(st, data, added);
      }
    }
    if forall d :: d in added ==> d in st.records && Claimed(st, data, d) == st.records[d] {
      assert RecordsWith(st, data, added) == st.records;
    }
  }

  lemma OneNameImported(d: string)
    ensures var st := HandleImport(Filesystem, EMPTY_STORE, KeystoreExport(VERSION, map[], [d]), IMPORT_OK).0;
            Names(st.managed) == [d] && d in st.records && st.records[d] == Placeholder(d, [])
  {
    var data := KeystoreExport(VERSION, map[], [d]);
    var st := Overlaid(EMPTY_STORE, data, IMPORT_OK);
    assert st == EMPTY_STORE;
    assert ImportDomains(Filesystem, st, data, IMPORT_OK, 0) == st;
    assert ImportDomains(Filesystem, st, data, IMPORT_OK, 1) == ImportDomain(Filesystem, st, data, d, false, ADD_OK);
    NamesAppend([], ManagedDomain(d, []));
  }

  /** An import does list the empty name, which the other handlers refuse, and what it then holds is
      restorable. */
  lemma EmptyNameIsRestorable(d: string)
    requires d == ""
    ensures var st := HandleImport(Filesystem, EMPTY_STORE, KeystoreExport(VERSION, map[], [d]), IMPORT_OK).0;
            Names(st.managed) == [d] && Restorable(st)
  {
    OneNameImported(d);
  }
}
