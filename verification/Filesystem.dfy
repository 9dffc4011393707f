/** `pkg/keystore/filesystem.go`: one file for the managed list, one file per stored domain, one
    lock.  Each method takes the outcome of its file accesses as parameters (true: it fails). */
module FilesystemKeystores {
  import opened Wrappers
  import opened Keystore
  import opened Certificates
  import FileNames

  function DomainsOf(files: map<string, CertAndKey>): set<string> {
    set f | f in files && FileNames.IsDomainFile(f) :: FileNames.FileDomain(f)
  }

  /** The records found in the domains directory, whatever else lies there. */
  function RecordsOf(files: map<string, CertAndKey>): map<string, CertAndKey> {
    map d | d in DomainsOf(files) && FileNames.DomainFile(d) in files :: files[FileNames.DomainFile(d)]
  }

  lemma RecordsByFile(files: map<string, CertAndKey>, d: string)
    ensures d in RecordsOf(files) <==> FileNames.DomainFile(d) in files
    ensures d in RecordsOf(files) ==> RecordsOf(files)[d] == files[FileNames.DomainFile(d)]
  {
    FileNames.DomainFileInverts(d);
  }

  lemma RecordsAfterWrite(files: map<string, CertAndKey>, d: string, r: CertAndKey)
    ensures RecordsOf(files[FileNames.DomainFile(d) := r]) == RecordsOf(files)[d := r]
  {
    var after := files[FileNames.DomainFile(d) := r];
    forall e ensures e in RecordsOf(after) <==> e in RecordsOf(files)[d := r]
             ensures e in RecordsOf(after) ==> RecordsOf(after)[e] == RecordsOf(files)[d := r][e]
    {
      RecordsByFile(files, e);
      RecordsByFile(after, e);
      if FileNames.DomainFile(e) == FileNames.DomainFile(d) { FileNames.DomainFileInjective(e, d); }
    }
  }

  lemma RecordsAfterRemove(files: map<string, CertAndKey>, d: string)
    ensures RecordsOf(files - {FileNames.DomainFile(d)}) == RecordsOf(files) - {d}
  {
    var after := files - {FileNames.DomainFile(d)};
    forall e ensures e in RecordsOf(after) <==> e in RecordsOf(files) - {d}
             ensures e in RecordsOf(after) ==> RecordsOf(after)[e] == (RecordsOf(files) - {d})[e]
    {
      RecordsByFile(files, e);
      RecordsByFile(after, e);
      if FileNames.DomainFile(e) == FileNames.DomainFile(d) { FileNames.DomainFileInjective(e, d); }
    }
  }

  datatype DirEntry = DirEntry(name: string, isDir: bool)

  /** What reading the domains directory gives. */
  datatype Directory = Unlistable | Missing | Listing(entries: seq<DirEntry>)

  /** No two entries have one name, and the plain files are the ones in `files`. */
  ghost predicate Shows(dir: Directory, files: map<string, CertAndKey>) {
    match dir
    case Unlistable => true
    case Missing => files == map[]
    case Listing(entries) =>
      (forall i, j :: 0 <= i < j < |entries| ==> entries[i].name != entries[j].name) &&
      (forall f :: f in files <==> DirEntry(f, false) in entries)
  }

  class FilesystemKeystore {
    var managedFile: Option<seq<ManagedDomain>>
    var domainFiles: map<string, CertAndKey>
    /** Whether this goroutine holds the lock, for reading or for writing.  `Lock` requires it not
        to: a goroutine that acquires a lock it holds waits for itself. */
    var locked: bool

    ghost function Contents(): Store
      reads this`managedFile, this`domainFiles
    {
      Store(if managedFile.Some? then managedFile.value else [], RecordsOf(domainFiles))
    }

    constructor ()
      ensures Contents() == EMPTY_STORE && !locked
    {
      managedFile, domainFiles, locked := None, map[], false;
    }

    method Lock()
      requires !locked
      modifies this`locked
      ensures locked
    {
      locked := true;
    }

    method Unlock()
      requires locked
      modifies this`locked
      ensures !locked
    {
      locked := false;
    }

    /******* Certificates *******/

    method GetCertAndKey(domain: string, fails: bool) returns (read: Option<CertAndKey>)
      requires !locked
      modifies this`locked
      ensures !locked
      ensures read == Read(Contents(), domain, fails)
    {
      Lock();
      var path := FileNames.DomainFile(domain);
      RecordsByFile(domainFiles, domain);
      if fails {
        read := None;
      } else if path in domainFiles {
        read := Some(domainFiles[path]);
      } else {
        read := Some(EMPTY_RECORD);
      }
      Unlock();
    }

    method GetLeafCert(domain: string, fails: bool) returns (leaf: Option<Pem>)
      requires !locked
      modifies this`locked
      ensures !locked
      ensures leaf == if fails then None else Some(Fetch(Contents(), domain).leaf)
    {
      var data := GetCertAndKey(domain, fails);
      leaf := if data.None? then None else Some(data.value.leaf);
    }

    method StoreCertAndKey(domain: string, data: CertAndKey, fails: bool) returns (ok: bool)
      requires !locked
      modifies this`domainFiles, this`locked
      ensures !locked
      ensures ok == !fails
      ensures Contents() == if fails then old(Contents()) else Put(old(Contents()), domain, data)
    {
      Lock();
      ok := !fails;
      if ok {
        RecordsAfterWrite(domainFiles, domain, data);
        domainFiles := domainFiles[FileNames.DomainFile(domain) := data];
      }
      Unlock();
    }

    method DeleteCertAndKey(domain: string, fails: bool) returns (ok: bool)
      requires !locked
      modifies this`domainFiles, this`locked
      ensures !locked
      ensures ok == !fails
      ensures Contents() == if fails then old(Contents()) else Drop(old(Contents()), domain)
    {
      Lock();
      ok := !fails;
      if ok {
        RecordsAfterRemove(domainFiles, domain);
        domainFiles := domainFiles - {FileNames.DomainFile(domain)};
      }
      Unlock();
    }

    /** `dir` is the directory, its entries in the order the system gives them. */
    method GetAllDomains(dir: Directory) returns (domains: Option<seq<string>>)
      requires !locked && Shows(dir, domainFiles)
      modifies this`locked
      ensures !locked
      ensures domains.None? <==> dir.Unlistable?
      ensures domains.Some? ==> NoDup(domains.value) && forall d :: d in domains.value <==> d in Contents().records
    {
      Lock();
      match dir {
        case Unlistable =>
          domains := None;
        case Missing =>
          domains := Some([]);
        case Listing(entries) =>
          var found := DomainsListed(entries);
          forall d ensures d in found <==> d in Contents().records {
            RecordsByFile(domainFiles, d);
          }
          domains := Some(found);
      }
      Unlock();
    }

    /******* The managed list *******/

    method LoadManagedDomains(fails: bool) returns (md: Option<seq<ManagedDomain>>)
      requires locked
      ensures md == if fails then None else Some(Contents().managed)
    {
      if fails { return None; }
      return if managedFile.None? then Some([]) else managedFile;
    }

    method StoreManagedDomains(md: seq<ManagedDomain>, fails: bool) returns (ok: bool)
      requires locked
      modifies this`managedFile
      ensures ok == !fails
      ensures Contents() == if fails then old(Contents()) else old(Contents()).(managed := md)
    {
      if !fails { managedFile := Some(md); }
      return !fails;
    }

    method GetManagedDomains(fails: bool) returns (domains: Option<seq<string>>)
      requires !locked
      modifies this`locked
      ensures !locked
      ensures domains == if fails then None else Some(Names(Contents().managed))
    {
      Lock();
      var md := LoadManagedDomains(fails);
      if md.None? {
        Unlock();
        return None;
      }
      var names := NamesOf(md.value);
      Unlock();
      return Some(names);
    }

    method IsManagedDomain(domain: string, fails: bool) returns (managed: Option<bool>)
      requires !locked
      modifies this`locked
      ensures !locked
      ensures managed == if fails then None else Some(domain in Names(Contents().managed))
    {
      Lock();
      var md := LoadManagedDomains(fails);
      if md.None? {
        Unlock();
        return None;
      }
      var found := ContainsDomain(md.value, domain);
      Unlock();
      return Some(found);
    }

    /** Three critical sections: the list, the read of the record, and its write.  Between them the
        lock is free, and it is re-acquired only to be released on return. */
    method AddManagedDomainWithSANs(domain: string, sans: seq<string>, io: AddIo) returns (err: Option<Fail>)
      requires !locked
      modifies this
      ensures !locked
      ensures (Contents(), err) == AddFilesystem(old(Contents()), domain, sans, io)
    {
      Lock();
      var md := LoadManagedDomains(io.load);
      if md.None? {
        Unlock();
        return Some(Unreadable);
      }
      var found := ContainsDomain(md.value, domain);
      if found {
        Unlock();
        return Some(AlreadyManaged);
      }
      var stored := StoreManagedDomains(md.value + [ManagedDomain(domain, sans)], io.list);
      if !stored {
        Unlock();
        return Some(Unwritable);
      }

      Unlock();
      var read := GetCertAndKey(domain, io.read);
      Lock();

      if read.Some? && read.value.commonName != "" && !read.value.managed {
        Unlock();
        var _ := StoreCertAndKey(domain, read.value.(managed := true), io.write);
        Lock();
      } else if read.None? || read.value.commonName == "" {
        var placeholder := EMPTY_RECORD.(commonName := domain, sans := sans, managed := true, status := "pending");
        Unlock();
        var _ := StoreCertAndKey(domain, placeholder, io.write);
        Lock();
      }
      Unlock();
      return None;
    }

    method RemoveManagedDomain(domain: string, io: RemoveIo) returns (err: Option<Fail>)
      requires !locked
      modifies this`managedFile, this`locked
      ensures !locked
      ensures (Contents(), err) == Remove(old(Contents()), domain, io)
    {
      Lock();
      var md := LoadManagedDomains(io.load);
      if md.None? {
        Unlock();
        return Some(Unreadable);
      }
      var found, newDomains := FilterDomain(md.value, domain);
      if !found {
        Unlock();
        return Some(NotManaged);
      }
      var stored := StoreManagedDomains(newDomains, io.list);
      Unlock();
      return if stored then None else Some(Unwritable);
    }
  }

  method ContainsDomain(md: seq<ManagedDomain>, domain: string) returns (found: bool)
    ensures found == (domain in Names(md))
  {
    for i := 0 to |md|
      invariant domain !in Names(md)[..i]
    {
      if md[i].domain == domain {
        assert Names(md)[i] == domain;
        return true;
      }
    }
    return false;
  }

  method NamesOf(md: seq<ManagedDomain>) returns (names: seq<string>)
    ensures names == Names(md)
  {
    names := [];
    for i := 0 to |md|
      invariant names == Names(md[..i])
    {
      NamesAppend(md[..i], md[i]);
      assert md[..i + 1] == md[..i] + [md[i]];
      names := names + [md[i].domain];
    }
    assert md[..|md|] == md;
  }

  method FilterDomain(md: seq<ManagedDomain>, domain: string) returns (found: bool, newDomains: seq<ManagedDomain>)
    ensures found == (domain in Names(md))
    ensures newDomains == Without(md, domain)
  {
    found, newDomains := false, [];
    for i := 0 to |md|
      invariant found == (domain in Names(md[..i]))
      invariant newDomains == Without(md[..i], domain)
    {
      assert md[..i + 1] == md[..i] + [md[i]];
      NamesAppend(md[..i], md[i]);
      WithoutAppend(md[..i], md[i], domain);
      if md[i].domain == domain {
        found := true;
        continue;
      }
      newDomains := newDomains + [md[i]];
    }
    assert md[..|md|] == md;
  }

  method DomainsListed(entries: seq<DirEntry>) returns (domains: seq<string>)
    requires forall i, j :: 0 <= i < j < |entries| ==> entries[i].name != entries[j].name
    ensures NoDup(domains)
    ensures forall d :: d in domains <==> DirEntry(FileNames.DomainFile(d), false) in entries
  {
    domains := [];
    for i := 0 to |entries|
      invariant NoDup(domains)
      invariant forall d :: d in domains <==> DirEntry(FileNames.DomainFile(d), false) in entries[..i]
    {
      assert entries[..i + 1] == entries[..i] + [entries[i]];
      if !entries[i].isDir && FileNames.IsDomainFile(entries[i].name) {
        var domain := FileNames.FileDomain(entries[i].name);
        assert entries[i] !in entries[..i];
        forall d ensures d in domains + [domain] <==> DirEntry(FileNames.DomainFile(d), false) in entries[..i + 1] {
          if FileNames.DomainFile(d) == entries[i].name { FileNames.DomainFileInjective(d, domain); }
        }
        domains := domains + [domain];
      } else {
        forall d ensures DirEntry(FileNames.DomainFile(d), false) != entries[i] {
          FileNames.DomainFileInverts(d);
        }
      }
    }
    assert entries[..|entries|] == entries;
  }
}
