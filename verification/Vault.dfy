/** `pkg/keystore/vault.go`: the keystore in a Vault server.  Every operation is a call or two to the
    server, with no lock around them; each call may fail (true: it fails). */
module VaultKeystores {
  import opened Wrappers
  import opened Keystore
  import opened FilesystemKeystores

  class VaultKeystore {
    /** The secret with the managed list, and those of the domains. */
    var managedDomains: Option<seq<ManagedDomain>>
    var domainSecrets: map<string, CertAndKey>

    ghost function Contents(): Store
      reads this
    {
      Store(if managedDomains.Some? then managedDomains.value else [], domainSecrets)
    }

    constructor ()
      ensures Contents() == EMPTY_STORE
    {
      managedDomains, domainSecrets := None, map[];
    }

    method GetCertAndKey(domain: string, fails: bool) returns (read: Option<CertAndKey>)
      ensures read == Read(Contents(), domain, fails)
    {
      if fails { return None; }
      return Some(if domain in domainSecrets then domainSecrets[domain] else EMPTY_RECORD);
    }

    method StoreCertAndKey(domain: string, data: CertAndKey, fails: bool) returns (ok: bool)
      modifies this`domainSecrets
      ensures ok == !fails
      ensures Contents() == if fails then old(Contents()) else Put(old(Contents()), domain, data)
    {
      if !fails { domainSecrets := domainSecrets[domain := data]; }
      return !fails;
    }

    method DeleteCertAndKey(domain: string, fails: bool) returns (ok: bool)
      modifies this`domainSecrets
      ensures ok == !fails
      ensures Contents() == if fails then old(Contents()) else Drop(old(Contents()), domain)
    {
      if !fails { domainSecrets := domainSecrets - {domain}; }
      return !fails;
    }

    /** `readDataIntoInterface` of the managed list; a missing secret reads as an empty list. */
    method ReadManagedDomains(fails: bool) returns (md: Option<seq<ManagedDomain>>)
      ensures md == if fails then None else Some(Contents().managed)
    {
      if fails { return None; }
      return Some(if managedDomains.Some? then managedDomains.value else []);
    }

    method GetManagedDomains(fails: bool) returns (domains: Option<seq<string>>)
      ensures domains == if fails then None else Some(Names(Contents().managed))
    {
      var md := ReadManagedDomains(fails);
      if md.None? { return None; }
      var names := NamesOf(md.value);
      return Some(names);
    }

    method IsManagedDomain(domain: string, fails: bool) returns (managed: Option<bool>)
      ensures managed == if fails then None else Some(domain in Names(Contents().managed))
    {
      var domains := GetManagedDomains(fails);
      if domains.None? { return None; }
      for i := 0 to |domains.value|
        invariant domain !in domains.value[..i]
      {
        if domains.value[i] == domain { return Some(true); }
      }
      return Some(false);
    }

    /** The first entry of that name. */
    method GetManagedDomainWithSANs(domain: string, fails: bool) returns (found: Option<ManagedDomain>)
      ensures found.Some? <==> !fails && domain in Names(Contents().managed)
      ensures found.Some? ==> exists i :: 0 <= i < |Contents().managed| && Contents().managed[i] == found.value &&
                                          found.value.domain == domain && domain !in Names(Contents().managed)[..i]
    {
      var md := ReadManagedDomains(fails);
      if md.None? { return None; }
      for i := 0 to |md.value|
        invariant domain !in Names(md.value)[..i]
      {
        if md.value[i].domain == domain {
          assert Names(md.value)[i] == domain;
          return Some(md.value[i]);
        }
      }
      return None;
    }

    /** A list that cannot be read is taken for an empty one. */
    method AddManagedDomainWithSANs(domain: string, sans: seq<string>, io: AddIo) returns (err: Option<Fail>)
      modifies this
      ensures (Contents(), err) == AddVault(old(Contents()), domain, sans, io)
    {
      var read := ReadManagedDomains(io.load);
      var md := if read.Some? then read.value else [];
      var found := ContainsDomain(md, domain);
      if found { return Some(AlreadyManaged); }
      if io.list { return Some(Unwritable); }
      managedDomains := Some(md + [ManagedDomain(domain, sans)]);

      var record := GetCertAndKey(domain, io.read);
      if record.Some? && record.value.commonName != "" && !record.value.managed {
        var _ := StoreCertAndKey(domain, record.value.(managed := true), io.write);
      } else if record.None? || record.value.commonName == "" {
        var placeholder := EMPTY_RECORD.(commonName := domain, sans := sans, managed := true, status := "pending");
        var _ := StoreCertAndKey(domain, placeholder, io.write);
      }
      return None;
    }

    method RemoveManagedDomain(domain: string, io: RemoveIo) returns (err: Option<Fail>)
      modifies this`managedDomains
      ensures (Contents(), err) == Remove(old(Contents()), domain, io)
    {
      var md := ReadManagedDomains(io.load);
      if md.None? { return Some(Unreadable); }
      var found, newDomains := FilterDomain(md.value, domain);
      if !found { return Some(NotManaged); }
      if io.list { return Some(Unwritable); }
      managedDomains := Some(newDomains);
      return None;
    }
  }
}
