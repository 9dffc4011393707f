/** `pkg/keystore/memory.go`: the in-memory keystore. */
module MemoryKeystores {
  import opened Keystore
  import opened Wrappers
  import opened Certificates

  /** The managed list as the specification has it, with no SANs. */
  function Listed(names: seq<string>): seq<ManagedDomain> {
    seq(|names|, i requires 0 <= i < |names| => ManagedDomain(names[i], []))
  }

  lemma NamesOfListed(names: seq<string>)
    ensures Names(Listed(names)) == names
  {
  }

  lemma ListedAppend(names: seq<string>, name: string)
    ensures Listed(names + [name]) == Listed(names) + [ManagedDomain(name, [])]
  {
  }

  lemma {:induction false} WithoutListed(names: seq<string>, d: string)
    ensures Without(Listed(names), d) == Listed(WithoutName(names, d))
  {
    if names != [] {
      var front, last := names[..|names| - 1], names[|names| - 1];
      assert names == front + [last];
      WithoutListed(front, d);
      ListedAppend(front, last);
      WithoutAppend(Listed(front), ManagedDomain(last, []), d);
      if last != d {
        ListedAppend(WithoutName(front, d), last);
      }
    }
  }

  class MemoryKeystore {
    var certAndKeys: map<string, CertAndKey>
    var managedDomains: seq<string>

    ghost function Contents(): Store
      reads this
    {
      Store(Listed(managedDomains), certAndKeys)
    }

    constructor ()
      ensures Contents() == EMPTY_STORE
    {
      certAndKeys, managedDomains := map[], [];
    }

    method GetCertAndKey(domain: string) returns (data: CertAndKey)
      ensures data == Fetch(Contents(), domain)
    {
      data := if domain in certAndKeys then certAndKeys[domain] else EMPTY_RECORD;
    }

    method GetLeafCert(domain: string) returns (leaf: Pem)
      ensures leaf == Fetch(Contents(), domain).leaf
    {
      leaf := if domain in certAndKeys then certAndKeys[domain].leaf else [];
    }

    method StoreCertAndKey(domain: string, data: CertAndKey)
      modifies this`certAndKeys
      ensures Contents() == Put(old(Contents()), domain, data)
    {
      certAndKeys := certAndKeys[domain := data];
    }

    method DeleteCertAndKey(domain: string)
      modifies this`certAndKeys
      ensures Contents() == Drop(old(Contents()), domain)
    {
      certAndKeys := certAndKeys - {domain};
    }

    method IsManagedDomain(domain: string) returns (managed: bool)
      ensures managed == (domain in Names(Contents().managed))
    {
      NamesOfListed(managedDomains);
      for i := 0 to |managedDomains|
        invariant domain !in managedDomains[..i]
      {
        if managedDomains[i] == domain { return true; }
      }
      return false;
    }

    method AddManagedDomainWithSANs(domain: string, sans: seq<string>) returns (err: Option<Fail>)
      modifies this
      ensures (Contents(), err) == AddMemory(old(Contents()), domain)
    {
      NamesOfListed(managedDomains);
      var found := IsManagedDomain(domain);
      if found { return Some(AlreadyManaged); }
      ListedAppend(managedDomains, domain);
      managedDomains := managedDomains + [domain];
      if domain in certAndKeys && !certAndKeys[domain].managed {
        certAndKeys := certAndKeys[domain := certAndKeys[domain].(managed := true)];
      }
      return None;
    }

    method RemoveManagedDomain(domain: string) returns (err: Option<Fail>)
      modifies this`managedDomains
      ensures (Contents(), err) == Remove(old(Contents()), domain, REMOVE_OK)
    {
      var found, newDomains := FilterName(managedDomains, domain);
      NamesOfListed(managedDomains);
      WithoutListed(managedDomains, domain);
      if !found { return Some(NotManaged); }
      managedDomains := newDomains;
      return None;
    }
  }

  method FilterName(names: seq<string>, domain: string) returns (found: bool, newDomains: seq<string>)
    ensures found == (domain in names)
    ensures newDomains == WithoutName(names, domain)
  {
    found, newDomains := false, [];
    for i := 0 to |names|
      invariant found == (domain in names[..i])
      invariant newDomains == WithoutName(names[..i], domain)
    {
      assert names[..i + 1][..i] == names[..i];
      if names[i] == domain {
        found := true;
        continue;
      }
      newDomains := newDomains + [names[i]];
    }
    assert names[..|names|] == names;
  }
}
