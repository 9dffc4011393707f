/** `performFetch` of `cmd/acme-store-fetcher/main.go`: copying the server's certificates to disk.

    Texts are sequences of characters here.  `pairs(chain, key)` stands for `verifyKeyPairMatch`,
    and an `...Io` value says which file accesses and API calls fail for one domain. */
module Fetcher {
  import opened Wrappers
  import opened FileNames

  datatype CertInfo = CertInfo(commonName: string, leaf: string, chain: string, managed: bool, status: string)

  datatype Api = Api(domains: seq<string>, certs: seq<CertInfo>, keys: map<string, string>)

  type Files = map<string, string>

  datatype DomainIo = DomainIo(
    probe: bool, keyCall: bool, statCert: bool, statKey: bool, readCert: bool, readKey: bool,
    writeCert: bool, writeKey: bool, cleanup: bool)
  const IO_OK := DomainIo(false, false, false, false, false, false, false, false, false)

  /** The server's certificates by common name; of two with the same name the later one counts. */
  function CertMap(certs: seq<CertInfo>): map<string, CertInfo> {
    if certs == [] then map[]
    else
      var front, last := CertMap(certs[..|certs| - 1]), certs[|certs| - 1];
      if last.commonName != "" then front[last.commonName := last] else front
  }

  method GetAllCerts(certs: seq<CertInfo>) returns (certMap: map<string, CertInfo>)
    ensures certMap == CertMap(certs)
  {
    certMap := map[];
    for i := 0 to |certs|
      invariant certMap == CertMap(certs[..i])
    {
      assert certs[..i + 1][..i] == certs[..i];
      if certs[i].commonName != "" {
        certMap := certMap[certs[i].commonName := certs[i]];
      }
    }
    assert certs[..|certs|] == certs;
  }

  predicate IsSpace(c: char) {
    c in "\t\n\r " || c == 11 as char || c == 12 as char || c == 0x85 as char || c == 0xA0 as char ||
    c == 0x1680 as char || 0x2000 as char <= c <= 0x200A as char || c == 0x2028 as char || c == 0x2029 as char ||
    c == 0x202F as char || c == 0x205F as char || c == 0x3000 as char
  }

  /** `normalizePEM` */
  function Trim(s: string): string {
    if s != "" && IsSpace(s[0]) then Trim(s[1..])
    else if s != "" && IsSpace(s[|s| - 1]) then Trim(s[..|s| - 1])
    else s
  }

  predicate AllSpace(s: string) {
    forall c :: c in s ==> IsSpace(c)
  }

  /** The Unicode white space characters, by their codes. */
  lemma SpaceCodes(c: char)
    ensures IsSpace(c) <==> c as int in {9, 10, 11, 12, 13, 32, 0x85, 0xA0, 0x1680, 0x2028, 0x2029, 0x202F, 0x205F, 0x3000} ||
                            0x2000 <= c as int <= 0x200A
  {
  }

  /** Trimming takes away leading and trailing white space, all of it and nothing else. */
  lemma {:induction false} TrimExactly(s: string) returns (a: string, b: string)
    ensures AllSpace(a) && AllSpace(b) && s == a + Trim(s) + b
    ensures Trim(s) != "" ==> !IsSpace(Trim(s)[0]) && !IsSpace(Trim(s)[|Trim(s)| - 1])
  {
    if s != "" && IsSpace(s[0]) {
      a, b := TrimExactly(s[1..]);
      assert s == [s[0]] + s[1..];
      assert [s[0]] + (a + Trim(s) + b) == ([s[0]] + a) + Trim(s) + b;
      a := [s[0]] + a;
    } else if s != "" && IsSpace(s[|s| - 1]) {
      a, b := TrimExactly(s[..|s| - 1]);
      assert s == s[..|s| - 1] + [s[|s| - 1]];
      assert (a + Trim(s) + b) + [s[|s| - 1]] == a + Trim(s) + (b + [s[|s| - 1]]);
      b := b + [s[|s| - 1]];
    } else {
      a, b := "", "";
    }
  }

  lemma TrimFront(c: char, s: string)
    requires IsSpace(c)
    ensures Trim([c] + s) == Trim(s)
  {
    assert ([c] + s)[1..] == s;
  }

  lemma {:induction false} TrimBack(s: string, c: char)
    requires IsSpace(c)
    ensures Trim(s + [c]) == Trim(s)
  {
    if s == "" {
      assert (s + [c])[1..] == "";
    } else if IsSpace(s[0]) {
      assert (s + [c])[1..] == s[1..] + [c];
      TrimBack(s[1..], c);
    } else {
      assert (s + [c])[..|s|] == s;
    }
  }

  lemma {:induction false} TrimAround(a: string, s: string, b: string)
    requires AllSpace(a) && AllSpace(b)
    ensures Trim(a + s + b) == Trim(s)
  {
    if a != "" {
      assert a[0] in a && a + s + b == [a[0]] + (a[1..] + s + b);
      TrimFront(a[0], a[1..] + s + b);
      TrimAround(a[1..], s, b);
    } else if b != "" {
      assert b[|b| - 1] in b && a + s + b == (a + s + b[..|b| - 1]) + [b[|b| - 1]];
      TrimBack(a + s + b[..|b| - 1], b[|b| - 1]);
      TrimAround(a, s, b[..|b| - 1]);
    } else {
      assert a + s + b == s;
    }
  }

  ghost predicate Surrounds(core: string, s: string) {
    exists a, b :: AllSpace(a) && AllSpace(b) && s == a + core + b
  }

  /** The same text, but for leading and trailing white space. */
  ghost predicate SameButSpaces(s: string, t: string) {
    exists core :: Surrounds(core, s) && Surrounds(core, t)
  }

  lemma TrimDecides(s: string, t: string)
    ensures Trim(s) == Trim(t) <==> SameButSpaces(s, t)
  {
    if Trim(s) == Trim(t) {
      var a, b := TrimExactly(s);
      var c, d := TrimExactly(t);
      assert s == a + Trim(s) + b && t == c + Trim(s) + d;
      assert Surrounds(Trim(s), s) && Surrounds(Trim(s), t);
    }
    if core :| Surrounds(core, s) && Surrounds(core, t) {
      var a, b :| AllSpace(a) && AllSpace(b) && s == a + core + b;
      var c, d :| AllSpace(c) && AllSpace(d) && t == c + core + d;
      TrimAround(a, core, b);
      TrimAround(c, core, d);
    }
  }

  /******* One domain *******/

  predicate Eligible(certs: map<string, CertInfo>, d: string) {
    d in certs && certs[d].managed && (certs[d].status == "issued" || certs[d].status == "") && certs[d].leaf != ""
  }

  function ChainFor(info: CertInfo): string {
    if info.chain == "" then info.leaf else info.chain
  }

  /** The key to use: the one on disk if it fits the chain, else the server's. */
  function ChooseKey(api: Api, pairs: (string, string) -> bool, files: Files, d: string, chain: string, io: DomainIo): Option<string> {
    var onDisk := if !io.probe && KeyFile(d) in files && pairs(chain, files[KeyFile(d)]) then files[KeyFile(d)] else "";
    if onDisk != "" then Some(onDisk)
    else if !io.keyCall && d in api.keys then Some(api.keys[d])
    else None
  }

  predicate NeedsWrite(pairs: (string, string) -> bool, files: Files, d: string, chain: string, key: string, io: DomainIo) {
    if io.statCert || io.statKey || CertFile(d) !in files || KeyFile(d) !in files then true
    else if io.readCert || io.readKey then true
    else Trim(files[CertFile(d)]) != Trim(chain) || Trim(files[KeyFile(d)]) != Trim(key) || !pairs(chain, key)
  }

  datatype Verdict = Saved | Skipped | Failed

  function Process(api: Api, pairs: (string, string) -> bool, files: Files, d: string, io: DomainIo): (Files, Verdict) {
    var certs := CertMap(api.certs);
    if d !in certs then (files, Failed)
    else if !Eligible(certs, d) then (files, Skipped)
    else
      var chain := ChainFor(certs[d]);
      match ChooseKey(api, pairs, files, d, chain, io)
      case None => (files, Failed)
      case Some(key) =>
        if NeedsWrite(pairs, files, d, chain, key, io) then Written(files, d, chain, key, io) else (files, Skipped)
  }

  /** A key that cannot be written takes the certificate down with it. */
  function Written(files: Files, d: string, chain: string, key: string, io: DomainIo): (Files, Verdict) {
    if io.writeCert then (files, Failed)
    else if io.writeKey then (if io.cleanup then files[CertFile(d) := chain] else files - {CertFile(d)}, Failed)
    else (files[CertFile(d) := chain][KeyFile(d) := key], Saved)
  }

  /** What the server offers for a domain: a certificate to keep. */
  ghost predicate Offers(api: Api, d: string, info: CertInfo) {
    d in CertMap(api.certs) && info == CertMap(api.certs)[d] && info.managed && info.leaf != "" &&
    (info.status == "issued" || info.status == "")
  }

  /** A domain the server does not know is an error, and one it offers nothing for is skipped. */
  lemma NothingToKeep(api: Api, pairs: (string, string) -> bool, files: Files, d: string, io: DomainIo)
    ensures d !in CertMap(api.certs) ==> Process(api, pairs, files, d, io) == (files, Failed)
    ensures d in CertMap(api.certs) && !Offers(api, d, CertMap(api.certs)[d]) ==> Process(api, pairs, files, d, io) == (files, Skipped)
  {
  }

  /** The chain to keep is the server's, or its leaf when it sends no chain.  The key is the one on disk
      if it can be read, is not empty and fits, else the server's. */
  ghost predicate KeyToUse(api: Api, pairs: (string, string) -> bool, files: Files, d: string, chain: string, io: DomainIo, key: string) {
    var file := SafeDomain(d) + "_key.pem";
    if !io.probe && file in files && pairs(chain, files[file]) && files[file] != "" then key == files[file]
    else !io.keyCall && d in api.keys && key == api.keys[d]
  }

  /** Both files are there and can be read, they hold that chain and key up to surrounding white space,
      and the key fits. */
  ghost predicate UpToSpaces(pairs: (string, string) -> bool, files: Files, d: string, chain: string, key: string, io: DomainIo) {
    var cert, keyFile := SafeDomain(d) + "_cert-chain.pem", SafeDomain(d) + "_key.pem";
    !io.statCert && !io.statKey && !io.readCert && !io.readKey && cert in files && keyFile in files &&
    SameButSpaces(files[cert], chain) && SameButSpaces(files[keyFile], key) && pairs(chain, key)
  }

  /** Exactly when a domain with a certificate to keep is skipped, and what is written when it is not:
      the chain and the key; or, when the key cannot be written, neither, and no certificate file is
      left behind unless it cannot be taken away. */
  lemma KeptExactly(api: Api, pairs: (string, string) -> bool, files: Files, d: string, info: CertInfo, io: DomainIo, key: string)
    requires Offers(api, d, info)
    requires var chain := if info.chain == "" then info.leaf else info.chain; KeyToUse(api, pairs, files, d, chain, io, key)
    ensures var chain := if info.chain == "" then info.leaf else info.chain;
            var cert, keyFile := SafeDomain(d) + "_cert-chain.pem", SafeDomain(d) + "_key.pem";
            Process(api, pairs, files, d, io) ==
              if UpToSpaces(pairs, files, d, chain, key, io) then (files, Skipped)
              else if io.writeCert then (files, Failed)
              else if !io.writeKey then (files[cert := chain][keyFile := key], Saved)
              else if io.cleanup then (files[cert := chain], Failed)
              else (files - {cert}, Failed)
  {
    var chain := if info.chain == "" then info.leaf else info.chain;
    if CertFile(d) in files { TrimDecides(files[CertFile(d)], chain); }
    if KeyFile(d) in files { TrimDecides(files[KeyFile(d)], key); }
  }

  /** Without a key to use it is an error. */
  lemma NoKeyFails(api: Api, pairs: (string, string) -> bool, files: Files, d: string, info: CertInfo, io: DomainIo)
    requires Offers(api, d, info)
    requires var chain := if info.chain == "" then info.leaf else info.chain; forall key :: !KeyToUse(api, pairs, files, d, chain, io, key)
    ensures Process(api, pairs, files, d, io) == (files, Failed)
  {
    var chain := if info.chain == "" then info.leaf else info.chain;
    match ChooseKey(api, pairs, files, d, chain, io)
    case None =>
    case Some(key) => assert KeyToUse(api, pairs, files, d, chain, io, key);
  }

  /******* The loop *******/

  datatype Counts = Counts(saved: nat, skipped: nat, failed: nat)

  function Tally(c: Counts, v: Verdict): Counts {
    match v
    case Saved => c.(saved := c.saved + 1)
    case Skipped => c.(skipped := c.skipped + 1)
    case Failed => c.(failed := c.failed + 1)
  }

  /** Files and counts after the first `n` managed domains; the i-th one meets `io(i)`. */
  function Loop(api: Api, pairs: (string, string) -> bool, files: Files, io: nat -> DomainIo, n: nat): (Files, Counts)
    requires n <= |api.domains|
  {
    if n == 0 then (files, Counts(0, 0, 0))
    else
      var (before, counts) := Loop(api, pairs, files, io, n - 1);
      var (after, verdict) := Process(api, pairs, before, api.domains[n - 1], io(n - 1));
      (after, Tally(counts, verdict))
  }

  /** The certificate and key files of the eligible domains, in the order of the managed list. */
  function Listing(certs: map<string, CertInfo>, domains: seq<string>): seq<(string, string)> {
    if domains == [] then []
    else
      var d := domains[|domains| - 1];
      Listing(certs, domains[..|domains| - 1]) + (if Eligible(certs, d) then [(CertFile(d), KeyFile(d))] else [])
  }

  /** One more domain adds one more pair, in its place, if it has a certificate to keep. */
  lemma ListedInOrder(api: Api, domains: seq<string>, d: string)
    ensures Listing(CertMap(api.certs), []) == []
    ensures Listing(CertMap(api.certs), domains + [d]) ==
            Listing(CertMap(api.certs), domains) +
              if d in CertMap(api.certs) && Offers(api, d, CertMap(api.certs)[d])
              then [(SafeDomain(d) + "_cert-chain.pem", SafeDomain(d) + "_key.pem")] else []
  {
    assert (domains + [d])[..|domains|] == domains;
  }

  /** The Traefik file is written only after a fetch that saved something. */
  function TraefikAfter(was: Option<seq<(string, string)>>, wanted: bool, saved: nat, listing: seq<(string, string)>, fails: bool): Option<seq<(string, string)>> {
    if wanted && saved > 0 && listing != [] && !fails then Some(listing) else was
  }

  /** It stays as it was when it is not asked for, when nothing was saved or listed, or when it cannot be
      written. */
  lemma TraefikStays(was: Option<seq<(string, string)>>, wanted: bool, saved: nat, listing: seq<(string, string)>, fails: bool)
    ensures !wanted || saved == 0 || listing == [] || fails ==> TraefikAfter(was, wanted, saved, listing, fails) == was
    ensures wanted && saved > 0 && listing != [] && !fails ==> TraefikAfter(was, wanted, saved, listing, fails) == Some(listing)
  {
  }

  /******* The method *******/

  class OutputDir {
    var files: Files
    /** The generated Traefik file, which lies outside the directory. */
    var traefik: Option<seq<(string, string)>>

    constructor (files: Files, traefik: Option<seq<(string, string)>>)
      ensures this.files == files && this.traefik == traefik
    {
      this.files, this.traefik := files, traefik;
    }

    method NeedsCertificateUpdate(pairs: (string, string) -> bool, d: string, chain: string, key: string, io: DomainIo) returns (needed: bool)
      ensures needed == NeedsWrite(pairs, files, d, chain, key, io)
    {
      var certExists := CertFile(d) in files && !io.statCert;
      var keyExists := KeyFile(d) in files && !io.statKey;
      if !certExists || !keyExists { return true; }
      if io.readCert { return true; }
      if io.readKey { return true; }
      if Trim(files[CertFile(d)]) != Trim(chain) { return true; }
      if Trim(files[KeyFile(d)]) != Trim(key) { return true; }
      if !pairs(chain, key) { return true; }
      return false;
    }

    method FetchDomain(api: Api, certInfoMap: map<string, CertInfo>, pairs: (string, string) -> bool, d: string, io: DomainIo)
      returns (verdict: Verdict)
      requires certInfoMap == CertMap(api.certs)
      modifies this`files
      ensures (files, verdict) == Process(api, pairs, old(files), d, io)
    {
      if d !in certInfoMap { return Failed; }
      var certInfo := certInfoMap[d];
      if !certInfo.managed { return Skipped; }
      if certInfo.status != "issued" && certInfo.status != "" { return Skipped; }
      if certInfo.leaf == "" { return Skipped; }
      var fullChain := certInfo.chain;
      if fullChain == "" { fullChain := certInfo.leaf; }

      var privateKey := FindPrivateKey(api, pairs, d, fullChain, io);
      if privateKey.None? { return Failed; }
      var needsUpdate := NeedsCertificateUpdate(pairs, d, fullChain, privateKey.value, io);
      if !needsUpdate { return Skipped; }
      verdict := WritePair(d, fullChain, privateKey.value, io);
    }

    method FindPrivateKey(api: Api, pairs: (string, string) -> bool, d: string, fullChain: string, io: DomainIo) returns (key: Option<string>)
      ensures key == ChooseKey(api, pairs, files, d, fullChain, io)
    {
      var privateKey := "";
      if !io.probe && KeyFile(d) in files {
        var existingKey := files[KeyFile(d)];
        if pairs(fullChain, existingKey) { privateKey := existingKey; }
      }
      if privateKey == "" {
        if io.keyCall || d !in api.keys { return None; }
        privateKey := api.keys[d];
      }
      return Some(privateKey);
    }

    method WritePair(d: string, fullChain: string, privateKey: string, io: DomainIo) returns (verdict: Verdict)
      modifies this`files
      ensures (files, verdict) == Written(old(files), d, fullChain, privateKey, io)
    {
      if io.writeCert { return Failed; }
      ghost var before := files;
      files := files[CertFile(d) := fullChain];
      if io.writeKey {
        if !io.cleanup {
          files := files - {CertFile(d)};
          assert files == before - {CertFile(d)};
        }
        return Failed;
      }
      files := files[KeyFile(d) := privateKey];
      return Saved;
    }

    method GenerateTraefikConfig(certInfoMap: map<string, CertInfo>, domains: seq<string>, writeFails: bool) returns (ok: bool)
      modifies this`traefik
      ensures ok == (Listing(certInfoMap, domains) != [] && !writeFails)
      ensures traefik == if ok then Some(Listing(certInfoMap, domains)) else old(traefik)
    {
      var certificates := ListCertificates(certInfoMap, domains);
      if |certificates| == 0 { return false; }
      if writeFails { return false; }
      traefik := Some(certificates);
      return true;
    }

    /** None for `domains` or `certs` is a failed API call. */
    method PerformFetch(domains: Option<seq<string>>, certs: Option<seq<CertInfo>>, keys: map<string, string>,
                        pairs: (string, string) -> bool, wantTraefik: bool, io: nat -> DomainIo, traefikFails: bool)
      returns (code: int)
      modifies this
      ensures domains.None? || certs.None? || domains == Some([]) ==>
                files == old(files) && traefik == old(traefik) && code == if domains == Some([]) then 0 else 1
      ensures domains.Some? && certs.Some? && domains != Some([]) ==>
                var api := Api(domains.value, certs.value, keys);
                var (after, counts) := Loop(api, pairs, old(files), io, |api.domains|);
                var listing := Listing(CertMap(api.certs), api.domains);
                files == after &&
                traefik == TraefikAfter(old(traefik), wantTraefik, counts.saved, listing, traefikFails) &&
                code == if counts.failed > 0 || (wantTraefik && counts.saved > 0 && (listing == [] || traefikFails)) then 1 else 0
    {
      if domains.None? { return 1; }
      if |domains.value| == 0 { return 0; }
      if certs.None? { return 1; }
      var api := Api(domains.value, certs.value, keys);
      var certInfoMap := GetAllCerts(api.certs);
      var successCount, skipCount, errorCount := 0, 0, 0;
      for i := 0 to |api.domains|
        invariant (files, Counts(successCount, skipCount, errorCount)) == Loop(api, pairs, old(files), io, i)
        invariant traefik == old(traefik)
      {
        var verdict := FetchDomain(api, certInfoMap, pairs, api.domains[i], io(i));
        match verdict
        case Saved => successCount := successCount + 1;
        case Skipped => skipCount := skipCount + 1;
        case Failed => errorCount := errorCount + 1;
      }
      if wantTraefik && successCount > 0 {
        var ok := GenerateTraefikConfig(certInfoMap, api.domains, traefikFails);
        if !ok { errorCount := errorCount + 1; }
      }
      return if errorCount > 0 then 1 else 0;
    }
  }

  method ListCertificates(certInfoMap: map<string, CertInfo>, domains: seq<string>) returns (certificates: seq<(string, string)>)
    ensures certificates == Listing(certInfoMap, domains)
  {
    certificates := [];
    for i := 0 to |domains|
      invariant certificates == Listing(certInfoMap, domains[..i])
    {
      assert domains[..i + 1][..i] == domains[..i];
      var d := domains[i];
      if d !in certInfoMap || !certInfoMap[d].managed || (certInfoMap[d].status != "issued" && certInfoMap[d].status != "") { continue; }
      if certInfoMap[d].leaf == "" { continue; }
      certificates := certificates + [(CertFile(d), KeyFile(d))];
    }
    assert domains[..|domains|] == domains;
  }
}
