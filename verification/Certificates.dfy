/** PEM text, certificates and the renewal deadline: `pkg/crypto/certificates.go`.

    A PEM text is a sequence of pieces: characters outside any block, and whole blocks.  A block
    carries its type and what parsing its bytes as an X.509 certificate yields, so the parser
    itself stays outside the model.
  */
module Certificates {
  import opened Wrappers

  datatype X509 = X509(
    serial: int, isCA: bool, subjectCN: string, dnsNames: seq<string>,
    notBefore: int, notAfter: int, publicKey: int)

  datatype Piece = Text(c: char) | Block(kind: string, parsed: Option<X509>)

  type Pem = seq<Piece>

  const CERTIFICATE := "CERTIFICATE"
  /** Clock readings and certificate dates are in seconds. */
  const DAY := 86400
  const RENEWAL_DAYS := 21

  /** Decoding consumes input up to and including the first block. */
  function NextBlock(p: Pem): (r: (Option<Piece>, Pem))
    ensures r.0.Some? ==> r.0.value.Block? && |r.1| < |p|
  {
    if p == [] then (None, p)
    else if p[0].Block? then (Some(p[0]), p[1..])
    else
      var (b, rest) := NextBlock(p[1..]);
      if b.Some? then (b, rest) else (None, p)
  }

  /** The certificate a single piece contributes, if any. */
  function CertsOf(b: Piece): seq<X509> {
    if b.Block? && b.kind == CERTIFICATE && b.parsed.Some? then [b.parsed.value] else []
  }

  function CertsIn(p: Pem): seq<X509> {
    if p == [] then [] else CertsOf(p[0]) + CertsIn(p[1..])
  }

  lemma {:induction false} NextBlockSplitsCerts(p: Pem)
    ensures match NextBlock(p)
            case (Some(b), rest) => CertsIn(p) == CertsOf(b) + CertsIn(rest)
            case (None, _) => CertsIn(p) == []
  {
    if p != [] && p[0].Text? {
      NextBlockSplitsCerts(p[1..]);
    }
  }

  method GetCerts(chain: Pem) returns (certs: seq<X509>)
    ensures certs == CertsIn(chain)
  {
    certs := [];
    var rest := chain;
    while true
      invariant certs + CertsIn(rest) == CertsIn(chain)
      decreases |rest|
    {
      NextBlockSplitsCerts(rest);
      var (block, tail) := NextBlock(rest);
      if block.None? { break; }
      assert certs + CertsIn(rest) == certs + CertsOf(block.value) + CertsIn(tail);
      rest := tail;
      if block.value.kind == CERTIFICATE {
        if block.value.parsed.None? {
          assert certs + [] == certs;
          continue;
        }
        certs := certs + [block.value.parsed.value];
      } else {
        assert certs + [] == certs;
      }
    }
  }

  function FirstLeaf(certs: seq<X509>): (leaf: Option<X509>)
    ensures leaf.Some? ==> leaf.value in certs && !leaf.value.isCA
    ensures leaf.None? ==> forall c :: c in certs ==> c.isCA
  {
    if certs == [] then None
    else if !certs[0].isCA then Some(certs[0])
    else FirstLeaf(certs[1..])
  }

  function LeafIn(p: Pem): Option<X509> {
    FirstLeaf(CertsIn(p))
  }

  method GetLeafCert(chain: Pem) returns (leaf: Option<X509>)
    ensures leaf == LeafIn(chain)
  {
    var certs := GetCerts(chain);
    for i := 0 to |certs|
      invariant FirstLeaf(certs) == FirstLeaf(certs[i..])
    {
      if !certs[i].isCA { return Some(certs[i]); }
    }
    return None;
  }

  function IssuersIn(certs: seq<X509>): seq<string> {
    if certs == [] then []
    else IssuersIn(certs[..|certs| - 1]) +
         (if certs[|certs| - 1].isCA then [certs[|certs| - 1].subjectCN] else [])
  }

  method GetIssuersCN(chain: Pem) returns (issuers: seq<string>)
    ensures issuers == IssuersIn(CertsIn(chain))
  {
    var certs := GetCerts(chain);
    issuers := [];
    for i := 0 to |certs|
      invariant issuers == IssuersIn(certs[..i])
    {
      assert certs[..i + 1][..i] == certs[..i];
      if certs[i].isCA { issuers := issuers + [certs[i].subjectCN]; }
    }
    assert certs[..|certs|] == certs;
  }

  lemma CertsInCons(b: Piece, p: Pem)
    ensures CertsIn([b] + p) == CertsOf(b) + CertsIn(p)
  {
    assert ([b] + p)[1..] == p;
  }

  lemma {:induction false} CertsInAppend(a: Pem, b: Pem)
    ensures CertsIn(a + b) == CertsIn(a) + CertsIn(b)
  {
    if a == [] {
      assert a + b == b;
    } else {
      calc {
        CertsIn(a + b);
        { assert a + b == [a[0]] + (a[1..] + b); CertsInCons(a[0], a[1..] + b); }
        CertsOf(a[0]) + CertsIn(a[1..] + b);
        { CertsInAppend(a[1..], b); }
        CertsOf(a[0]) + (CertsIn(a[1..]) + CertsIn(b));
        (CertsOf(a[0]) + CertsIn(a[1..])) + CertsIn(b);
        CertsIn(a) + CertsIn(b);
      }
    }
  }

  lemma {:induction false} FirstLeafAfterIssuers(cas: seq<X509>, leaf: X509, rest: seq<X509>)
    requires (forall c :: c in cas ==> c.isCA) && !leaf.isCA
    ensures FirstLeaf(cas + [leaf] + rest) == Some(leaf)
  {
    if cas != [] {
      FirstLeafAfterIssuers(cas[1..], leaf, rest);
      assert (cas + [leaf] + rest)[1..] == cas[1..] + [leaf] + rest;
    }
  }

  lemma {:induction false} IssuersInAppend(a: seq<X509>, b: seq<X509>)
    ensures IssuersIn(a + b) == IssuersIn(a) + IssuersIn(b)
  {
    if b == [] {
      assert a + b == a;
    } else {
      IssuersInAppend(a, b[..|b| - 1]);
      assert (a + b)[..|a + b| - 1] == a + b[..|b| - 1];
    }
  }

  /** A piece contributes its certificate exactly if it is a block of that type that parses... */
  lemma PieceInText(a: Pem, p: Piece, b: Pem)
    ensures CertsIn([]) == []
    ensures CertsIn(a + [p] + b) ==
            CertsIn(a) + (if p.Block? && p.kind == "CERTIFICATE" && p.parsed.Some? then [p.parsed.value] else []) + CertsIn(b)
  {
    CertsInAppend(a + [p], b);
    CertsInAppend(a, [p]);
    CertsInCons(p, []);
    assert [p] + [] == [p];
  }

  /** ...and a certificate contributes an issuer's name exactly if it is an authority's. */
  lemma CertInChain(a: seq<X509>, c: X509, b: seq<X509>)
    ensures IssuersIn([]) == []
    ensures IssuersIn(a + [c] + b) == IssuersIn(a) + (if c.isCA then [c.subjectCN] else []) + IssuersIn(b)
  {
    IssuersInAppend(a + [c], b);
    assert (a + [c])[..|a|] == a;
  }

  function CertToPem(cert: X509): Pem {
    [Block(CERTIFICATE, Some(cert))]
  }

  lemma LeafRoundTrip(cert: X509)
    requires !cert.isCA
    ensures LeafIn(CertToPem(cert)) == Some(cert)
  {
    assert CertsIn(CertToPem(cert)) == [cert] + CertsIn([]);
  }

  /** A text without a leaf, the empty one included, always needs an update. */
  function NeedsUpdate(p: Pem, now: int): bool {
    match LeafIn(p)
    case None => true
    case Some(leaf) => now + RENEWAL_DAYS * DAY > leaf.notAfter
  }

  /** Three weeks are 1814400 seconds; on the very second the certificate is not yet due. */
  lemma DueInSeconds(leaf: X509, now: int)
    requires !leaf.isCA
    ensures NeedsUpdate([], now)
    ensures NeedsUpdate([Block("CERTIFICATE", Some(leaf))], now) <==> now + 1814400 > leaf.notAfter
  {
    LeafRoundTrip(leaf);
  }

  lemma NeedsUpdateMonotone(p: Pem, now: int, later: int)
    requires now <= later && NeedsUpdate(p, now)
    ensures NeedsUpdate(p, later)
  {
  }

  method CheckIfCertNeedsUpdate(chain: Pem, now: int) returns (needed: bool)
    ensures needed == NeedsUpdate(chain, now)
  {
    var deadline := now + RENEWAL_DAYS * DAY;
    var leaf := GetLeafCert(chain);
    if leaf.Some? {
      if !(deadline > leaf.value.notAfter) { return false; }
    }
    return true;
  }
}
