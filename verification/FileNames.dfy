/** The two mappings from domain names to file names, and the names the web UI accepts. */
module FileNames {

  /******* The keystore's `<domain>.json` *******/

  const JSON := ".json"

  function DomainFile(d: string): string {
    d + JSON
  }

  predicate IsDomainFile(f: string) {
    |f| >= |JSON| && f[|f| - |JSON|..] == JSON
  }

  function FileDomain(f: string): (d: string)
    requires IsDomainFile(f)
    ensures DomainFile(d) == f
  {
    assert f == f[..|f| - |JSON|] + f[|f| - |JSON|..];
    f[..|f| - |JSON|]
  }

  lemma DomainFileInverts(d: string)
    ensures IsDomainFile(DomainFile(d)) && FileDomain(DomainFile(d)) == d
  {
    assert DomainFile(d)[|d|..] == JSON;
  }

  lemma DomainFileInjective(d: string, e: string)
    requires DomainFile(d) == DomainFile(e)
    ensures d == e
  {
    DomainFileInverts(d);
    DomainFileInverts(e);
  }

  /******* The fetcher's `<safe domain>_cert-chain.pem` and `<safe domain>_key.pem` *******/

  const WILD := "_wild_"
  const CERT_SUFFIX := "_cert-chain.pem"
  const KEY_SUFFIX := "_key.pem"

  function SafeDomain(d: string): string {
    if d == "" then "" else (if d[0] == '*' then WILD else [d[0]]) + SafeDomain(d[1..])
  }

  function CertFile(d: string): string {
    SafeDomain(d) + CERT_SUFFIX
  }

  function KeyFile(d: string): string {
    SafeDomain(d) + KEY_SUFFIX
  }

  /** The names in full: `*` is spelled out, every other character stays. */
  lemma FileNamesInFull(d: string, p: string, s: string)
    requires '*' !in p
    ensures DomainFile(d) == d + ".json"
    ensures CertFile(d) == SafeDomain(d) + "_cert-chain.pem" && KeyFile(d) == SafeDomain(d) + "_key.pem"
    ensures SafeDomain(p) == p && SafeDomain(p + "*" + s) == p + "_wild_" + SafeDomain(s)
  {
    SafePrefix(p, "");
    assert p + "" == p && p + "*" + s == p + ("*" + s);
    SafePrefix(p, "*" + s);
    assert ("*" + s)[1..] == s;
  }

  lemma CertFileNeverKeyFile(d: string, e: string)
    ensures CertFile(d) != KeyFile(e)
  {
    var c, k := CertFile(d), KeyFile(e);
    assert c[|c| - 5] == CERT_SUFFIX[|CERT_SUFFIX| - 5] == 'n';
    assert k[|k| - 5] == KEY_SUFFIX[|KEY_SUFFIX| - 5] == 'y';
  }

  lemma FilesFollowSafeDomain(d: string, e: string)
    ensures CertFile(d) == CertFile(e) <==> SafeDomain(d) == SafeDomain(e)
    ensures KeyFile(d) == KeyFile(e) <==> SafeDomain(d) == SafeDomain(e)
  {
    if CertFile(d) == CertFile(e) {
      assert SafeDomain(d) == CertFile(d)[..|CertFile(d)| - |CERT_SUFFIX|];
      assert SafeDomain(e) == CertFile(e)[..|CertFile(e)| - |CERT_SUFFIX|];
    }
    if KeyFile(d) == KeyFile(e) {
      assert SafeDomain(d) == KeyFile(d)[..|KeyFile(d)| - |KEY_SUFFIX|];
      assert SafeDomain(e) == KeyFile(e)[..|KeyFile(e)| - |KEY_SUFFIX|];
    }
  }

  /** Names free of '_' map to distinct files. */
  lemma {:induction false} SafeDomainInjective(d: string, e: string)
    requires '_' !in d && '_' !in e
    requires SafeDomain(d) == SafeDomain(e)
    ensures d == e
  {
    if d != "" && e != "" {
      HeadDecidesSafe(d);
      HeadDecidesSafe(e);
      var cut := if d[0] == '*' then |WILD| else 1;
      assert SafeDomain(d[1..]) == SafeDomain(d)[cut..];
      assert SafeDomain(e[1..]) == SafeDomain(e)[cut..];
      SafeDomainInjective(d[1..], e[1..]);
    }
  }

  lemma HeadDecidesSafe(d: string)
    requires d != "" && '_' !in d
    ensures SafeDomain(d) != "" && SafeDomain(d)[0] == if d[0] == '*' then '_' else d[0]
  {
  }

  lemma {:induction false} SafePrefix(p: string, s: string)
    requires '*' !in p
    ensures SafeDomain(p + s) == p + SafeDomain(s)
  {
    if p == "" {
      assert p + s == s;
    } else {
      SafePrefix(p[1..], s);
      assert (p + s)[0] == p[0] && (p + s)[1..] == p[1..] + s;
    }
  }

  /** With underscores the mapping collides: any two domains of these forms share both files. */
  lemma UnderscoresCollide(s: string)
    ensures SafeDomain("*" + s) == SafeDomain(WILD + s)
  {
    SafePrefix(WILD, s);
    assert ("*" + s)[1..] == s;
  }

  /******* The pattern of `addDomain` *******/

  predicate Alnum(c: char) {
    'a' <= c <= 'z' || 'A' <= c <= 'Z' || '0' <= c <= '9'
  }

  predicate Label(s: string) {
    s != "" && Alnum(s[0]) && Alnum(s[|s| - 1]) && forall c :: c in s ==> Alnum(c) || c == '-'
  }

  /** One or more labels separated by dots. */
  ghost predicate Labels(s: string)
    decreases |s|
  {
    Label(s) || exists i :: 0 <= i < |s| && s[i] == '.' && Label(s[..i]) && Labels(s[i + 1..])
  }

  ghost predicate AcceptedByUI(s: string) {
    Labels(s) || (|s| >= 2 && s[..2] == "*." && Labels(s[2..]))
  }

  /** What the pattern accepts: labels of letters and digits, with hyphens inside, joined by dots, and with
      `*.` in front or not... */
  lemma AcceptedForms(part: string, rest: string)
    requires part != "" && (forall c :: c in part ==> 'a' <= c <= 'z' || 'A' <= c <= 'Z' || '0' <= c <= '9' || c == '-') && part[0] != '-' && part[|part| - 1] != '-'
    ensures AcceptedByUI(part) && AcceptedByUI("*." + part)
    ensures Labels(rest) ==> AcceptedByUI(part + "." + rest) && AcceptedByUI("*." + part + "." + rest)
  {
    assert part[0] in part && part[|part| - 1] in part;
    assert Label(part);
    WildcardAccepted(part);
    if Labels(rest) {
      JoinedLabels(part, rest);
      WildcardAccepted(part + "." + rest);
      assert "*." + part + "." + rest == "*." + (part + "." + rest);
    }
  }

  lemma JoinedLabels(part: string, rest: string)
    requires Label(part) && Labels(rest)
    ensures Labels(part + "." + rest)
  {
    var s, i := part + "." + rest, |part|;
    assert s[i] == '.' && s[..i] == part && s[i + 1..] == rest;
  }

  lemma WildcardAccepted(s: string)
    requires Labels(s)
    ensures AcceptedByUI(s) && AcceptedByUI("*." + s)
  {
    assert ("*." + s)[2..] == s && ("*." + s)[..2] == "*.";
  }

  /** ...and nothing else: no other characters, and a label is never empty nor begins or ends with a
      hyphen. */
  lemma RejectedForms(s: string, i: nat)
    requires AcceptedByUI(s) && i < |s|
    ensures s[0] != '.' && s[0] != '-' && s[|s| - 1] != '.' && s[|s| - 1] != '-'
    ensures 'a' <= s[i] <= 'z' || 'A' <= s[i] <= 'Z' || '0' <= s[i] <= '9' || s[i] == '-' || s[i] == '.' || (s[i] == '*' && i == 0)
  {
    if Labels(s) {
      LabelsEnds(s);
      LabelsChars(s);
      assert s[i] in s;
    } else {
      WildcardRejected(s, s[2..], i);
    }
  }

  lemma WildcardRejected(s: string, rest: string, i: nat)
    requires i < |s| && s == "*." + rest && Labels(rest)
    ensures s[0] == '*' && s[|s| - 1] != '.' && s[|s| - 1] != '-'
    ensures i == 0 || Alnum(s[i]) || s[i] == '-' || s[i] == '.'
  {
    LabelsEnds(rest);
    LabelsChars(rest);
    assert s[|s| - 1] == rest[|rest| - 1];
    if i > 1 { assert s[i] == rest[i - 2] && rest[i - 2] in rest; }
  }

  lemma {:induction false} LabelsEnds(s: string)
    requires Labels(s)
    ensures s != "" && Alnum(s[0]) && Alnum(s[|s| - 1])
    decreases |s|
  {
    if !Label(s) {
      var i :| 0 <= i < |s| && s[i] == '.' && Label(s[..i]) && Labels(s[i + 1..]);
      LabelsEnds(s[i + 1..]);
      assert s[..i][0] == s[0] && s[i + 1..][|s| - i - 2] == s[|s| - 1];
    }
  }

  lemma {:induction false} LabelsChars(s: string)
    requires Labels(s)
    ensures forall c :: c in s ==> Alnum(c) || c == '-' || c == '.'
    decreases |s|
  {
    if !Label(s) {
      var i :| 0 <= i < |s| && s[i] == '.' && Label(s[..i]) && Labels(s[i + 1..]);
      LabelsChars(s[i + 1..]);
      forall k | 0 <= k < |s| ensures Alnum(s[k]) || s[k] == '-' || s[k] == '.' {
        if k < i {
          assert s[..i][k] == s[k];
        } else if k > i {
          assert s[i + 1..][k - i - 1] == s[k];
        }
      }
    }
  }

  /** Distinct names the UI accepts never share a file, and stay inside the output directory. */
  lemma AcceptedNamesAreDistinctFiles(d: string, e: string)
    requires AcceptedByUI(d) && AcceptedByUI(e) && d != e
    ensures '/' !in d
    ensures CertFile(d) != CertFile(e) && KeyFile(d) != KeyFile(e)
    ensures CertFile(d) != KeyFile(e) && KeyFile(d) != CertFile(e)
  {
    AcceptedChars(d);
    AcceptedChars(e);
    FilesFollowSafeDomain(d, e);
    CertFileNeverKeyFile(d, e);
    CertFileNeverKeyFile(e, d);
    if SafeDomain(d) == SafeDomain(e) {
      SafeDomainInjective(d, e);
    }
  }

  lemma AcceptedChars(s: string)
    requires AcceptedByUI(s)
    ensures '_' !in s && '/' !in s
  {
    if Labels(s) {
      LabelsChars(s);
    } else {
      LabelsChars(s[2..]);
      assert s == s[..2] + s[2..];
    }
  }
}
