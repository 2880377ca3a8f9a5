/** Where an identity's keytab, refresh env and credential cache live on a host. */
module KerberosPathNames {
  import opened Text
  import opened Schema

  /** The directories of `AppConfig`; an empty LAB setting falls back to the FARM one. */
  datatype Directories = Directories(
    farmKeytabs: string, farmEnvs: string, farmCcaches: string,
    labKeytabs: string, labEnvs: string, labCcaches: string)

  /** The part of the KerberosPaths dataclass that the three file names come from. */
  datatype KerberosPaths = KerberosPaths(
    adUsername: string, uid: int, realm: string, keytabDir: string, envDir: string, ccacheBase: string)

  function RightStrip(s: string, c: char): (t: string)
    ensures t <= s && (t != [] ==> t[|t| - 1] != c) && forall i :: |t| <= i < |s| ==> s[i] == c
  {
    if s != [] && s[|s| - 1] == c then RightStrip(s[..|s| - 1], c) else s
  }

  function JoinPath(root: string, leaf: string): string {
    RightStrip(root, '/') + "/" + leaf
  }

  function OrElse(s: string, fallback: string): string {
    if s != "" then s else fallback
  }

  function KeytabFile(p: KerberosPaths): string {
    JoinPath(p.keytabDir, p.adUsername + ".keytab")
  }

  function EnvFile(p: KerberosPaths): string {
    JoinPath(p.envDir, p.adUsername + ".env")
  }

  function CcacheFile(p: KerberosPaths): string {
    JoinPath(JoinPath(p.ccacheBase, PrintInt(p.uid)), "krb5cc")
  }

  function Files(p: KerberosPaths): set<string> {
    {KeytabFile(p), EnvFile(p), CcacheFile(p)}
  }

  /** The paths create builds for a planned identity. */
  function CreatePaths(dirs: Directories, domain: Domain, adUsername: string, uid: int, realm: string): KerberosPaths {
    if domain == LAB then
      KerberosPaths(adUsername, uid, realm, OrElse(dirs.labKeytabs, dirs.farmKeytabs),
                    OrElse(dirs.labEnvs, dirs.farmEnvs), OrElse(dirs.labCcaches, dirs.farmCcaches))
    else
      KerberosPaths(adUsername, uid, realm, dirs.farmKeytabs, dirs.farmEnvs, dirs.farmCcaches)
  }

  /** The paths delete rebuilds from the stored identity and the owner's uid; an empty stored realm is replaced. */
  function DeletePaths(dirs: Directories, domain: Domain, stored: AdIdentity, uid: int,
      defaultRealm: string): KerberosPaths {
    var realm := OrElse(stored.realm, defaultRealm);
    if domain == LAB then
      KerberosPaths(stored.adUsername, uid, realm, OrElse(dirs.labKeytabs, dirs.farmKeytabs),
                    OrElse(dirs.labEnvs, dirs.farmEnvs), OrElse(dirs.labCcaches, dirs.farmCcaches))
    else
      KerberosPaths(stored.adUsername, uid, realm, dirs.farmKeytabs, dirs.farmEnvs, dirs.farmCcaches)
  }

  // ---------- The names themselves ----------

  /** Slashes at the end of a configured directory make no difference. */
  lemma {:induction false} JoinPathIs(root: string, slashes: string, leaf: string)
    requires (root == [] || root[|root| - 1] != '/') && forall i :: 0 <= i < |slashes| ==> slashes[i] == '/'
    ensures JoinPath(root + slashes, leaf) == root + "/" + leaf
    decreases |slashes|
  {
    if slashes == [] {
      assert root + slashes == root;
    } else {
      var s := root + slashes;
      assert s[..|s| - 1] == root + slashes[..|slashes| - 1];
      JoinPathIs(root, slashes[..|slashes| - 1], leaf);
      assert RightStrip(s, '/') == RightStrip(root + slashes[..|slashes| - 1], '/');
    }
  }

  /** No trailing slash in a directory setting. */
  predicate Trimmed(dir: string) {
    dir == "" || dir[|dir| - 1] != '/'
  }

  /** Keytab and env file are named after the account, the credential cache after the uid; LAB settings default to FARM's. */
  lemma CreatePathsAre(dirs: Directories, domain: Domain, adUsername: string, uid: int, realm: string)
    requires Trimmed(dirs.farmKeytabs) && Trimmed(dirs.farmEnvs) && Trimmed(dirs.farmCcaches)
    requires Trimmed(dirs.labKeytabs) && Trimmed(dirs.labEnvs) && Trimmed(dirs.labCcaches)
    ensures var p := CreatePaths(dirs, domain, adUsername, uid, realm);
            var keytabs := if domain == LAB && dirs.labKeytabs != "" then dirs.labKeytabs else dirs.farmKeytabs;
            var envs := if domain == LAB && dirs.labEnvs != "" then dirs.labEnvs else dirs.farmEnvs;
            var ccaches := if domain == LAB && dirs.labCcaches != "" then dirs.labCcaches else dirs.farmCcaches;
            && KeytabFile(p) == keytabs + "/" + adUsername + ".keytab"
            && EnvFile(p) == envs + "/" + adUsername + ".env"
            && CcacheFile(p) == ccaches + "/" + PrintInt(uid) + "/krb5cc"
  {
    hide KeytabFile, EnvFile, CcacheFile;
    FilesAre(CreatePaths(dirs, domain, adUsername, uid, realm));
  }

  lemma FilesAre(p: KerberosPaths)
    requires Trimmed(p.keytabDir) && Trimmed(p.envDir) && Trimmed(p.ccacheBase)
    ensures KeytabFile(p) == p.keytabDir + "/" + p.adUsername + ".keytab"
    ensures EnvFile(p) == p.envDir + "/" + p.adUsername + ".env"
    ensures CcacheFile(p) == p.ccacheBase + "/" + PrintInt(p.uid) + "/krb5cc"
  {
    hide RightStrip;
    TrimmedJoin(p.keytabDir, p.adUsername, ".keytab");
    TrimmedJoin(p.envDir, p.adUsername, ".env");
    TrimmedJoin(p.ccacheBase, PrintInt(p.uid), "");
    DigitsKeepTheirEnd(p.ccacheBase, p.uid);
    assert PrintInt(p.uid) + "" == PrintInt(p.uid);
    var front := p.ccacheBase + "/" + PrintInt(p.uid);
    assert front + "" == front;
  }

  lemma TrimmedJoin(dir: string, name: string, suffix: string)
    requires Trimmed(dir)
    ensures JoinPath(dir, name + suffix) == dir + "/" + name + suffix
  {
    JoinPathIs(dir, "", name + suffix);
    assert dir + "" == dir && dir + "/" + (name + suffix) == dir + "/" + name + suffix;
  }

  // ---------- Which names can coincide ----------

  lemma SuffixInjective(root: string, a: string, b: string, suffix: string)
    requires JoinPath(root, a + suffix) == JoinPath(root, b + suffix)
    ensures a == b
  {
    var front := RightStrip(root, '/') + "/";
    var x, y := JoinPath(root, a + suffix), JoinPath(root, b + suffix);
    assert x == front + a + suffix && y == front + b + suffix;
    assert x[|front|..|x| - |suffix|] == a && y[|front|..|y| - |suffix|] == b;
  }

  lemma CcachesInjective(base: string, u: int, v: int)
    requires JoinPath(JoinPath(base, PrintInt(u)), "krb5cc") == JoinPath(JoinPath(base, PrintInt(v)), "krb5cc")
    ensures u == v
  {
    DigitsKeepTheirEnd(base, u);
    DigitsKeepTheirEnd(base, v);
    var x, y := JoinPath(base, PrintInt(u)), JoinPath(base, PrintInt(v));
    assert (x + "/krb5cc")[..|x|] == x && (y + "/krb5cc")[..|y|] == y;
    SuffixInjective(base, PrintInt(u), PrintInt(v), "");
    PrintIntInjective(u, v);
  }

  /** The trailing slash is only ever stripped from the configured root, never from the uid directory. */
  lemma DigitsKeepTheirEnd(base: string, u: int)
    ensures RightStrip(JoinPath(base, PrintInt(u)), '/') == JoinPath(base, PrintInt(u))
    ensures JoinPath(JoinPath(base, PrintInt(u)), "krb5cc") == JoinPath(base, PrintInt(u)) + "/krb5cc"
    ensures JoinPath(base, PrintInt(u) + "") == JoinPath(base, PrintInt(u))
  {
    var s := JoinPath(base, PrintInt(u));
    assert s[|s| - 1] == PrintInt(u)[|PrintInt(u)| - 1];
    assert PrintInt(u) + "" == PrintInt(u);
    assert s + "/" + "krb5cc" == s + "/krb5cc";
  }

  lemma LastCharacter(root: string, leaf: string)
    requires leaf != []
    ensures JoinPath(root, leaf)[|JoinPath(root, leaf)| - 1] == leaf[|leaf| - 1]
  {
  }

  /** On one host configuration two identities share a file if and only if they share the AD name or the uid. */
  lemma FilesDisjointExactly(p: KerberosPaths, q: KerberosPaths)
    requires p.keytabDir == q.keytabDir && p.envDir == q.envDir && p.ccacheBase == q.ccacheBase
    ensures Files(p) !! Files(q) <==> p.adUsername != q.adUsername && p.uid != q.uid
    ensures KeytabFile(p) == KeytabFile(q) <==> p.adUsername == q.adUsername
    ensures EnvFile(p) == EnvFile(q) <==> p.adUsername == q.adUsername
    ensures CcacheFile(p) == CcacheFile(q) <==> p.uid == q.uid
  {
    KindsDiffer(p, q);
    KindsDiffer(q, p);
    if KeytabFile(p) == KeytabFile(q) {
      SuffixInjective(p.keytabDir, p.adUsername, q.adUsername, ".keytab");
    }
    if EnvFile(p) == EnvFile(q) {
      SuffixInjective(p.envDir, p.adUsername, q.adUsername, ".env");
    }
    if CcacheFile(p) == CcacheFile(q) {
      CcachesInjective(p.ccacheBase, p.uid, q.uid);
    }
    assert KeytabFile(p) in Files(p) && CcacheFile(p) in Files(p);
    assert p.adUsername == q.adUsername ==> KeytabFile(p) in Files(q);
    assert p.uid == q.uid ==> CcacheFile(p) in Files(q);
  }

  /** A keytab, an env file and a credential cache never have the same path, whoever they belong to. */
  lemma KindsDiffer(p: KerberosPaths, q: KerberosPaths)
    ensures KeytabFile(p) != EnvFile(q) && KeytabFile(p) != CcacheFile(q) && EnvFile(p) != CcacheFile(q)
  {
    LastCharacter(p.keytabDir, p.adUsername + ".keytab");
    LastCharacter(p.envDir, p.adUsername + ".env");
    LastCharacter(q.envDir, q.adUsername + ".env");
    LastCharacter(JoinPath(q.ccacheBase, PrintInt(q.uid)), "krb5cc");
  }

  /** Delete recomputes exactly the files create used, whatever realm is on record, from the AD name and the uid. */
  lemma DeleteRecomputesExactly(
    dirs: Directories, domain: Domain, adUsername: string, planned: int, realm: string,
    stored: AdIdentity, uid: int, defaultRealm: string)
    ensures var created := CreatePaths(dirs, domain, adUsername, planned, realm);
            var recomputed := DeletePaths(dirs, domain, stored, uid, defaultRealm);
            && (KeytabFile(recomputed) == KeytabFile(created) <==> stored.adUsername == adUsername)
            && (EnvFile(recomputed) == EnvFile(created) <==> stored.adUsername == adUsername)
            && (CcacheFile(recomputed) == CcacheFile(created) <==> uid == planned)
            && recomputed.realm == if stored.realm == "" then defaultRealm else stored.realm
  {
    FilesDisjointExactly(CreatePaths(dirs, domain, adUsername, planned, realm),
                         DeletePaths(dirs, domain, stored, uid, defaultRealm));
  }
}
