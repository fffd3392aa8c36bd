/** What the key file means: a map from each name to the credential last issued for it. Each
    operation on the file is one on that map, and the upgrade of a hash is none at all. */
module KeyLedger {
  import opened GoStrings
  import opened KeyStore

  /** Names and ids are unique, and there are at most as many keys as are allowed. */
  predicate WellKept(file: KeyFile) {
    && |file| <= 32
    && forall i, j | 0 <= i < j < |file| :: file[i].name != file[j].name && file[i].id != file[j].id
  }

  type Ledger = map<string, Credential>

  /** The record opens for the credential. */
  predicate Opens(r: Record, c: Credential) {
    r.id == c.id && Matches(r.hash, c.secret)
  }

  /** The names with a secret, and their credentials, are the ledger's. */
  ghost predicate Says(file: KeyFile, m: Ledger) {
    && (forall r, c | r in file && Opens(r, c) :: r.name in m && m[r.name] == c)
    && (forall n | n in m :: exists r :: r in file && r.name == n && Opens(r, m[n]))
  }

  /** The ledger of a file. */
  function LedgerOf(file: KeyFile): Ledger {
    if file == [] then map[]
    else
      var m, r := LedgerOf(file[..|file| - 1]), file[|file| - 1];
      if r.hash.Corrupt? then m else m[r.name := Credential(r.id, r.hash.secret)]
  }

  /** One record more, of a name of its own. */
  lemma AppendSays(file: KeyFile, m: Ledger, rec: Record)
    requires Says(file, m) && forall r | r in file :: r.name != rec.name
    ensures Says(file + [rec], if rec.hash.Corrupt? then m else m[rec.name := Credential(rec.id, rec.hash.secret)])
  {
    var next := file + [rec];
    var m' := if rec.hash.Corrupt? then m else m[rec.name := Credential(rec.id, rec.hash.secret)];
    assert forall r :: r in next <==> r in file || r == rec;
    forall n | n in m' ensures exists r :: r in next && r.name == n && Opens(r, m'[n]) {
      if n == rec.name && !rec.hash.Corrupt? {
        assert Opens(rec, m'[n]);
      } else {
        var r :| r in file && r.name == n && Opens(r, m[n]);
        assert r in next;
      }
    }
  }

  lemma {:induction false} LedgerOfSays(file: KeyFile)
    requires WellKept(file)
    ensures Says(file, LedgerOf(file))
  {
    if file != [] {
      var front, r := file[..|file| - 1], file[|file| - 1];
      LedgerOfSays(front);
      AppendSays(front, LedgerOf(front), r);
      assert file == front + [r];
    }
  }

  // ----- tokens -----

  /** A token comes back as issued exactly when its id has no dot, neither part is empty and the
      secret does not end in a blank; newToken's hex ids and base64 secrets are like that. */
  lemma TokenComesBackIff(id: string, secret: string)
    ensures ParseToken(Token(id, secret)) == Some(Credential(id, secret)) <==>
            id != "" && '.' !in id && secret != "" && !IsSpace(secret[|secret| - 1])
  {
    var t := Token(id, secret);
    TrimSpaceTrims(t);
    assert t == "ppk." + (id + "." + secret);
    if secret != "" && !IsSpace(secret[|secret| - 1]) {
      assert t[|t| - 1] == secret[|secret| - 1];
      TrimmedFixed(t);
      var rest := id + "." + secret;
      assert t[|TOKEN_PREFIX|..] == rest && t[..|TOKEN_PREFIX|] == TOKEN_PREFIX;
      var dot := IndexByte(rest, '.');
      assert rest[|id|] == '.';
      if '.' !in id {
        IndexBytePast(id, '.', secret);
        assert rest[..dot] == id && rest[dot + 1..] == secret;
      }
    }
    if ParseToken(t) == Some(Credential(id, secret)) {
      ParsedToken(t);
    }
  }

  /** Whatever parses is, trimmed, the token of what it parses to. */
  lemma ParsedToken(token: string)
    requires ParseToken(token).Some?
    ensures var c := ParseToken(token).value;
      && TrimSpace(token) == Token(c.id, c.secret)
      && c.id != "" && '.' !in c.id && c.secret != "" && !IsSpace(c.secret[|c.secret| - 1])
  {
    TrimSpaceTrims(token);
    var t := TrimSpace(token);
    var rest := t[|TOKEN_PREFIX|..];
    var dot := IndexByte(rest, '.');
    assert rest == rest[..dot] + "." + rest[dot + 1..];
    assert t == TOKEN_PREFIX + rest;
    assert t == Token(rest[..dot], rest[dot + 1..]);
    assert t[|t| - 1] == rest[dot + 1..][|rest[dot + 1..]| - 1];
  }

  // ----- what a token opens -----

  lemma {:induction false} FindUnique(file: KeyFile, r: Record)
    requires WellKept(file) && r in file
    ensures Find(file, r.id) == Some(r)
  {
    if file[0] != r {
      var i :| 0 < i < |file| && file[i] == r;
      assert file[1..][i - 1] == r;
      FindUnique(file[1..], r);
    }
  }

  /** A token is accepted exactly when it is the credential the ledger has for some name. */
  lemma AcceptedIffInLedger(file: KeyFile, m: Ledger, token: string)
    requires WellKept(file) && Says(file, m)
    ensures Verified(file, token).Some? <==> exists n :: n in m && ParseToken(token) == Some(m[n])
    ensures Verified(file, token).Some? ==>
              var n := Verified(file, token).value.name; n in m && ParseToken(token) == Some(m[n])
  {
    var c := ParseToken(token);
    if c.Some? {
      FoundIsThere(file, c.value.id);
      if Verified(file, token).Some? {
        assert Opens(Verified(file, token).value, c.value);
      }
      if n :| n in m && c == Some(m[n]) {
        var r :| r in file && r.name == n && Opens(r, m[n]);
        FindUnique(file, r);
      }
    }
  }

  // ----- the operations on the ledger -----

  /** When an operation changes the file: a name that fits, with room for it and not taken; a name
      that is there; a record that still holds the legacy hash. */
  lemma ChangesIff(file: KeyFile, op: Op)
    ensures ChangeOf(file, op).Some? <==> match op
      case Generate(rawName, random, _) =>
        NameFits(TrimSpace(rawName)) && |file| < 32 && random.Some?
        && forall r | r in file :: r.name != TrimSpace(rawName)
      case Rotate(rawName, newSecret, _) => newSecret.Some? && exists r :: r in file && r.name == TrimSpace(rawName)
      case Delete(rawName) => exists r :: r in file && r.name == TrimSpace(rawName)
      case Upgrade(id, legacy, _) => exists r :: r in file && r.id == id && r.hash == legacy
  {
    match op {
      case Generate(rawName, _, _) =>
        NameFitsIff(TrimSpace(rawName));
        CanAddSays(file, TrimSpace(rawName));
      case Rotate(rawName, _, _) => NameIsIn(file, TrimSpace(rawName));
      case Delete(rawName) => NameIsIn(file, TrimSpace(rawName));
      case Upgrade(id, legacy, _) =>
        if r :| r in file && r.id == id && r.hash == legacy {
          var i :| 0 <= i < |file| && file[i] == r;
        }
    }
  }

  lemma NameIsIn(file: KeyFile, name: string)
    ensures NameIndex(file, name).Some? <==> exists r :: r in file && r.name == name
  {
    if r :| r in file && r.name == name {
      var i :| 0 <= i < |file| && file[i] == r;
    }
  }

  lemma GenerateSays(file: KeyFile, m: Ledger, id: string, name: string, secret: string, now: int)
    requires WellKept(file) && Says(file, m) && CanAdd(file, name).Free?
    requires forall r | r in file :: r.id != id
    ensures var next := file + [NewRecord(id, name, secret, now)];
      WellKept(next) && Says(next, m[name := Credential(id, secret)])
  {
    var rec := NewRecord(id, name, secret, now);
    AppendSays(file, m, rec);
    var next := file + [rec];
    forall i, j | 0 <= i < j < |next| ensures next[i].name != next[j].name && next[i].id != next[j].id {
      assert next[i] == file[i] && next[i] in file;
    }
  }

  /** A record replaced by one of the same name and id. */
  lemma ReplaceSays(file: KeyFile, m: Ledger, i: nat, rec: Record, m': Ledger)
    requires WellKept(file) && Says(file, m) && i < |file| && rec.name == file[i].name && rec.id == file[i].id
    requires !rec.hash.Corrupt? && m' == m[rec.name := Credential(rec.id, rec.hash.secret)]
    ensures WellKept(file[i := rec]) && Says(file[i := rec], m')
  {
    var next := file[i := rec];
    assert next[i] == rec;
    forall r, c | r in next && Opens(r, c) ensures r.name in m' && m'[r.name] == c {
      var j :| 0 <= j < |next| && next[j] == r;
      if j != i {
        assert file[j] == r;
      }
    }
    forall n | n in m' ensures exists r :: r in next && r.name == n && Opens(r, m'[n]) {
      if n == rec.name {
        assert Opens(rec, m'[n]);
      } else {
        var r :| r in file && r.name == n && Opens(r, m[n]);
        var j :| 0 <= j < |file| && file[j] == r;
        assert next[j] == r;
      }
    }
  }

  lemma RotateSays(file: KeyFile, m: Ledger, name: string, secret: string, now: int)
    requires WellKept(file) && Says(file, m) && NameIndex(file, name).Some?
    ensures var i := NameIndex(file, name).value;
      && WellKept(RotatedAtIndex(file, i, secret, now))
      && Says(RotatedAtIndex(file, i, secret, now), m[name := Credential(file[i].id, secret)])
  {
    var i := NameIndex(file, name).value;
    ReplaceSays(file, m, i, RotatedAtIndex(file, i, secret, now)[i], m[name := Credential(file[i].id, secret)]);
  }

  lemma {:induction false} WithoutKeeps(file: KeyFile, name: string)
    requires WellKept(file)
    ensures WellKept(Without(file, name)) && |Without(file, name)| <= |file|
    ensures forall r :: r in Without(file, name) <==> r in file && r.name != name
  {
    if file != [] {
      var front, r := file[..|file| - 1], file[|file| - 1];
      assert file == front + [r];
      WithoutKeeps(front, name);
      var kept := Without(front, name);
      forall i | 0 <= i < |kept| ensures kept[i].name != r.name && kept[i].id != r.id {
        assert kept[i] in front;
      }
    }
  }

  lemma DeleteSays(file: KeyFile, m: Ledger, name: string)
    requires WellKept(file) && Says(file, m)
    ensures WellKept(Without(file, name)) && Says(Without(file, name), m - {name})
  {
    WithoutKeeps(file, name);
  }

  lemma UpgradeSays(file: KeyFile, m: Ledger, id: string, legacy: Hash, secret: string)
    requires WellKept(file) && Says(file, m) && legacy.Argon? && legacy.secret == secret
    ensures WellKept(Upgraded(file, id, legacy, secret)) && Says(Upgraded(file, id, legacy, secret), m)
  {
    var i := UpgradeIndex(file, id, legacy);
    if i.Some? {
      var r := file[i.value];
      assert r in file && Opens(r, Credential(id, secret));
      assert m[r.name := Credential(id, secret)] == m;
      ReplaceSays(file, m, i.value, r.(hash := Sha(secret)), m);
    }
  }

  // ----- upgrades, whatever the file -----

  lemma {:induction false} FindAfterUpgrade(file: KeyFile, i: nat, x: string)
    requires i < |file| && file[i].hash.Argon?
    ensures var before, after := Find(file, x), Find(file[i := file[i].(hash := Sha(file[i].hash.secret))], x);
      && (before.Some? <==> after.Some?)
      && (before.Some? ==>
            && before.value.id == after.value.id
            && forall s :: Matches(before.value.hash, s) <==> Matches(after.value.hash, s))
  {
    var next := file[i := file[i].(hash := Sha(file[i].hash.secret))];
    if i > 0 && file[0].id != x {
      FindAfterUpgrade(file[1..], i - 1, x);
      assert next[1..] == file[1..][i - 1 := next[i]];
    } else {
      assert i == 0 ==> next[1..] == file[1..];
    }
  }

  /** An upgrade, however stale, never changes which tokens are accepted, in any file at all. */
  lemma UpgradeKeepsAccepted(file: KeyFile, id: string, legacy: Hash, token: string)
    requires legacy.Argon?
    ensures Verified(Upgraded(file, id, legacy, legacy.secret), token).Some? <==> Verified(file, token).Some?
  {
    var i := UpgradeIndex(file, id, legacy);
    if i.Some? && ParseToken(token).Some? {
      FindAfterUpgrade(file, i.value, ParseToken(token).value.id);
    }
  }

  /** After a rotate of its key an upgrade finds nothing to write. */
  lemma RotateStopsUpgrade(file: KeyFile, id: string, legacy: Hash, secret: string, now: int)
    requires WellKept(file) && legacy.Argon? && UpgradeIndex(file, id, legacy).Some?
    ensures var i := UpgradeIndex(file, id, legacy).value;
      && NameIndex(file, file[i].name) == Some(i)
      && UpgradeIndex(RotatedAtIndex(file, i, secret, now), id, legacy).None?
  {}

  /** And after a delete. */
  lemma DeleteStopsUpgrade(file: KeyFile, id: string, legacy: Hash)
    requires WellKept(file) && UpgradeIndex(file, id, legacy).Some?
    ensures UpgradeIndex(Without(file, file[UpgradeIndex(file, id, legacy).value].name), id, legacy).None?
  {
    var i := UpgradeIndex(file, id, legacy).value;
    var kept := Without(file, file[i].name);
    WithoutKeeps(file, file[i].name);
    forall j | 0 <= j < |kept| ensures kept[j].id != id {
      assert kept[j] in file;
      var k :| 0 <= k < |file| && file[k] == kept[j];
      assert k != i;
    }
  }

  /** The first use of a key settles it: once upgraded, its token is accepted without a legacy
      hash, so that there is nothing left to upgrade. */
  lemma UpgradeSettles(file: KeyFile, token: string)
    requires WellKept(file) && Verified(file, token).Some? && Verified(file, token).value.hash.Argon?
    ensures var r := Verified(file, token).value; var next := Upgraded(file, r.id, r.hash, r.hash.secret);
      Verified(next, token) == Some(r.(hash := Sha(r.hash.secret)))
  {
    var c := ParseToken(token).value;
    FoundIsThere(file, c.id);
    var r := Verified(file, token).value;
    var i := UpgradeIndex(file, r.id, r.hash);
    var j :| 0 <= j < |file| && file[j] == r;
    assert i == Some(j);
    var next := Upgraded(file, r.id, r.hash, r.hash.secret);
    assert next[j] == r.(hash := Sha(r.hash.secret));
    FindUnique(next, next[j]);
  }
}
