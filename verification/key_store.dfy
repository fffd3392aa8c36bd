/** The gateway's access keys (internal/admin/keys): named secrets kept as hashes in one file,
    read through a cache that a stat of the file validates. */
module KeyStore {
  import opened GoStrings

  const MAX_KEYS := 32
  const TOKEN_PREFIX := "ppk."

  /** A stored hash, collision-free: SHA-256 of a secret, an argon2id hash of one from before, or
      an encoding that does not verify anything. */
  datatype Hash = Sha(secret: string) | Argon(secret: string, salt: string) | Corrupt(text: string)

  predicate Matches(h: Hash, secret: string) {
    !h.Corrupt? && h.secret == secret
  }

  datatype Record = Record(id: string, name: string, prefix: string, hash: Hash, createdAt: int, rotatedAt: Option<int>)

  type KeyFile = seq<Record>

  // ----- names and tokens -----

  predicate NameStart(c: char) {
    'a' <= c <= 'z' || 'A' <= c <= 'Z' || '0' <= c <= '9'
  }

  /** namePattern. */
  predicate ValidName(name: string) {
    1 <= |name| <= 64 && NameStart(name[0])
    && forall i | 1 <= i < |name| :: NameStart(name[i]) || name[i] in "._-"
  }

  /** At most 64 letters, digits, dots, underscores and hyphens, the first of them a letter or digit. */
  predicate NameFits(name: string) {
    && name != "" && |name| <= 64 && name[0] !in "._-"
    && forall c | c in name :: 'a' <= c <= 'z' || 'A' <= c <= 'Z' || '0' <= c <= '9' || c in "._-"
  }

  lemma NameFitsIff(name: string)
    ensures ValidName(name) <==> NameFits(name)
  {
    assert forall c | c in "._-" :: !NameStart(c);
    if ValidName(name) {
      forall c | c in name ensures NameStart(c) || c in "._-" {
        var i :| 0 <= i < |name| && name[i] == c;
      }
    }
    if NameFits(name) {
      forall i | 0 <= i < |name| ensures NameStart(name[i]) || name[i] in "._-" {
        assert name[i] in name;
      }
    }
  }

  function Token(id: string, secret: string): string {
    TOKEN_PREFIX + id + "." + secret
  }

  datatype Credential = Credential(id: string, secret: string)

  function ParseToken(token: string): Option<Credential> {
    var t := TrimSpace(token);
    if |t| < |TOKEN_PREFIX| || t[..|TOKEN_PREFIX|] != TOKEN_PREFIX then None
    else
      var rest := t[|TOKEN_PREFIX|..];
      var dot := IndexByte(rest, '.');
      if dot < 0 || dot == 0 || dot + 1 == |rest| then None
      else Some(Credential(rest[..dot], rest[dot + 1..]))
  }

  // ----- what the file says -----

  /** The key a token names: the first record with its id decides. */
  function Find(file: KeyFile, id: string): Option<Record> {
    if file == [] then None
    else if file[0].id == id then Some(file[0])
    else Find(file[1..], id)
  }

  /** verifyIn: the record the token opens, if any. */
  function Verified(file: KeyFile, token: string): Option<Record> {
    var c := ParseToken(token);
    if c.None? then None
    else
      var rec := Find(file, c.value.id);
      if rec.Some? && Matches(rec.value.hash, c.value.secret) then rec else None
  }

  /** What Authorize answers for a file. */
  datatype Verdict = Unlocked | Granted(rec: Record) | Unauthorized

  function VerdictOf(file: KeyFile, token: string): Verdict {
    if file == [] then Unlocked
    else
      var rec := Verified(file, token);
      if rec.Some? then Granted(rec.value) else Unauthorized
  }

  // ----- what each operation makes of the file -----

  datatype AddCheck = Free | Full | Taken

  function CanAdd(file: KeyFile, name: string): AddCheck {
    if |file| >= MAX_KEYS then Full
    else if exists i :: 0 <= i < |file| && file[i].name == name then Taken
    else Free
  }

  lemma CanAddSays(file: KeyFile, name: string)
    ensures CanAdd(file, name).Full? <==> |file| >= 32
    ensures CanAdd(file, name).Taken? <==> |file| < 32 && exists k :: k in file && k.name == name
  {
    if k :| k in file && k.name == name {
      var i :| 0 <= i < |file| && file[i] == k;
    }
  }

  function NewRecord(id: string, name: string, secret: string, now: int): Record {
    Record(id, name, TOKEN_PREFIX + id, Sha(secret), now, None)
  }

  function RotatedAtIndex(file: KeyFile, i: nat, secret: string, now: int): KeyFile
    requires i < |file|
  {
    file[i := file[i].(hash := Sha(secret), rotatedAt := Some(now))]
  }

  /** Where a name stands first. */
  function NameIndex(file: KeyFile, name: string): (i: Option<nat>)
    ensures i.Some? ==> i.value < |file| && file[i.value].name == name
    ensures i.Some? ==> forall j | 0 <= j < i.value :: file[j].name != name
    ensures i.None? ==> forall j | 0 <= j < |file| :: file[j].name != name
  {
    if file == [] then None
    else if file[0].name == name then Some(0)
    else
      var i := NameIndex(file[1..], name);
      assert forall j | 1 <= j < |file| :: file[j] == file[1..][j - 1];
      if i.Some? then Some(i.value + 1) else None
  }

  /** The records of every other name, in order. */
  function Without(file: KeyFile, name: string): KeyFile {
    if file == [] then []
    else Without(file[..|file| - 1], name) + if file[|file| - 1].name == name then [] else [file[|file| - 1]]
  }

  /** upgradeHash under the lock: the first record that still holds the legacy hash, if any. */
  function UpgradeIndex(file: KeyFile, id: string, legacy: Hash): (i: Option<nat>)
    ensures i.Some? ==> i.value < |file| && file[i.value].id == id && file[i.value].hash == legacy
    ensures i.Some? ==> forall j | 0 <= j < i.value :: !(file[j].id == id && file[j].hash == legacy)
    ensures i.None? ==> forall j | 0 <= j < |file| :: !(file[j].id == id && file[j].hash == legacy)
  {
    if file == [] then None
    else if file[0].id == id && file[0].hash == legacy then Some(0)
    else
      var i := UpgradeIndex(file[1..], id, legacy);
      assert forall j | 1 <= j < |file| :: file[j] == file[1..][j - 1];
      if i.Some? then Some(i.value + 1) else None
  }

  function Upgraded(file: KeyFile, id: string, legacy: Hash, secret: string): KeyFile {
    var i := UpgradeIndex(file, id, legacy);
    if i.Some? then file[i.value := file[i.value].(hash := Sha(secret))] else file
  }

  /** A locked operation; random is what the random source gives. */
  datatype Op =
    | Generate(rawName: string, random: Option<Credential>, now: int)
    | Rotate(rawName: string, newSecret: Option<string>, now: int)
    | Delete(rawName: string)
    | Upgrade(id: string, legacy: Hash, secret: string)

  /** What a change of the file does to the ledger. */
  datatype Entry = Issue(name: string, c: Credential) | Remove(name: string) | Rehash

  datatype Change = Change(file: KeyFile, entry: Entry)

  /** The change an operation makes of the file it has read; none when it is refused or finds
      nothing to do. */
  function ChangeOf(file: KeyFile, op: Op): Option<Change> {
    match op
    case Generate(rawName, random, now) =>
      var name := TrimSpace(rawName);
      if ValidName(name) && CanAdd(file, name).Free? && random.Some? then
        Some(Change(file + [NewRecord(random.value.id, name, random.value.secret, now)], Issue(name, random.value)))
      else None
    case Rotate(rawName, newSecret, now) =>
      var name := TrimSpace(rawName);
      var i := NameIndex(file, name);
      if i.Some? && newSecret.Some? then
        Some(Change(RotatedAtIndex(file, i.value, newSecret.value, now),
                    Issue(name, Credential(file[i.value].id, newSecret.value))))
      else None
    case Delete(rawName) =>
      var name := TrimSpace(rawName);
      if NameIndex(file, name).Some? then Some(Change(Without(file, name), Remove(name))) else None
    case Upgrade(id, legacy, secret) =>
      if UpgradeIndex(file, id, legacy).Some? then Some(Change(Upgraded(file, id, legacy, secret), Rehash)) else None
  }

  // ----- the store -----

  /** The parsed file and the state of the file it was read under. */
  datatype Cached = Cached(tag: nat, file: KeyFile)

  datatype Code = CodeInvalid | CodeFailedPrecondition | CodeConflict | CodeNotFound | CodeInternal

  datatype Outcome = Issued(rec: Record, token: string) | Done | Refused(code: Code)

  /** One process's store with the file it shares. The tag stands for all that sameFileState
      compares: identity, mtime and size. Each method runs with the lock it takes held. */
  class Store {
    var disk: Option<KeyFile>
    var tag: nat
    var cache: Option<Cached>

    constructor (disk: Option<KeyFile>, tag: nat)
      ensures this.disk == disk && this.tag == tag && cache == None
    {
      this.disk, this.tag, cache := disk, tag, None;
    }

    /** The keys on disk; a missing file is an empty store. */
    ghost function Keys(): KeyFile
      reads this
    {
      if disk.Some? then disk.value else []
    }

    method Read() returns (file: KeyFile)
      ensures file == Keys()
    {
      file := if disk.Some? then disk.value else [];
    }

    /** write: the file is replaced, then the cache dropped. */
    method Write(file: KeyFile, newTag: nat, writeOk: bool) returns (ok: bool)
      modifies this
      ensures ok == writeOk
      ensures if ok then disk == Some(file) && tag == newTag && cache == None
              else disk == old(disk) && tag == old(tag) && cache == old(cache)
    {
      ok := writeOk;
      if ok {
        disk, tag := Some(file), newTag;
        cache := None;
      }
    }

    method CheckCanAdd(file: KeyFile, name: string) returns (r: AddCheck)
      ensures r == CanAdd(file, name)
    {
      if |file| >= MAX_KEYS {
        return Full;
      }
      for i := 0 to |file|
        invariant forall j | 0 <= j < i :: file[j].name != name
      {
        if file[i].name == name {
          return Taken;
        }
      }
      r := Free;
    }

    /** Generate; random is what the random source gives for id and secret. */
    method Generate(rawName: string, random: Option<Credential>, now: int, newTag: nat, writeOk: bool)
      returns (r: Outcome)
      modifies this
      ensures var name, keys := TrimSpace(rawName), old(Keys());
        r == if !NameFits(name) then Refused(CodeInvalid)
             else if |keys| >= 32 then Refused(CodeFailedPrecondition)
             else if exists k :: k in keys && k.name == name then Refused(CodeConflict)
             else if random.None? || !writeOk then Refused(CodeInternal)
             else
               var (id, secret) := (random.value.id, random.value.secret);
               Issued(Record(id, name, "ppk." + id, Sha(secret), now, None), "ppk." + id + "." + secret)
      ensures r.Issued? ==> Keys() == old(Keys()) + [r.rec]
      ensures var c := ChangeOf(old(Keys()), Op.Generate(rawName, random, now));
        (r.Issued? <==> c.Some? && writeOk) && (r.Issued? ==> disk == Some(c.value.file))
      ensures if r.Issued? then tag == newTag && cache == None
              else disk == old(disk) && tag == old(tag) && cache == old(cache)
    {
      var name := TrimSpace(rawName);
      NameFitsIff(name);
      if !ValidName(name) {
        return Refused(CodeInvalid);
      }
      var file := Read();
      CanAddSays(file, name);
      var check := CheckCanAdd(file, name);
      match check {
        case Full => return Refused(CodeFailedPrecondition);
        case Taken => return Refused(CodeConflict);
        case Free =>
      }
      if random.None? {
        return Refused(CodeInternal);
      }
      var rec := NewRecord(random.value.id, name, random.value.secret, now);
      var ok := Write(file + [rec], newTag, writeOk);
      if !ok {
        return Refused(CodeInternal);
      }
      r := Issued(rec, Token(random.value.id, random.value.secret));
    }

    /** Rotate; the key keeps its id. */
    method Rotate(rawName: string, random: Option<string>, now: int, newTag: nat, writeOk: bool) returns (r: Outcome)
      modifies this
      ensures r == Refused(CodeNotFound) <==> forall k | k in old(Keys()) :: k.name != TrimSpace(rawName)
      ensures r.Issued? <==> r != Refused(CodeNotFound) && random.Some? && writeOk
      ensures r.Refused? ==> r.code == CodeNotFound || r.code == CodeInternal
      ensures r.Issued? ==> exists i :: 0 <= i < |old(Keys())| && var k := old(Keys())[i];
                && k.name == TrimSpace(rawName) && (forall j | 0 <= j < i :: old(Keys())[j].name != k.name)
                && r == Issued(k.(hash := Sha(random.value), rotatedAt := Some(now)),
                               "ppk." + k.id + "." + random.value)
                && Keys() == old(Keys())[i := r.rec] && tag == newTag && cache == None
      ensures var c := ChangeOf(old(Keys()), Op.Rotate(rawName, random, now));
        (r.Issued? <==> c.Some? && writeOk) && (r.Issued? ==> disk == Some(c.value.file))
      ensures !r.Issued? ==> disk == old(disk) && tag == old(tag) && cache == old(cache)
    {
      var name := TrimSpace(rawName);
      var file := Read();
      var idx := -1;
      for i := 0 to |file|
        invariant idx == -1 && forall j | 0 <= j < i :: file[j].name != name
      {
        if file[i].name == name {
          idx := i;
          break;
        }
      }
      if idx < 0 {
        return Refused(CodeNotFound);
      }
      if random.None? {
        return Refused(CodeInternal);
      }
      file := file[idx := file[idx].(hash := Sha(random.value), rotatedAt := Some(now))];
      var ok := Write(file, newTag, writeOk);
      if !ok {
        return Refused(CodeInternal);
      }
      r := Issued(file[idx], Token(file[idx].id, random.value));
    }

    /** Delete's loop. */
    method DropNamed(file: KeyFile, name: string) returns (kept: KeyFile, found: bool)
      ensures kept == Without(file, name)
      ensures found <==> NameIndex(file, name).Some?
    {
      kept, found := [], false;
      for i := 0 to |file|
        invariant kept == Without(file[..i], name)
        invariant if found then exists j :: 0 <= j < i && file[j].name == name
                  else forall j | 0 <= j < i :: file[j].name != name
      {
        assert file[..i + 1][..i] == file[..i];
        if file[i].name == name {
          found := true;
        } else {
          kept := kept + [file[i]];
        }
      }
      assert file[..|file|] == file;
    }

    method Delete(rawName: string, newTag: nat, writeOk: bool) returns (r: Outcome)
      modifies this
      ensures r == Refused(CodeNotFound) <==> forall k | k in old(Keys()) :: k.name != TrimSpace(rawName)
      ensures r == Done <==> r != Refused(CodeNotFound) && writeOk
      ensures r.Refused? ==> r.code == CodeNotFound || r.code == CodeInternal
      ensures var c := ChangeOf(old(Keys()), Op.Delete(rawName));
        (r.Done? <==> c.Some? && writeOk) && (r.Done? ==> disk == Some(c.value.file))
      ensures if r.Done? then tag == newTag && cache == None
              else disk == old(disk) && tag == old(tag) && cache == old(cache)
    {
      var file := Read();
      var kept, found := DropNamed(file, TrimSpace(rawName));
      if !found {
        return Refused(CodeNotFound);
      }
      var ok := Write(kept, newTag, writeOk);
      r := if ok then Done else Refused(CodeInternal);
    }

    /** upgradeHash; nothing is written when no record holds the legacy hash any more. */
    method UpgradeHash(id: string, legacy: Hash, secret: string, newTag: nat, writeOk: bool) returns (ok: bool)
      modifies this
      ensures var c := ChangeOf(old(Keys()), Op.Upgrade(id, legacy, secret));
        && (ok <==> c.None? || writeOk)
        && if c.Some? && writeOk then disk == Some(c.value.file) && tag == newTag && cache == None
           else disk == old(disk) && tag == old(tag) && cache == old(cache)
    {
      var file := Read();
      for i := 0 to |file|
        invariant forall j | 0 <= j < i :: !(file[j].id == id && file[j].hash == legacy)
      {
        if file[i].id == id && file[i].hash == legacy {
          ok := Write(file[i := file[i].(hash := Sha(secret))], newTag, writeOk);
          return;
        }
      }
      ok := true;
    }

    /** verifyIn's loop. */
    method VerifyIn(file: KeyFile, token: string) returns (rec: Option<Record>, legacy: bool)
      ensures rec == Verified(file, token)
      ensures legacy <==> rec.Some? && rec.value.hash.Argon?
    {
      rec, legacy := None, false;
      var c := ParseToken(token);
      if c.None? {
        return;
      }
      for i := 0 to |file|
        invariant Find(file, c.value.id) == Find(file[i..], c.value.id)
      {
        if file[i].id != c.value.id {
          continue;
        }
        if Matches(file[i].hash, c.value.secret) {
          return Some(file[i]), file[i].hash.Argon?;
        }
        return;
      }
    }

    /** readCached with nothing in between its stat and its read. */
    method ReadCached() returns (file: KeyFile)
      modifies this`cache
      ensures disk.None? ==> file == [] && cache == old(cache)
      ensures disk.Some? && old(cache).Some? && old(cache).value.tag == tag ==>
          file == old(cache).value.file && cache == old(cache)
      ensures disk.Some? && !(old(cache).Some? && old(cache).value.tag == tag) ==>
          file == disk.value && cache == Some(Cached(tag, file))
    {
      if disk.None? {
        return [];
      }
      var info := tag;
      if cache.Some? && cache.value.tag == info {
        return cache.value.file;
      }
      file := Read();
      cache := Some(Cached(info, file));
    }

    /** The cache is what the disk holds, as far as the tag can tell. */
    ghost predicate Coherent()
      reads this
    {
      cache.Some? && disk.Some? && cache.value.tag == tag ==> cache.value.file == disk.value
    }

    /** Authorize, undisturbed: the verdict of the file on disk, and a key that opened with a
        legacy hash has a SHA-256 hash afterwards. */
    method Authorize(token: string, newTag: nat, writeOk: bool) returns (v: Verdict, upgradeFailed: bool)
      requires Coherent()
      modifies this
      ensures Coherent() && v == VerdictOf(old(Keys()), token)
      ensures var legacy := v.Granted? && v.rec.hash.Argon?;
        && (upgradeFailed <==> legacy && !writeOk)
        && Keys() == if legacy && writeOk then Upgraded(old(Keys()), v.rec.id, v.rec.hash, v.rec.hash.secret)
                     else old(Keys())
    {
      upgradeFailed := false;
      var file := ReadCached();
      if |file| == 0 {
        return Unlocked, false;
      }
      var rec, legacy := VerifyIn(file, token);
      if rec.None? {
        return Unauthorized, false;
      }
      v := Granted(rec.value);
      if !legacy {
        return;
      }
      var c := ParseToken(token);
      FoundIsThere(file, c.value.id);
      var ok := UpgradeHash(rec.value.id, rec.value.hash, c.value.secret, newTag, writeOk);
      upgradeFailed := !ok;
    }
  }

  lemma {:induction false} FoundIsThere(file: KeyFile, id: string)
    ensures var r := Find(file, id);
      && (r.Some? ==> r.value.id == id && r.value in file)
      && (r.None? ==> forall i | 0 <= i < |file| :: file[i].id != id)
  {
    if file != [] {
      FoundIsThere(file[1..], id);
      assert forall i | 1 <= i < |file| :: file[i] == file[1..][i - 1];
    }
  }
}
