/** Host-key verification against a known_hosts file, and trust on first use. */
module KnownHosts {
  import opened Common
  import Yaml
  import opened ManifestBodies
  import opened Base64
  import opened HostLines

  datatype HostKeyMode = Yes | Ask | AcceptNew | No

  datatype VerifyStatus = Match | Unknown | Mismatch

  datatype GitError =
    | Io
    | HostKeyMismatch(host: string, keyType: string)
    | UnknownHostKey(host: string, keyType: string)

  type Port = p: nat | p < 0x1_0000

  /** HMAC-SHA1 of a host under a salt: any function. */
  type Mac = (Bytes, string) -> Bytes

  function CanonicalForm(host: string, port: Port): string
  {
    if port == 22 then host else "[" + host + "]:" + Yaml.NatToString(port)
  }

  function LookupForms(host: string, port: Port): seq<string>
  {
    if port == 22 then [host] else [host, "[" + host + "]:" + Yaml.NatToString(port)]
  }

  predicate PatternMatches(mac: Mac, pattern: HostPattern, forms: seq<string>)
  {
    match pattern
    case Plain(hosts) => exists p :: p in hosts && p in forms
    case Hashed(salt, hash) => exists h :: h in forms && mac(salt, h) == hash
  }

  predicate Applies(mac: Mac, entry: HostEntry, forms: seq<string>, keyType: string)
  {
    PatternMatches(mac, entry.pattern, forms) && entry.keyType == keyType
  }

  ghost predicate Known(mac: Mac, entries: seq<HostEntry>, forms: seq<string>, keyType: string)
  {
    exists e :: e in entries && Applies(mac, e, forms, keyType)
  }

  /** Some entry for the host and key type holds exactly this key. */
  ghost predicate Trusted(mac: Mac, entries: seq<HostEntry>, forms: seq<string>, keyType: string, key: Bytes)
  {
    exists e :: e in entries && Applies(mac, e, forms, keyType) && Decode(e.keyText) == Some(key)
  }

  ghost function Status(mac: Mac, entries: seq<HostEntry>, forms: seq<string>, keyType: string,
                        key: Bytes): VerifyStatus
  {
    if Trusted(mac, entries, forms, keyType, key) then Match
    else if Known(mac, entries, forms, keyType) then Mismatch
    else Unknown
  }

  class KnownHostsFile {
    /** False stands for the empty path: nothing is written. */
    const persistent: bool
    var disk: string
    var entries: seq<HostEntry>

    /** `load`: a missing file reads as the empty text. */
    constructor Load(text: string)
      ensures persistent && disk == text && entries == Entries(text)
    {
      persistent := true;
      disk := text;
      var lines := Lines(text);
      var found: seq<HostEntry> := [];
      for i := 0 to |lines|
        invariant found == EntriesOf(lines[..i])
      {
        assert lines[..i + 1][..i] == lines[..i];
        match ParseLine(lines[i]) {
          case Some(entry) => found := found + [entry];
          case None =>
        }
      }
      assert lines[..|lines|] == lines;
      entries := found;
    }

    constructor Empty()
      ensures !persistent && disk == "" && entries == []
    {
      persistent, disk, entries := false, "", [];
    }

    /** The verdict looks at every applicable entry before it reports a mismatch. */
    method Verify(mac: Mac, host: string, port: Port, keyType: string, key: Bytes) returns (status: VerifyStatus)
      ensures status == Status(mac, entries, LookupForms(host, port), keyType, key)
    {
      var forms := LookupForms(host, port);
      var foundForHost := false;
      for i := 0 to |entries|
        invariant forall j :: 0 <= j < i && Applies(mac, entries[j], forms, keyType) ==>
          Decode(entries[j].keyText) != Some(key)
        invariant foundForHost <==> exists j :: 0 <= j < i && Applies(mac, entries[j], forms, keyType)
      {
        var entry := entries[i];
        if !PatternMatches(mac, entry.pattern, forms) {
          continue;
        }
        if entry.keyType != keyType {
          continue;
        }
        foundForHost := true;
        if Decode(entry.keyText) == Some(key) {
          return Match;
        }
      }
      return if foundForHost then Mismatch else Unknown;
    }

    /** Records the key in plain form: one line on disk (when there is a path) and one entry in memory.  `ioOk`
        says whether opening and writing the file succeed. */
    method Append(host: string, port: Port, keyType: string, key: Bytes, ioOk: bool) returns (r: Result<(), GitError>)
      modifies this`disk, this`entries
      ensures r == if persistent && !ioOk then Err(Io) else Ok(())
      ensures r.Err? ==> disk == old(disk) && entries == old(entries)
      ensures r.Ok? ==> entries == old(entries) + [EntryOf(CanonicalForm(host, port), keyType, key)]
      ensures r.Ok? ==>
        disk == if persistent then old(disk) + LineOf(CanonicalForm(host, port), keyType, key) + "\n" else old(disk)
    {
      var form := CanonicalForm(host, port);
      var text := Encode(key);
      if persistent {
        if !ioOk {
          return Err(Io);
        }
        disk := disk + (form + " " + (keyType + " " + text)) + "\n";
      }
      entries := entries + [HostEntry(Plain([form]), keyType, text)];
      return Ok(());
    }
  }

  /** The file behind a verifier: its text on disk and the entries in memory. */
  datatype Store = Store(disk: string, entries: seq<HostEntry>)

  /** One call of `check`. */
  datatype Query = Query(host: string, port: Port, keyType: string, key: Bytes)

  ghost function StatusOf(mac: Mac, s: Store, q: Query): VerifyStatus
  {
    Status(mac, s.entries, LookupForms(q.host, q.port), q.keyType, q.key)
  }

  function Record(s: Store, q: Query): Store
  {
    var form := CanonicalForm(q.host, q.port);
    Store(s.disk + LineOf(form, q.keyType, q.key) + "\n", s.entries + [EntryOf(form, q.keyType, q.key)])
  }

  /** Only an unknown key under `accept-new` changes the store. */
  ghost function CheckedStore(mac: Mac, mode: HostKeyMode, s: Store, q: Query): Store
  {
    if mode == AcceptNew && StatusOf(mac, s, q) == Unknown then Record(s, q) else s
  }

  ghost function CheckedVerdict(mac: Mac, mode: HostKeyMode, s: Store, q: Query): Result<(), GitError>
  {
    if mode == No then Ok(())
    else
      match StatusOf(mac, s, q)
      case Match => Ok(())
      case Mismatch => Err(HostKeyMismatch(q.host, q.keyType))
      case Unknown => if mode == AcceptNew then Ok(()) else Err(UnknownHostKey(q.host, q.keyType))
  }

  class HostVerifier {
    const mode: HostKeyMode
    const file: KnownHostsFile

    constructor (mode: HostKeyMode, file: KnownHostsFile)
      ensures this.mode == mode && this.file == file
    {
      this.mode := mode;
      this.file := file;
    }

    ghost function View(): Store
      reads file
    {
      Store(file.disk, file.entries)
    }

    /** Accept or reject; with a path and a working disk the new state is `CheckedStore`. */
    method Check(mac: Mac, host: string, port: Port, keyType: string, key: Bytes, ioOk: bool)
      returns (r: Result<(), GitError>)
      modifies file
      ensures file.persistent && ioOk ==>
              View() == CheckedStore(mac, mode, old(View()), Query(host, port, keyType, key))
      ensures !file.persistent || ioOk ==> r == CheckedVerdict(mac, mode, old(View()), Query(host, port, keyType, key))
      ensures r.Err? ==> View() == old(View())
      ensures r == Err(Io) <==>
        && file.persistent && !ioOk && mode == AcceptNew
        && StatusOf(mac, old(View()), Query(host, port, keyType, key)) == Unknown
      ensures !file.persistent ==>
        file.entries == CheckedStore(mac, mode, old(View()), Query(host, port, keyType, key)).entries
    {
      if mode == No {
        return Ok(());
      }
      var status := file.Verify(mac, host, port, keyType, key);
      match status {
        case Match => r := Ok(());
        case Mismatch => r := Err(HostKeyMismatch(host, keyType));
        case Unknown =>
          if mode == AcceptNew {
            r := file.Append(host, port, keyType, key, ioOk);
          } else {
            r := Err(UnknownHostKey(host, keyType));
          }
      }
    }
  }
}
