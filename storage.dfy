/**
 * The storage module handed to the Node-RED runtime (lib/oe-node-red-storage.js).
 * Its module-level variables become the fields of one object; the NodeRedCred
 * table is a sequence of records, the NodeRedFlow table a shared Table object.
 * The random IV and the clock of saveCredentials are parameters.
 */
module Storage {
  import opened Wrappers
  import opened Json
  import opened Bytes
  import opened CredentialCipher
  import opened CredentialMerge
  import opened FlowTable

  /** A NodeRedCred record `{d, t}`; the empty string stands for a missing or empty d. */
  datatype CredRecord = CredRecord(d: string, t: int)

  /**
   * `findOne({order: "t DESC"})`: the record with the greatest t. Among records
   * with equal t the model takes the one inserted last (the data layer's choice
   * is not modelled).
   */
  function Latest(rs: seq<CredRecord>): (r: Option<CredRecord>)
    ensures r.None? <==> rs == []
    ensures r.Some? ==> r.value in rs && forall x :: x in rs ==> x.t <= r.value.t
  {
    if rs == [] then None
    else
      var last := rs[|rs| - 1];
      assert rs == rs[..|rs| - 1] + [last];
      match Latest(rs[..|rs| - 1])
      case None => Some(last)
      case Some(best) => if last.t >= best.t then Some(last) else Some(best)
  }

  /** The object built from the latest record: `{'$': d}` when it has a d, `{}` otherwise. */
  function BoxOf(latest: Option<CredRecord>): (box: CredBox)
    ensures box.Some? <==> latest.Some? && latest.value.d != ""
    ensures box.Some? ==> box.value == latest.value.d
  {
    if latest.Some? && latest.value.d != "" then Some(latest.value.d) else None
  }

  /** A record appended with a time no earlier than every stored one is the latest. */
  lemma LatestAfterAppend(rs: seq<CredRecord>, x: CredRecord)
    requires forall y :: y in rs ==> y.t <= x.t
    ensures Latest(rs + [x]) == Some(x)
  {
    assert (rs + [x])[..|rs|] == rs;
  }

  /** `path.replace(/\//g, "_")`: every '/' becomes '_'. */
  function Mangle(path: string): (key: string)
    ensures |key| == |path|
    ensures forall i :: 0 <= i < |path| ==> key[i] == if path[i] == '/' then '_' else path[i]
  {
    if path == [] then [] else [if path[0] == '/' then '_' else path[0]] + Mangle(path[1..])
  }

  /** A mangled path has no '/', and mangling it again changes nothing. */
  lemma MangleIdempotent(path: string)
    ensures '/' !in Mangle(path)
    ensures Mangle(Mangle(path)) == Mangle(path)
  {
    var key := Mangle(path);
    forall i | 0 <= i < |key| ensures key[i] != '/' { }
    assert Mangle(key) == key;
  }

  /** Two paths that differ only in '/' against '_' name the same library entry. */
  lemma MangleCollides(p: string, q: string)
    requires |p| == |q|
    requires forall i :: 0 <= i < |p| ==> p[i] == q[i] || (p[i] in "/_" && q[i] in "/_")
    ensures Mangle(p) == Mangle(q)
  {
  }

  /** An element of getLibraryEntry's result. */
  datatype LibraryItem =
    | Listed(entryType: string, path: string, body: Json)  // `{type: 'flow', path, body}` for the path '/'
    | Found(entry: Option<Json>)                          // `{path: entry}`, the entry possibly undefined

  class Storage {
    var settings: Json
    var sessions: Json
    var credentials: CredBox
    var libraryEntries: map<string, Json>
    var credTable: seq<CredRecord>
    const flows: Table
    const keystream: Keystream
    const codec: PlainCodec

    /**
     * `init(settings, runtime)` after the module is loaded: the settings are
     * kept and the key is derived (the keystream stands for the key). The
     * tables are whatever the database holds.
     */
    constructor Init(runtimeSettings: Json, flowTable: Table, storedCreds: seq<CredRecord>,
                     ks: Keystream, plainCodec: PlainCodec)
      ensures settings == runtimeSettings && sessions == JArr([]) && credentials == None
      ensures libraryEntries == map[] && credTable == storedCreds
      ensures flows == flowTable && keystream == ks && codec == plainCodec
    {
      settings := runtimeSettings;
      sessions := JArr([]);
      credentials := None;
      libraryEntries := map[];
      credTable := storedCreds;
      flows := flowTable;
      keystream := ks;
      codec := plainCodec;
    }

    /** getFlows: every record of every scope. */
    method GetFlows() returns (rs: seq<FlowRecord>)
      ensures rs == flows.records
    {
      rs := flows.FindAll();
    }

    /** saveFlows: an upsert by id that sees every scope. */
    method SaveFlows(newFlows: seq<FlowRecord>) returns (saved: seq<FlowRecord>)
      requires flows.Valid()
      modifies flows
      ensures flows.Valid()
      ensures flows.records == UpsertAll(old(flows.records), newFlows)
      ensures saved == newFlows
    {
      flows.Upsert(newFlows);
      saved := newFlows;
    }

    /** getCredentials: the object of the latest record, also kept in `credentials`. */
    method GetCredentials() returns (box: CredBox)
      modifies this`credentials
      ensures box == BoxOf(Latest(credTable))
      ensures credentials == box
    {
      var latest := Latest(credTable);
      box := BoxOf(latest);
      credentials := box;
    }

    /**
     * saveCredentials: decrypt the submitted object, decrypt the latest stored
     * one, merge, encrypt under the fresh IV and append `{d, t: now}`. Either
     * decryption failing is an error and nothing is appended; in particular the
     * first save into an empty table fails.
     */
    method SaveCredentials(incoming: CredBox, iv: seq<byte>, now: int) returns (r: Result<CredBox, CipherError>)
      requires |iv| == IvBytes
      modifies this`credentials, this`credTable
      ensures Decrypt(keystream, codec, incoming).Err? ==>
                r == Err(Decrypt(keystream, codec, incoming).error) &&
                credentials == incoming && credTable == old(credTable)
      ensures Decrypt(keystream, codec, incoming).Ok? ==>
                credentials == BoxOf(Latest(old(credTable)))
      ensures Decrypt(keystream, codec, incoming).Ok? &&
              Decrypt(keystream, codec, BoxOf(Latest(old(credTable)))).Err? ==>
                r == Err(Decrypt(keystream, codec, BoxOf(Latest(old(credTable)))).error) &&
                credTable == old(credTable)
      ensures Decrypt(keystream, codec, incoming).Ok? &&
              Decrypt(keystream, codec, BoxOf(Latest(old(credTable)))).Ok? ==>
                var merged := Merge(Decrypt(keystream, codec, BoxOf(Latest(old(credTable)))).value,
                                    Decrypt(keystream, codec, incoming).value);
                var d := Encrypt(keystream, codec, iv, merged);
                r == Ok(Some(d)) && credTable == old(credTable) + [CredRecord(d, now)]
      ensures old(credTable) == [] ==> r.Err?
    {
      credentials := incoming;
      var decrypted1 := Decrypt(keystream, codec, incoming);
      if decrypted1.Err? {
        return Err(decrypted1.error);
      }
      var latest := Latest(credTable);
      credentials := BoxOf(latest);
      var decrypted2 := Decrypt(keystream, codec, credentials);
      if decrypted2.Err? {
        return Err(decrypted2.error);
      }
      var merged := MergeCredentials(decrypted2.value, decrypted1.value);
      var encrypted := Encrypt(keystream, codec, iv, merged);
      credTable := credTable + [CredRecord(encrypted, now)];
      r := Ok(Some(encrypted));
    }

    method GetSettings() returns (s: Json)
      ensures s == settings
    {
      s := settings;
    }

    method SaveSettings(newSettings: Json) returns (s: Json)
      modifies this`settings
      ensures settings == newSettings && s == newSettings
    {
      settings := newSettings;
      s := settings;
    }

    method GetSessions() returns (s: Json)
      ensures s == sessions
    {
      s := sessions;
    }

    method SaveSessions(newSessions: Json) returns (s: Json)
      modifies this`sessions
      ensures sessions == newSessions && s == newSessions
    {
      sessions := newSessions;
      s := sessions;
    }

    /**
     * getLibraryEntry: for the path '/', one `{type: 'flow', path, body}` per
     * stored entry; for any other path, the single entry stored under the
     * mangled path, possibly undefined. The entry type is ignored.
     */
    method GetLibraryEntry(entryType: string, path: string) returns (res: seq<LibraryItem>)
      ensures path == "/" ==> |res| == |libraryEntries|
      ensures path == "/" ==> forall k :: k in libraryEntries ==> Listed("flow", k, libraryEntries[k]) in res
      ensures path == "/" ==> forall item :: item in res ==>
                item.Listed? && item.entryType == "flow" && item.path in libraryEntries &&
                item.body == libraryEntries[item.path]
      ensures path != "/" ==>
                res == [Found(if Mangle(path) in libraryEntries then Some(libraryEntries[Mangle(path)]) else None)]
    {
      if path == "/" {
        res := [];
        var keys := libraryEntries.Keys;
        while keys != {}
          invariant keys <= libraryEntries.Keys
          invariant |res| + |keys| == |libraryEntries|
          invariant forall k :: k in libraryEntries && k !in keys ==> Listed("flow", k, libraryEntries[k]) in res
          invariant forall item :: item in res ==>
                      item.Listed? && item.entryType == "flow" && item.path in libraryEntries &&
                      item.path !in keys && item.body == libraryEntries[item.path]
          decreases keys
        {
          var e :| e in keys;
          res := res + [Listed("flow", e, libraryEntries[e])];
          keys := keys - {e};
        }
      } else {
        var key := Mangle(path);
        res := [Found(if key in libraryEntries then Some(libraryEntries[key]) else None)];
      }
    }

    /** saveLibraryEntry: the body is stored under the mangled path and returned. */
    method SaveLibraryEntry(entryType: string, path: string, meta: Json, body: Json) returns (r: Json)
      modifies this`libraryEntries
      ensures libraryEntries == old(libraryEntries)[Mangle(path) := body]
      ensures r == body
    {
      libraryEntries := libraryEntries[Mangle(path) := body];
      r := body;
    }
  }

  /**
   * Reading after a successful save: when the clock has not gone back, the
   * next getCredentials yields the saved object, and it decrypts to the merge
   * of the stored and the submitted credentials.
   */
  lemma ReadAfterSave(ks: Keystream, codec: PlainCodec, table: seq<CredRecord>,
                      stored: Vault, incoming: Vault, iv: seq<byte>, now: int)
    requires RoundTrips(codec)
    requires |iv| == IvBytes
    requires forall x :: x in table ==> x.t <= now
    ensures var d := Encrypt(ks, codec, iv, Merge(stored, incoming));
            BoxOf(Latest(table + [CredRecord(d, now)])) == Some(d) &&
            Decrypt(ks, codec, Some(d)) == Ok(Merge(stored, incoming))
  {
    var d := Encrypt(ks, codec, iv, Merge(stored, incoming));
    LatestAfterAppend(table, CredRecord(d, now));
    DecryptEncrypt(ks, codec, iv, Merge(stored, incoming));
  }
}
