# oe-node-red core, modelled in Dafny

This project models the two files that make Node-RED multi-tenant inside an
oe-cloud (LoopBack) application:

- `lib/oe-node-red-storage.js`, the storage module the Node-RED runtime calls.
  It keeps every flow node in the `NodeRedFlow` table and reads it across all
  tenants. It keeps the credential vault encrypted (AES-256-CTR, a random
  16-byte IV, hex IV followed by base64 ciphertext) as append-only
  `NodeRedCred` records `{d, t}`. On save, it merges the newly submitted
  credentials into the latest stored vault. Settings, sessions and library
  entries stay in memory.
- `server/boot/node-red.js`, the boot script. It builds the Node-RED settings
  (defaults, then the settings file, then runtime fills), checks the admin
  role in front of the editor, and intercepts the editor's `/flows` requests.
  A POST replaces the caller's flows: remove everything of the caller's
  tenant, then create the submitted flows. A GET rewrites the engine's
  response to `{flows, rev}`, listing only the caller's flows.

Modules, one file each:

| file | module | contents |
|---|---|---|
| wrappers.dfy | Wrappers | Option, Result |
| json.dfy | Json | JSON values, JavaScript truthiness, property read |
| bytes.dfy | Bytes | bytes, bitwise exclusive-or and its self-inverse law |
| hex.dfy | Hex | Buffer hex encoding and Node's lenient hex decoding |
| base64.dfy | Base64 | RFC 4648 base64 with padding, strict decoding |
| credential_cipher.dfy | CredentialCipher | the vault's ciphertext format, encrypt and decrypt |
| credential_merge.dfy | CredentialMerge | the credential merge of saveCredentials |
| flow_table.dfy | FlowTable | the NodeRedFlow table: a class over a record sequence |
| storage.dfy | Storage | the storage module: a class whose fields are the module variables |
| node_red_boot.dfy | NodeRedBoot | settings, admin gate, `/flows` interceptor |

Assumptions made explicit in the model:

- AES-CTR is a stream cipher. The keystream (key and IV to bytes) is a
  parameter, and the round trip holds for every keystream. The block cipher
  and the SHA-256 key derivation are not modelled.
- JSON serialisation of the vault is a parameter. The round trip requires
  that parsing undoes serialising (`RoundTrips`). This is a precondition, not
  an axiom.
- The data layer's multi-tenancy is stated as the behaviour of the `Table`
  class (see the comment at the head of flow_table.dfy):
  - a scoped find, remove or create sees only the caller's tenant;
  - records without a tenant are invisible to scoped calls;
  - the unscoped find and upsert of the storage module see everything;
  - the id is the table's key across all tenants, so a scoped create skips a
    record whose id is taken and reports failure.
- `findOne({order: "t DESC"})` returns a record of greatest `t`. Among equal
  `t`, the model takes the last inserted.
- The random IV, the clock, the process environment and whether the code runs
  under the test runner are parameters.

Behaviour of the code that a reader might not expect, which the model keeps:

- The first `saveCredentials` into an empty `NodeRedCred` table cannot
  succeed. The code decrypts the latest stored object before merging, and
  for an empty table that object is `{}`, so the decryption throws.
  `SaveCredentials` ensures `old(credTable) == [] ==> r.Err?`.
- A flows save is not a transaction. The remove happens before the create,
  and a failed create leaves the caller with fewer flows. `CollidingSaveLosesFlows`
  shows a case where the caller is left with none.
- Flow ids are not separated by tenant. A save whose ids are already used in
  another tenant is refused for those records.

## Model

| member | source | states |
|---|---|---|
| Bytes.XorInvolutive | lib/oe-node-red-storage.js:151-152 | exclusive-or with the same key byte twice gives the input back, which is why decipher undoes cipher |
| Bytes.XorByte | lib/oe-node-red-storage.js:159-160 | the exclusive-or of two bytes is a byte, and xor-ing it again with the key gives the input |
| Hex.Encode | lib/oe-node-red-storage.js:160 | `toString('hex')` gives two lower-case hex digits per byte |
| Hex.Decode | lib/oe-node-red-storage.js:149 | `new Buffer(s, 'hex')` yields at most one byte per two characters |
| Hex.DecodeEncode | lib/oe-node-red-storage.js:149 | decoding the hex text of bytes gives the bytes back |
| Hex.DecodeLength | lib/oe-node-red-storage.js:149 | every pair of characters decodes exactly when the text, up to a last odd character, is all hex digits |
| Base64.Sextets | lib/oe-node-red-storage.js:160 | the number of six-bit values is fixed by the byte count modulo 3 |
| Base64.Encode | lib/oe-node-red-storage.js:160 | the base64 text is padded to a multiple of four characters |
| Base64.Decode | lib/oe-node-red-storage.js:152 | only text whose length is a multiple of four decodes |
| Base64.ValuesRender | lib/oe-node-red-storage.js:152 | reading the characters of rendered six-bit values gives the values back |
| Base64.UnsextetsSextets | lib/oe-node-red-storage.js:152 | regrouping the six-bit values of bytes gives the bytes back |
| Base64.DecodeEncode | lib/oe-node-red-storage.js:152 | decoding encoded bytes gives the bytes back |
| CredentialCipher.Crypt | lib/oe-node-red-storage.js:151-152 | counter mode keeps the length; each output byte xor the keystream byte is the input byte |
| CredentialCipher.CryptInvolutive | lib/oe-node-red-storage.js:159-160 | running the cipher twice with the same IV gives the plaintext back |
| CredentialCipher.Frame | lib/oe-node-red-storage.js:160 | the stored text is the 32-character hex IV followed by the payload |
| CredentialCipher.Split | lib/oe-node-red-storage.js:149-150 | `substring(0, 32)` and `substring(32)` partition the text, clamped for short text |
| CredentialCipher.SplitFrame | lib/oe-node-red-storage.js:149-150 | splitting a stored text gives back the hex IV, which decodes to the IV, and the payload |
| CredentialCipher.Encrypt | lib/oe-node-red-storage.js:157-161 | the result starts with the IV in hex, which reads back as the IV |
| CredentialCipher.Decrypt | lib/oe-node-red-storage.js:147-154 | a missing `$` and a short or non-hex IV are errors; success implies a text of at least 32 characters |
| CredentialCipher.DecryptEncrypt | lib/oe-node-red-storage.js:147-161 | decrypting what was encrypted under any IV gives the vault back |
| CredentialMerge.Merge | lib/oe-node-red-storage.js:75-83 | the merged vault holds exactly the node ids of both vaults |
| CredentialMerge.MergeKeepsOtherNodes | lib/oe-node-red-storage.js:75-83 | a stored node id that was not submitted keeps its entry exactly |
| CredentialMerge.MergeInsertsNewNode | lib/oe-node-red-storage.js:76 | a submitted node id that is not stored is inserted whole |
| CredentialMerge.MergeFields | lib/oe-node-red-storage.js:77-81 | for a node id in both, submitted fields take the new value and other stored fields keep theirs |
| CredentialMerge.MergeFieldsInto | lib/oe-node-red-storage.js:79-81 | the field loop leaves the stored entry overridden by the submitted fields |
| CredentialMerge.MergeNode | lib/oe-node-red-storage.js:76-82 | one node id is inserted whole or field-merged, and nothing else changes |
| CredentialMerge.MergeCredentials | lib/oe-node-red-storage.js:75-83 | the node loop computes Merge of the stored and the submitted vault |
| CredentialMerge.MergedStep | lib/oe-node-red-storage.js:75-83 | processing one more node id keeps the merge loop's invariant |
| CredentialMerge.MergedDone | lib/oe-node-red-storage.js:75-83 | when no node id is pending, the loop's vault is Merge |
| CredentialMerge.MergeIdempotent | lib/oe-node-red-storage.js:75-83 | merging the same submission a second time changes nothing |
| CredentialMerge.MergeNonDestructive | lib/oe-node-red-storage.js:75-83 | no stored node id or field is ever lost by a merge |
| FlowTable.InScopeMembers | server/boot/node-red.js:199 | a scoped find returns exactly the caller's records, and a scoped remove keeps exactly the others |
| FlowTable.InScopeAppend | server/boot/node-red.js:199 | the scoped views of a concatenation are the concatenations of the views, in order |
| FlowTable.RemoveIsolation | server/boot/node-red.js:131 | after a scoped remove the caller's tenant is empty and every other tenant is unchanged |
| FlowTable.CreateAllOk | server/boot/node-red.js:145 | a create that reports success appended every new record, stamped with the caller's tenant, in order |
| FlowTable.CreateAllIsolation | server/boot/node-red.js:145 | a scoped create never changes records outside the caller's tenant |
| FlowTable.CreateAllTaken | server/boot/node-red.js:145 | a create whose every id is already taken creates nothing and reports failure |
| FlowTable.CreateAllUnique | server/boot/node-red.js:145 | a create keeps ids unique across the table |
| FlowTable.UpsertOneContents | lib/oe-node-red-storage.js:42 | after an upsert the record is present, the id set gains only its id, and records with other ids stay |
| FlowTable.UpsertOneUnique | lib/oe-node-red-storage.js:42 | an upsert keeps ids unique |
| FlowTable.UpsertOneIdempotent | lib/oe-node-red-storage.js:42 | upserting the same record twice equals upserting it once |
| FlowTable.UpsertAllUnique | lib/oe-node-red-storage.js:42 | upserting a list keeps ids unique |
| FlowTable.Table.Find | server/boot/node-red.js:199 | a scoped find returns the caller's records in table order |
| FlowTable.Table.FindAll | lib/oe-node-red-storage.js:32 | the unscoped find returns every record |
| FlowTable.Table.Remove | server/boot/node-red.js:131 | a scoped remove leaves exactly the records outside the caller's tenant, keeping ids unique |
| FlowTable.Table.Create | server/boot/node-red.js:145 | a scoped create adds the records whose ids are free, and reports whether all were |
| FlowTable.Table.Upsert | lib/oe-node-red-storage.js:42 | the unscoped upsert replaces or appends by id, keeping ids unique |
| Storage.Latest | lib/oe-node-red-storage.js:52 | the latest record is a stored record with the greatest t, and exists exactly when the table is non-empty |
| Storage.BoxOf | lib/oe-node-red-storage.js:54-56 | the object is `{'$': d}` exactly when the latest record has a d |
| Storage.LatestAfterAppend | lib/oe-node-red-storage.js:85 | a record appended with a time no earlier than every stored one becomes the latest |
| Storage.Mangle | lib/oe-node-red-storage.js:131 | every '/' of the path becomes '_', and every other character stays |
| Storage.MangleIdempotent | lib/oe-node-red-storage.js:139 | a mangled key has no '/', and mangling it again changes nothing |
| Storage.MangleCollides | lib/oe-node-red-storage.js:139 | paths that differ only in '/' against '_' share one library entry |
| Storage.Storage.Init | lib/oe-node-red-storage.js:21-28 | init keeps the runtime settings; the in-memory state starts empty |
| Storage.Storage.GetFlows | lib/oe-node-red-storage.js:30-38 | getFlows returns every flow record of every tenant |
| Storage.Storage.SaveFlows | lib/oe-node-red-storage.js:40-47 | saveFlows upserts by id across tenants, keeping ids unique |
| Storage.Storage.GetCredentials | lib/oe-node-red-storage.js:50-61 | getCredentials returns, and remembers, the object of the latest record |
| Storage.Storage.SaveCredentials | lib/oe-node-red-storage.js:63-93 | a submitted or stored object that does not decrypt is an error and appends nothing; otherwise the merge of stored and submitted credentials is encrypted under the IV and appended with the time; an empty table always fails |
| Storage.Storage.GetSettings | lib/oe-node-red-storage.js:95-99 | returns the settings held |
| Storage.Storage.SaveSettings | lib/oe-node-red-storage.js:101-106 | replaces the settings held and returns them |
| Storage.Storage.GetSessions | lib/oe-node-red-storage.js:108-112 | returns the sessions held |
| Storage.Storage.SaveSessions | lib/oe-node-red-storage.js:114-119 | replaces the sessions held and returns them |
| Storage.Storage.GetLibraryEntry | lib/oe-node-red-storage.js:121-135 | for '/', one `{type: 'flow', path, body}` per stored entry and nothing else; otherwise the single entry under the mangled path, possibly undefined |
| Storage.Storage.SaveLibraryEntry | lib/oe-node-red-storage.js:137-142 | the body is stored under the mangled path and returned |
| Storage.ReadAfterSave | lib/oe-node-red-storage.js:50-93 | after a successful save, getCredentials yields the saved object, which decrypts to the merge |
| NodeRedBoot.IsNodeRedAdmin | server/boot/node-red.js:313-329 | false for missing or empty admin roles and for a missing token, token data or roles; otherwise true exactly when some admin role is among the token's roles |
| NodeRedBoot.TokenRoles | server/boot/node-red.js:319-321 | the token's roles are available exactly when the token, its data and its roles are all present |
| NodeRedBoot.EffectiveRoles | server/boot/node-red.js:86 | the configured roles when truthy, else NODE_RED_ADMIN alone |
| NodeRedBoot.AdminGate | server/boot/node-red.js:84-97 | under the admin root a caller without an admin role gets 401 `{error: 'unauthorized'}`; everything else passes |
| NodeRedBoot.NodeRootIsGated | server/boot/node-red.js:89 | with the default roots every `/redapi` URL starts with `/red`, so the gate covers it too |
| NodeRedBoot.DefaultSettings | server/boot/node-red.js:260-273 | the code's default keys, with `/red` as the admin root |
| NodeRedBoot.ApplyFileSettings | server/boot/node-red.js:282-286 | the file loop overrides the defaults key by key |
| NodeRedBoot.FillFacts | server/boot/node-red.js:288-297 | a fill keeps a truthy value, sets a missing or falsy one, and leaves other keys alone |
| NodeRedBoot.Layer | server/boot/node-red.js:260-297 | the settings hold the default keys, the file's keys and the three filled keys |
| NodeRedBoot.LayerMeaning | server/boot/node-red.js:260-297 | the file wins over the defaults; logging, server and storageModule come from the file only when truthy there |
| NodeRedBoot.DefaultLayers | server/boot/node-red.js:260-297 | with the built-in defaults, the admin root is the file's or `/red`, and the three fills apply |
| NodeRedBoot.BuildSettings | server/boot/node-red.js:260-297 | the settings built step by step are Layer of the defaults and the file |
| NodeRedBoot.GetSettings | server/boot/node-red.js:231-305 | disabled exactly by `disableNodeRed === true` or DISABLE_NODE_RED of "true" or "1"; otherwise Layer of the defaults and the file |
| NodeRedBoot.Transform | server/boot/node-red.js:141-143 | one `{id: f.id, node: f}` per submitted flow, in order |
| NodeRedBoot.SaveUserFlows | server/boot/node-red.js:127-172 | the caller's records are removed and, when flows were submitted, the transformed flows created under the caller's tenant |
| NodeRedBoot.Nodes | server/boot/node-red.js:208-210 | the node of each record, in order |
| NodeRedBoot.RevOf | server/boot/node-red.js:191-195 | the engine body's rev when body and rev are truthy, else null; an empty body reads as `{}` |
| NodeRedBoot.RewriteFlowsBody | server/boot/node-red.js:184-219 | the body sent is `{flows, rev}`, the flows being the caller's nodes only |
| NodeRedBoot.HandleRequest | server/boot/node-red.js:84-221 | exactly one of four cases: a caller the gate rejects gets 401 and the table is unchanged; otherwise a POST to the flows URL is the save, a GET of it rewrites the body over the unchanged table, and any other request passes untouched |
| NodeRedBoot.SaveIsolation | server/boot/node-red.js:127-154 | a save never changes other tenants or tenant-less records; a successful one leaves the caller with exactly the submitted flows |
| NodeRedBoot.SaveIdempotent | server/boot/node-red.js:127-154 | saving the same flows twice in a row leaves the same table as saving once |
| NodeRedBoot.CollidingSaveLosesFlows | server/boot/node-red.js:131-154 | when every submitted id is used in another tenant, the save fails and the caller has no flows left |

## Left out

- AES-256 and SHA-256: the keystream is a parameter. The key derivation in `init` is not modelled; the key is always a 32-byte SHA-256 digest, which is the length AES-256 needs. Neither is the exception `init` raises when no `credentialSecret` is configured, since hashing an undefined value throws.
- JSON text: `JSON.stringify` and `JSON.parse` of the vault are a codec parameter. Elsewhere JSON documents are values. Numbers are integers; floating point is not modelled.
- UTF-8 decoding of the deciphered bytes is part of the codec parameter.
- Base64.Decode: strict. Node's decipher accepts malformed base64 leniently; the model reports `BadPayload` for such text instead.
- Storage.Latest: which record `findOne` returns among records with equal `t` is the data layer's choice. The model takes the one inserted last.
- Storage.Storage.SaveCredentials: models only the records appended by this object. A record written concurrently by another process is not modelled. Promise plumbing is not modelled: an exception inside the database callback becomes an error result, although the source's promise never settles.
- Storage.Storage.GetCredentials, Storage.Storage.SaveCredentials and NodeRedBoot.SaveUserFlows: the `NodeRedCred` and `NodeRedFlow` tables never fail in the model. The source reacts to a database error as follows:
  - getCredentials: a failed findOne is logged and answered with `{}`, which looks the same as an empty vault.
  - saveCredentials: a failed findOne makes the stored side `{}`, so its decryption throws. A failed upsert leaves the result undefined, so reading its `d` throws and the save never completes.
  - a flows save: a failed remove keeps the caller's records, creates nothing and does not call `next()`.
- Storage.Storage.SaveFlows and GetFlows: errors from the database are logged and ignored in the source; the model has no database errors.
- Storage.Storage.GetLibraryEntry: the order in which `Object.keys` lists entries is not modelled. The contract states the set of items and their count.
- The `NodeRedCred` model lookup in `init` and the LoopBack model registry are not modelled; the tables are passed in.
- `RED.init`, `RED.start`, mounting the editor and node routers (lines 34-47) and the body parsers (lines 66-72): framework wiring with no logic of its own.
- The `createNode` patch that copies the call context into messages (lines 51-58): it changes the Node-RED runtime, which is not part of this model.
- The `reloadNodeRedFlows` event and its listener (lines 113-117, 151): the listener only logs.
- The flow file written on a save outside production (lines 156-169): file I/O.
- NodeRedBoot.HandleRequest: `next()` is not modelled. In the source, a save with no flows never calls `next()`, and a flows URL with another method is left unanswered. The model returns `Saved(false)` and `Untouched` for these two cases. The model's remove cannot fail, so it has no failed-remove case (see the line above on database failures).
- NodeRedBoot.RewriteFlowsBody: the replacement of `res.send` is modelled as a function of the engine's parsed body. A body that is not valid JSON (the source throws) is not modelled, and neither are database errors on the find.
- NodeRedBoot.Transform: a submitted flow that is not an object has id null in the model. In the source, `null` or `undefined` entries throw.
- NodeRedBoot.Transform: a flow object with no `id`, or a null one, gets id null in the model. All id-less flows of one save then share that id, so at most the first is created and the save reports failure. In the source the record `{id: undefined, node: f}` goes to the data layer, which may generate an id or refuse the record; that choice of the data layer is not modelled.
- CredentialMerge.Merge, CredentialMerge.MergeInsertsNewNode and CredentialMerge.MergeFields: the decrypted vault and its entries are plain JavaScript objects, and their inherited and prototype properties are not modelled. A submitted node id that names an inherited property, such as `constructor`, reads a truthy inherited value, so its fields are written onto that value and the node is lost. A node id `__proto__` writes its fields onto `Object.prototype`. A submitted field named `__proto__` goes through the prototype setter and is not stored. A `Vault` also cannot hold a stored entry that is falsy or primitive: the source replaces a falsy entry whole and, outside strict mode, silently drops field writes to a string entry. The model treats every node id and field name as an ordinary key.
- Storage.Storage.GetLibraryEntry and Storage.Storage.SaveLibraryEntry: the entries are held in a plain JavaScript object. Its inherited and prototype keys are not modelled: a mangled path such as `__proto__` is written to the prototype and never listed, and one such as `constructor` reads an inherited value instead of undefined. The model keys a map by the mangled path and has none of these effects.
- NodeRedBoot.AdminGate: the configured admin roles are taken as a list of strings (None when missing or falsy). A truthy configuration value that is not an array of strings is not modelled. Token roles are a list of strings too.
- NodeRedBoot.GetSettings: the settings file is a map from key to value (None when it cannot be loaded). Runtime objects (the app, the storage module, the logger, `functionGlobalContext`) are named placeholders. The admin root is a parameter of the gate and the interceptor rather than read back from the settings. Logging and `initLogger` are not modelled.
- Concurrency: the interleaving of asynchronous database callbacks between requests is not modelled. Every operation is atomic in the model.
