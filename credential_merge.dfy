/**
 * The merge at the heart of saveCredentials (lib/oe-node-red-storage.js,
 * lines 75-83): the newly submitted credentials are folded into the stored
 * vault node by node and, for a node already present, field by field.
 */
module CredentialMerge {
  import opened Json
  import opened CredentialCipher

  /**
   * The merged vault: the stored entries, with each node id of the new vault
   * inserted whole when it is not stored, and field-merged when it is.
   */
  function Merge(stored: Vault, incoming: Vault): (r: Vault)
    ensures r.Keys == stored.Keys + incoming.Keys
  {
    map k | k in stored.Keys + incoming.Keys ::
      if k !in incoming then stored[k]
      else if k !in stored then incoming[k]
      else stored[k] + incoming[k]
  }

  /** A node id stored but not submitted keeps its entry exactly. */
  lemma MergeKeepsOtherNodes(stored: Vault, incoming: Vault, k: string)
    requires k in stored && k !in incoming
    ensures Merge(stored, incoming)[k] == stored[k]
  {
  }

  /** A submitted node id that is not stored is inserted with all its fields. */
  lemma MergeInsertsNewNode(stored: Vault, incoming: Vault, k: string)
    requires k in incoming && k !in stored
    ensures Merge(stored, incoming)[k] == incoming[k]
  {
  }

  /**
   * For a node id both stored and submitted, every submitted field takes the
   * new value and every other stored field keeps its value.
   */
  lemma MergeFields(stored: Vault, incoming: Vault, k: string)
    requires k in stored && k in incoming
    ensures Merge(stored, incoming)[k].Keys == stored[k].Keys + incoming[k].Keys
    ensures forall f :: f in incoming[k] ==> Merge(stored, incoming)[k][f] == incoming[k][f]
    ensures forall f :: f in stored[k] && f !in incoming[k] ==> Merge(stored, incoming)[k][f] == stored[k][f]
  {
  }

  /**
   * The inner loop of lines 79-81: each submitted field is written into the
   * stored entry of the node id, the other stored fields are left alone.
   */
  method MergeFieldsInto(entry: map<string, Json>, newCreds: map<string, Json>) returns (r: map<string, Json>)
    ensures r == entry + newCreds
  {
    r := entry;
    var params := newCreds.Keys;
    while params != {}
      invariant params <= newCreds.Keys
      invariant r.Keys == entry.Keys + (newCreds.Keys - params)
      invariant forall f :: f in newCreds && f !in params ==> r[f] == newCreds[f]
      invariant forall f :: f in entry && (f !in newCreds || f in params) ==> r[f] == entry[f]
      decreases params
    {
      var param :| param in params;
      r := r[param := newCreds[param]];
      params := params - {param};
    }
    assert forall f :: f in r ==> r[f] == (entry + newCreds)[f];
  }

  /**
   * One node id of the new vault (lines 76-82): inserted whole when the vault
   * lacks it, otherwise its fields are merged into the vault's entry.
   */
  method MergeNode(vault: Vault, newKey: string, newCreds: map<string, Json>) returns (r: Vault)
    ensures r == vault[newKey := if newKey in vault then vault[newKey] + newCreds else newCreds]
  {
    if newKey !in vault {
      r := vault[newKey := newCreds];
    } else {
      var entry := MergeFieldsInto(vault[newKey], newCreds);
      r := vault[newKey := entry];
    }
  }

  /**
   * The loop of lines 75-83: for each node id of the new vault, insert it
   * whole when the stored vault lacks it, otherwise merge its fields into the
   * stored entry.
   */
  method MergeCredentials(stored: Vault, incoming: Vault) returns (merged: Vault)
    ensures merged == Merge(stored, incoming)
  {
    merged := stored;
    var pending := incoming.Keys;
    while pending != {}
      invariant pending <= incoming.Keys
      invariant MergedSoFar(stored, incoming, pending, merged)
      decreases pending
    {
      var newKey :| newKey in pending;
      var next := MergeNode(merged, newKey, incoming[newKey]);
      MergedStep(stored, incoming, pending, merged, newKey, next);
      merged := next;
      pending := pending - {newKey};
    }
    MergedDone(stored, incoming, merged);
  }

  /**
   * The loop invariant of MergeCredentials: the node ids of the new vault
   * outside pending are merged, everything else is as stored.
   */
  ghost predicate MergedSoFar(stored: Vault, incoming: Vault, pending: set<string>, merged: Vault)
  {
    && merged.Keys == stored.Keys + (incoming.Keys - pending)
    && (forall k :: k in stored && (k !in incoming || k in pending) ==> merged[k] == stored[k])
    && (forall k :: k in incoming && k !in pending ==>
          merged[k] == if k in stored then stored[k] + incoming[k] else incoming[k])
  }

  lemma MergedStep(stored: Vault, incoming: Vault, pending: set<string>, merged: Vault, newKey: string, next: Vault)
    requires pending <= incoming.Keys && newKey in pending
    requires MergedSoFar(stored, incoming, pending, merged)
    requires next == merged[newKey := if newKey in merged then merged[newKey] + incoming[newKey] else incoming[newKey]]
    ensures MergedSoFar(stored, incoming, pending - {newKey}, next)
  {
  }

  lemma MergedDone(stored: Vault, incoming: Vault, merged: Vault)
    requires MergedSoFar(stored, incoming, {}, merged)
    ensures merged == Merge(stored, incoming)
  {
    assert forall k :: k in merged ==> merged[k] == Merge(stored, incoming)[k];
  }

  /** Merging the same new credentials a second time changes nothing. */
  lemma MergeIdempotent(stored: Vault, incoming: Vault)
    ensures Merge(Merge(stored, incoming), incoming) == Merge(stored, incoming)
  {
    var once := Merge(stored, incoming);
    var twice := Merge(once, incoming);
    forall k | k in twice ensures twice[k] == once[k] {
      if k in incoming {
        assert twice[k] == once[k] + incoming[k];
        assert once[k] + incoming[k] == once[k];
      }
    }
  }

  /** A merge never loses a stored (node id, field) pair. */
  lemma MergeNonDestructive(stored: Vault, incoming: Vault, k: string, f: string)
    requires k in stored && f in stored[k]
    ensures k in Merge(stored, incoming) && f in Merge(stored, incoming)[k]
  {
  }
}
