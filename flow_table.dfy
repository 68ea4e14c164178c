/**
 * The NodeRedFlow table as both core files use it. The data layer (LoopBack
 * with the multi-tenancy mixin) is not modelled; the model assumes what it
 * provides:
 *  - every record carries the scope (tenant) of the request that created it;
 *    a record written by an unscoped upsert carries the scope it was given,
 *    possibly none;
 *  - a scoped find, remove or create acts on the caller's scope only, and
 *    records without a scope are outside every caller's scope;
 *  - an unscoped find or upsert (options ignoreAutoScope and fetchAllScopes)
 *    acts on every record;
 *  - the id is the table's key across all scopes: creating a record whose id
 *    is already present fails for that record alone, the others are created.
 */
module FlowTable {
  import opened Wrappers
  import opened Json

  /** A tenant, as carried by the request's call context. */
  type Scope = string

  /** A stored record `{id, node}`, with the scope the data layer added. */
  datatype FlowRecord = FlowRecord(id: Json, scope: Option<Scope>, node: Json)

  /** A record to create, as the request handler builds it: `{id: f.id, node: f}`. */
  datatype NewFlow = NewFlow(id: Json, node: Json)

  function Ids(rs: seq<FlowRecord>): (ids: set<Json>)
    ensures forall r :: r in rs ==> r.id in ids
    ensures forall id :: id in ids ==> exists r :: r in rs && r.id == id
  {
    set r | r in rs :: r.id
  }

  /** No two records share an id. */
  ghost predicate UniqueIds(rs: seq<FlowRecord>)
  {
    forall i, j :: 0 <= i < j < |rs| ==> rs[i].id != rs[j].id
  }

  /** The records of scope s, in table order: what a scoped find returns. */
  function InScope(rs: seq<FlowRecord>, s: Scope): (r: seq<FlowRecord>)
    ensures |r| <= |rs|
  {
    if rs == [] then []
    else (if rs[0].scope == Some(s) then [rs[0]] else []) + InScope(rs[1..], s)
  }

  /** The records outside scope s, in table order: what a scoped remove leaves. */
  function OutOfScope(rs: seq<FlowRecord>, s: Scope): (r: seq<FlowRecord>)
    ensures |r| <= |rs|
  {
    if rs == [] then []
    else (if rs[0].scope != Some(s) then [rs[0]] else []) + OutOfScope(rs[1..], s)
  }

  /** The records a scoped create under s makes from the new flows. */
  function Stamp(items: seq<NewFlow>, s: Scope): (r: seq<FlowRecord>)
    ensures |r| == |items|
    ensures forall i :: 0 <= i < |items| ==> r[i] == FlowRecord(items[i].id, Some(s), items[i].node)
  {
    if items == [] then [] else [FlowRecord(items[0].id, Some(s), items[0].node)] + Stamp(items[1..], s)
  }

  /**
   * A scoped create under s: each new flow in turn is appended, stamped with
   * s, unless its id is already taken; ok is false when one was refused.
   */
  function CreateAll(rs: seq<FlowRecord>, s: Scope, items: seq<NewFlow>): (r: (seq<FlowRecord>, bool))
    decreases |items|
  {
    if items == [] then (rs, true)
    else
      var first := items[0];
      var taken := first.id in Ids(rs);
      var next := if taken then rs else rs + [FlowRecord(first.id, Some(s), first.node)];
      var rest := CreateAll(next, s, items[1..]);
      (rest.0, rest.1 && !taken)
  }

  /** An unscoped upsert of one record: it replaces the record with its id, or is appended. */
  function UpsertOne(rs: seq<FlowRecord>, x: FlowRecord): (r: seq<FlowRecord>)
  {
    if rs == [] then [x]
    else if rs[0].id == x.id then [x] + rs[1..]
    else [rs[0]] + UpsertOne(rs[1..], x)
  }

  function UpsertAll(rs: seq<FlowRecord>, xs: seq<FlowRecord>): (r: seq<FlowRecord>)
    decreases |xs|
  {
    if xs == [] then rs else UpsertAll(UpsertOne(rs, xs[0]), xs[1..])
  }

  /** A scoped find returns exactly the records of that scope. */
  lemma {:induction false} InScopeMembers(rs: seq<FlowRecord>, s: Scope)
    ensures forall x :: x in InScope(rs, s) <==> x in rs && x.scope == Some(s)
    ensures forall x :: x in OutOfScope(rs, s) <==> x in rs && x.scope != Some(s)
  {
    if rs != [] {
      InScopeMembers(rs[1..], s);
      assert rs == [rs[0]] + rs[1..];
    }
  }

  /** Filtering distributes over concatenation, keeping the order of both parts. */
  lemma {:induction false} InScopeAppend(a: seq<FlowRecord>, b: seq<FlowRecord>, s: Scope)
    ensures InScope(a + b, s) == InScope(a, s) + InScope(b, s)
    ensures OutOfScope(a + b, s) == OutOfScope(a, s) + OutOfScope(b, s)
  {
    if a != [] {
      assert (a + b)[1..] == a[1..] + b;
      InScopeAppend(a[1..], b, s);
    } else {
      assert a + b == b;
    }
  }

  /**
   * After a scoped remove under s, scope s is empty and every other scope,
   * and every record without a scope, is as it was.
   */
  lemma {:induction false} RemoveIsolation(rs: seq<FlowRecord>, s: Scope, t: Scope)
    requires t != s
    ensures InScope(OutOfScope(rs, s), s) == []
    ensures InScope(OutOfScope(rs, s), t) == InScope(rs, t)
    ensures OutOfScope(OutOfScope(rs, s), s) == OutOfScope(rs, s)
  {
    if rs != [] {
      RemoveIsolation(rs[1..], s, t);
      var head := if rs[0].scope != Some(s) then [rs[0]] else [];
      assert OutOfScope(rs, s) == head + OutOfScope(rs[1..], s);
      InScopeAppend(head, OutOfScope(rs[1..], s), s);
      InScopeAppend(head, OutOfScope(rs[1..], s), t);
    }
  }

  /** A create that reports success appended every new flow, stamped with s, in order. */
  lemma {:induction false} CreateAllOk(rs: seq<FlowRecord>, s: Scope, items: seq<NewFlow>)
    ensures CreateAll(rs, s, items).1 ==> CreateAll(rs, s, items).0 == rs + Stamp(items, s)
    decreases |items|
  {
    if items != [] {
      var first := items[0];
      var taken := first.id in Ids(rs);
      if !taken {
        var rec := FlowRecord(first.id, Some(s), first.node);
        var next := rs + [rec];
        assert CreateAll(rs, s, items) == CreateAll(next, s, items[1..]);
        CreateAllOk(next, s, items[1..]);
        assert Stamp(items, s) == [rec] + Stamp(items[1..], s);
        assert next + Stamp(items[1..], s) == rs + Stamp(items, s);
      }
    }
  }

  /** A create only appends records of scope s, successful or not. */
  lemma {:induction false} CreateAllAppends(rs: seq<FlowRecord>, s: Scope, items: seq<NewFlow>)
    ensures exists added :: CreateAll(rs, s, items).0 == rs + added && OutOfScope(added, s) == []
    decreases |items|
  {
    if items == [] {
      assert rs + [] == rs;
      assert OutOfScope([], s) == [];
    } else {
      var first := items[0];
      var taken := first.id in Ids(rs);
      var rec := [FlowRecord(first.id, Some(s), first.node)];
      var next := if taken then rs else rs + rec;
      CreateAllAppends(next, s, items[1..]);
      var added :| CreateAll(next, s, items[1..]).0 == next + added && OutOfScope(added, s) == [];
      if taken {
        assert CreateAll(rs, s, items).0 == rs + added;
      } else {
        assert CreateAll(rs, s, items).0 == rs + (rec + added);
        InScopeAppend(rec, added, s);
      }
    }
  }

  /** A create never touches records outside scope s. */
  lemma CreateAllIsolation(rs: seq<FlowRecord>, s: Scope, items: seq<NewFlow>)
    ensures OutOfScope(CreateAll(rs, s, items).0, s) == OutOfScope(rs, s)
  {
    CreateAllAppends(rs, s, items);
    var added :| CreateAll(rs, s, items).0 == rs + added && OutOfScope(added, s) == [];
    InScopeAppend(rs, added, s);
  }

  /** A create whose every id is already taken creates nothing and reports failure. */
  lemma {:induction false} CreateAllTaken(rs: seq<FlowRecord>, s: Scope, items: seq<NewFlow>)
    requires forall i :: 0 <= i < |items| ==> items[i].id in Ids(rs)
    ensures CreateAll(rs, s, items) == (rs, items == [])
    decreases |items|
  {
    if items != [] {
      CreateAllTaken(rs, s, items[1..]);
    }
  }

  /** After an upsert of x, the table holds x, and no id appears or disappears except x's. */
  lemma {:induction false} UpsertOneContents(rs: seq<FlowRecord>, x: FlowRecord)
    ensures x in UpsertOne(rs, x)
    ensures Ids(UpsertOne(rs, x)) == Ids(rs) + {x.id}
    ensures forall r :: r in rs && r.id != x.id ==> r in UpsertOne(rs, x)
  {
    if rs != [] && rs[0].id != x.id {
      UpsertOneContents(rs[1..], x);
      assert rs == [rs[0]] + rs[1..];
    }
  }

  /** Upserting keys by id: it keeps ids unique. */
  lemma {:induction false} UpsertOneUnique(rs: seq<FlowRecord>, x: FlowRecord)
    requires UniqueIds(rs)
    ensures UniqueIds(UpsertOne(rs, x))
  {
    if rs != [] {
      UnconsUnique(rs);
      if rs[0].id != x.id {
        UpsertOneUnique(rs[1..], x);
        UpsertOneContents(rs[1..], x);
        ConsUnique(rs[0], UpsertOne(rs[1..], x));
      } else {
        ConsUnique(x, rs[1..]);
      }
    }
  }

  /** The tail of a table with unique ids has unique ids, none of them the head's. */
  lemma UnconsUnique(rs: seq<FlowRecord>)
    requires UniqueIds(rs) && rs != []
    ensures UniqueIds(rs[1..]) && rs[0].id !in Ids(rs[1..])
  {
    forall r | r in rs[1..] ensures r.id != rs[0].id {
      var k :| 0 <= k < |rs[1..]| && rs[1..][k] == r;
      assert rs[k + 1] == r;
    }
    forall i, j | 0 <= i < j < |rs[1..]| ensures rs[1..][i].id != rs[1..][j].id {
      assert rs[1..][i] == rs[i + 1] && rs[1..][j] == rs[j + 1];
    }
  }

  /** A record whose id is new can head a table with unique ids. */
  lemma ConsUnique(h: FlowRecord, tail: seq<FlowRecord>)
    requires UniqueIds(tail) && h.id !in Ids(tail)
    ensures UniqueIds([h] + tail)
  {
    var rs := [h] + tail;
    forall i, j | 0 <= i < j < |rs| ensures rs[i].id != rs[j].id {
      assert rs[j] == tail[j - 1] && tail[j - 1] in tail;
      if i > 0 {
        assert rs[i] == tail[i - 1];
      }
    }
  }

  /** Upserting the same record twice is the same as once. */
  lemma {:induction false} UpsertOneIdempotent(rs: seq<FlowRecord>, x: FlowRecord)
    ensures UpsertOne(UpsertOne(rs, x), x) == UpsertOne(rs, x)
  {
    if rs != [] && rs[0].id != x.id {
      UpsertOneIdempotent(rs[1..], x);
    }
  }

  /**
   * The table. Its methods stand for the data-layer calls the core makes;
   * each states the table afterwards.
   */
  class Table {
    var records: seq<FlowRecord>

    /** The id is the key of the table. */
    ghost predicate Valid()
      reads this
    {
      UniqueIds(records)
    }

    constructor ()
      ensures Valid() && records == []
    {
      records := [];
    }

    /** `find({}, callContext)`: the caller's records in table order. */
    method Find(s: Scope) returns (rs: seq<FlowRecord>)
      ensures rs == InScope(records, s)
    {
      rs := InScope(records, s);
    }

    /** `find({}, {ignoreAutoScope: true, fetchAllScopes: true})`: every record. */
    method FindAll() returns (rs: seq<FlowRecord>)
      ensures rs == records
    {
      rs := records;
    }

    /** `remove({}, callContext)`: deletes the caller's records. */
    method Remove(s: Scope)
      requires Valid()
      modifies this
      ensures Valid()
      ensures records == OutOfScope(old(records), s)
    {
      OutOfScopeUnique(records, s);
      records := OutOfScope(records, s);
    }

    /** `create(newFlows, callContext)`: ok is false when some id was already taken. */
    method Create(s: Scope, items: seq<NewFlow>) returns (ok: bool)
      requires Valid()
      modifies this
      ensures Valid()
      ensures (records, ok) == CreateAll(old(records), s, items)
    {
      CreateAllUnique(records, s, items);
      var r := CreateAll(records, s, items);
      records, ok := r.0, r.1;
    }

    /** `upsert(flows, {ignoreAutoScope: true, fetchAllScopes: true})`. */
    method Upsert(xs: seq<FlowRecord>)
      requires Valid()
      modifies this
      ensures Valid()
      ensures records == UpsertAll(old(records), xs)
    {
      UpsertAllUnique(records, xs);
      records := UpsertAll(records, xs);
    }
  }

  lemma {:induction false} OutOfScopeUnique(rs: seq<FlowRecord>, s: Scope)
    requires UniqueIds(rs)
    ensures UniqueIds(OutOfScope(rs, s))
  {
    if rs != [] {
      OutOfScopeUnique(rs[1..], s);
      InScopeMembers(rs[1..], s);
      var tail := OutOfScope(rs[1..], s);
      if rs[0].scope != Some(s) {
        forall i, j | 0 <= i < j < |[rs[0]] + tail| ensures ([rs[0]] + tail)[i].id != ([rs[0]] + tail)[j].id {
          assert ([rs[0]] + tail)[j] == tail[j - 1];
          assert tail[j - 1] in rs[1..];
          var k :| 0 <= k < |rs[1..]| && rs[1..][k] == tail[j - 1];
          assert rs[k + 1] == tail[j - 1];
          if i > 0 {
            assert ([rs[0]] + tail)[i] == tail[i - 1];
          }
        }
      }
    }
  }

  lemma {:induction false} CreateAllUnique(rs: seq<FlowRecord>, s: Scope, items: seq<NewFlow>)
    requires UniqueIds(rs)
    ensures UniqueIds(CreateAll(rs, s, items).0)
    decreases |items|
  {
    if items != [] {
      var first := items[0];
      if first.id in Ids(rs) {
        CreateAllUnique(rs, s, items[1..]);
      } else {
        var next := rs + [FlowRecord(first.id, Some(s), first.node)];
        forall i, j | 0 <= i < j < |next| ensures next[i].id != next[j].id {
          if j == |rs| {
            assert next[i] == rs[i] && rs[i] in rs;
          }
        }
        CreateAllUnique(next, s, items[1..]);
      }
    }
  }

  lemma {:induction false} UpsertAllUnique(rs: seq<FlowRecord>, xs: seq<FlowRecord>)
    requires UniqueIds(rs)
    ensures UniqueIds(UpsertAll(rs, xs))
    decreases |xs|
  {
    if xs != [] {
      UpsertOneUnique(rs, xs[0]);
      UpsertAllUnique(UpsertOne(rs, xs[0]), xs[1..]);
    }
  }
}
