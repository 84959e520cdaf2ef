/** Governed memory: transitive deletion over an arbitrary graph of derivations, with a ledger. */
module MemoryDeletion {
  import opened Basics

  datatype Key = Key(tenant: string, id: string)

  datatype Edge = Edge(tenant: string, parent: string, child: string)

  datatype MemoryRow = MemoryRow(content: string, live: bool)

  datatype Kind = Write | Delete(root: string)

  datatype Entry = Entry(key: Key, kind: Kind)

  datatype Tables = Tables(
    records: map<Key, MemoryRow>, edges: set<Edge>, projections: set<Key>, ledger: seq<Entry>)

  // ---------------------------------------------------------------- reachability

  /** A walk along the edges of one tenant. */
  predicate Walk(edges: set<Edge>, tenant: string, path: seq<string>) {
    path != [] && forall i | 0 <= i < |path| - 1 :: Edge(tenant, path[i], path[i + 1]) in edges
  }

  ghost predicate Reachable(edges: set<Edge>, tenant: string, root: string, id: string) {
    exists path :: Walk(edges, tenant, path) && path[0] == root && path[|path| - 1] == id
  }

  /** The children that one round of the recursive query adds. */
  function Fresh(edges: set<Edge>, tenant: string, working: set<string>, found: set<string>): set<string> {
    set e | e in edges && e.tenant == tenant && e.parent in working && e.child !in found :: e.child
  }

  lemma ReachableExtends(edges: set<Edge>, tenant: string, root: string, id: string, child: string)
    requires Reachable(edges, tenant, root, id) && Edge(tenant, id, child) in edges
    ensures Reachable(edges, tenant, root, child)
  {
    var path :| Walk(edges, tenant, path) && path[0] == root && path[|path| - 1] == id;
    var longer := path + [child];
    forall i | 0 <= i < |longer| - 1 ensures Edge(tenant, longer[i], longer[i + 1]) in edges {
      if i < |path| - 1 { assert Edge(tenant, path[i], path[i + 1]) in edges; }
    }
    assert Walk(edges, tenant, longer) && longer[0] == root && longer[|longer| - 1] == child;
  }

  /** A set that contains the start of a walk and every child of its members contains the end. */
  lemma {:induction false} ClosedContains(edges: set<Edge>, tenant: string, path: seq<string>, closed: set<string>)
    requires Walk(edges, tenant, path) && path[0] in closed
    requires forall e <- edges | e.tenant == tenant && e.parent in closed :: e.child in closed
    ensures path[|path| - 1] in closed
    decreases |path|
  {
    if |path| > 1 {
      assert Edge(tenant, path[0], path[1]) in edges;
      assert forall i | 0 <= i < |path[1..]| - 1 :: path[1..][i] == path[i + 1];
      ClosedContains(edges, tenant, path[1..], closed);
    }
  }

  /** The recursive query: starting from the root, add the children of what the last round added
      until a round adds nothing.  It ends on every graph, cyclic ones included, with exactly the
      ids reachable from the root. */
  method Affected(edges: set<Edge>, tenant: string, root: string) returns (found: set<string>)
    ensures forall id :: id in found <==> Reachable(edges, tenant, root, id)
  {
    ghost var universe := {root} + (set e | e in edges :: e.child);
    found := {root};
    var working := {root};
    assert Walk(edges, tenant, [root]);
    while working != {}
      invariant root in found && working <= found <= universe
      invariant forall id <- found :: Reachable(edges, tenant, root, id)
      invariant forall e <- edges | e.tenant == tenant && e.parent in found - working :: e.child in found
      decreases universe - found, |working|
    {
      var next := Fresh(edges, tenant, working, found);
      forall id | id in next ensures Reachable(edges, tenant, root, id) {
        var e :| e in edges && e.tenant == tenant && e.parent in working && e.child == id;
        assert e == Edge(tenant, e.parent, id);
        ReachableExtends(edges, tenant, root, e.parent, id);
      }
      forall e | e in edges && e.tenant == tenant && e.parent in found ensures e.child in found + next {
        if e.parent in working && e.child !in found { assert e.child in next; }
      }
      if next == {} { assert found + next == found; } else {
        var id :| id in next;
        assert id in universe - found && id !in universe - (found + next);
      }
      found, working := found + next, next;
    }
    forall id | Reachable(edges, tenant, root, id) ensures id in found {
      var path :| Walk(edges, tenant, path) && path[0] == root && path[|path| - 1] == id;
      ClosedContains(edges, tenant, path, found);
    }
  }

  // ---------------------------------------------------------------- what a deletion does

  /** The live records of the tenant reachable from the root. */
  ghost function Doomed(t: Tables, tenant: string, root: string): set<Key> {
    set k | k in t.records && k.tenant == tenant && t.records[k].live && Reachable(t.edges, tenant, root, k.id)
  }

  function Bury(records: map<Key, MemoryRow>, doomed: set<Key>): map<Key, MemoryRow> {
    map k | k in records :: if k in doomed then records[k].(live := false) else records[k]
  }

  /** The ledger gains one delete entry for each doomed record, in some order, and nothing else. */
  ghost predicate Entered(added: seq<Entry>, doomed: set<Key>, root: string) {
    multiset(added) == multiset(set k | k in doomed :: Entry(k, Delete(root)))
  }

  ghost predicate Deletes(t: Tables, t': Tables, tenant: string, root: string, count: nat) {
    var doomed := Doomed(t, tenant, root);
    && count == |doomed|
    && t'.records == Bury(t.records, doomed)
    && t'.projections == t.projections - doomed
    && t'.edges == t.edges
    && |t.ledger| <= |t'.ledger| && t'.ledger[..|t.ledger|] == t.ledger
    && Entered(t'.ledger[|t.ledger|..], doomed, root)
  }

  /** Deleting the same root again deletes nothing and changes nothing. */
  lemma RepeatDeletesNothing(t: Tables, t': Tables, t'': Tables, tenant: string, root: string, n: nat, m: nat)
    requires Deletes(t, t', tenant, root, n) && Deletes(t', t'', tenant, root, m)
    ensures m == 0 && t'' == t'
  {
    assert Doomed(t', tenant, root) == {};
    NothingDoomed(t', t'', tenant, root, m);
  }

  lemma NothingDoomed(t: Tables, t': Tables, tenant: string, root: string, n: nat)
    requires Deletes(t, t', tenant, root, n) && Doomed(t, tenant, root) == {}
    ensures n == 0 && t' == t
  {
    var none: set<Key> := {};
    assert (set k | k in none :: Entry(k, Delete(root))) == {};
    assert |t'.ledger[|t.ledger|..]| == |multiset(t'.ledger[|t.ledger|..])| == 0;
    assert t'.ledger == t.ledger;
    assert t'.records == t.records;
  }

  /** Nothing derived from the root is left alive or indexed. */
  lemma NothingReachableSurvives(t: Tables, t': Tables, tenant: string, root: string, n: nat, id: string)
    requires Deletes(t, t', tenant, root, n) && Reachable(t.edges, tenant, root, id) && Key(tenant, id) in t'.records
    ensures !t'.records[Key(tenant, id)].live
    ensures t.records[Key(tenant, id)].live ==> Key(tenant, id) !in t'.projections
  {
  }

  // ---------------------------------------------------------------- the store

  datatype AddOutcome = Added | NotStable | DuplicateId

  class MemoryStore {
    var records: map<Key, MemoryRow>
    var edges: set<Edge>
    var projections: set<Key>
    var ledger: seq<Entry>

    ghost function View(): Tables
      reads this
    {
      Tables(records, edges, projections, ledger)
    }

    constructor ()
      ensures View() == Tables(map[], {}, {}, [])
    {
      records, edges, projections, ledger := map[], {}, {}, [];
    }

    /** Memory is persisted only once stable; its id is new in the whole table. */
    method AddMemory(key: Key, content: string, stable: bool) returns (outcome: AddOutcome)
      modifies this
      ensures outcome == NotStable <==> !stable
      ensures outcome == DuplicateId <==> stable && exists k <- old(records) :: k.id == key.id
      ensures if outcome == Added then Adds(old(View()), View(), key, content) else View() == old(View())
      ensures outcome == Added ==>
                records == old(records)[key := MemoryRow(content, true)] && ledger == old(ledger) + [Entry(key, Write)]
                && edges == old(edges) && projections == old(projections)
    {
      if !stable { return NotStable; }
      if exists k <- records :: k.id == key.id { return DuplicateId; }
      records := records[key := MemoryRow(content, true)];
      ledger := ledger + [Entry(key, Write)];
      outcome := Added;
    }

    method DeleteMemory(tenant: string, root: string) returns (count: nat)
      modifies this
      ensures Deletes(old(View()), View(), tenant, root, count)
    {
      var ids := Affected(edges, tenant, root);
      var existing := set k | k in records && k.tenant == tenant && k.id in ids && records[k].live;
      assert existing == Doomed(View(), tenant, root);
      records := Bury(records, existing);
      projections := projections - existing;
      var added := DeleteEntries(existing, root);
      assert (ledger + added)[|ledger|..] == added;
      ledger := ledger + added;
      count := |existing|;
    }
  }

  /** The loop over the deleted ids, in whatever order the database returned them. */
  method DeleteEntries(existing: set<Key>, root: string) returns (added: seq<Entry>)
    ensures Entered(added, existing, root)
  {
    added := [];
    var left, done := existing, {};
    while left != {}
      invariant left + done == existing && left !! done
      invariant Entered(added, done, root)
      decreases |left|
    {
      var k :| k in left;
      EnteredOne(added, done, root, k);
      added := added + [Entry(k, Delete(root))];
      left, done := left - {k}, done + {k};
    }
    assert done == existing;
  }

  lemma EnteredOne(added: seq<Entry>, doomed: set<Key>, root: string, k: Key)
    requires Entered(added, doomed, root) && k !in doomed
    ensures Entered(added + [Entry(k, Delete(root))], doomed + {k}, root)
  {
    var before := set j | j in doomed :: Entry(j, Delete(root));
    var after := set j | j in doomed + {k} :: Entry(j, Delete(root));
    assert after == before + {Entry(k, Delete(root))};
    assert Entry(k, Delete(root)) !in before;
  }

  ghost predicate Adds(t: Tables, t': Tables, key: Key, content: string) {
    && (forall k <- t.records :: k.id != key.id)
    && t' == t.(records := t.records[key := MemoryRow(content, true)], ledger := t.ledger + [Entry(key, Write)])
  }

  // ---------------------------------------------------------------- the ledger

  predicate DeleteRow(e: Entry, key: Key) {
    e.key == key && e.kind.Delete?
  }

  lemma MultisetIndices(entries: seq<Entry>, i: nat, j: nat)
    requires i < j < |entries| && entries[i] == entries[j]
    ensures multiset(entries)[entries[i]] >= 2
  {
    assert entries == entries[..j] + [entries[j]] + entries[j + 1..];
    assert entries[..j][i] == entries[i] && entries[i] in multiset(entries[..j]);
  }

  lemma EnteredExactly(added: seq<Entry>, doomed: set<Key>, root: string)
    requires Entered(added, doomed, root)
    ensures forall e :: e in added <==> e.key in doomed && e.kind == Delete(root)
    ensures forall i, j | 0 <= i < j < |added| :: added[i].key != added[j].key
  {
    var entries := set k | k in doomed :: Entry(k, Delete(root));
    forall e ensures e in added <==> e.key in doomed && e.kind == Delete(root) {
      assert e in added <==> e in multiset(added);
      if e.key in doomed && e.kind == Delete(root) { assert e == Entry(e.key, Delete(root)); }
    }
    forall i, j | 0 <= i < j < |added| ensures added[i].key != added[j].key {
      assert added[i] in added && added[j] in added;
      if added[i] == added[j] { MultisetIndices(added, i, j); }
    }
  }

  function ListMemory(t: Tables, tenant: string): set<Key> {
    set k | k in t.records && k.tenant == tenant && t.records[k].live
  }
}
