/**
 * The index side of `insert`: one bulk action per record, keyed by the
 * commit hash. The document index is a map from `_id` to the stored
 * document, and every action replaces whatever is stored under its `_id`.
 */
module IndexGateway {
  import opened CommitParser

  const IndexName: string := "personal-git-history"
  const DocType: string := "commit"

  /** One element of `actions`: `_index`, `_type`, `_id` and `_source`. */
  datatype Action = Action(index: string, docType: string, id: string, source: Commit)

  /** The documents of the index, by `_id`. */
  type Index = map<string, Commit>

  /** The `actions` list of `insert`: one action per record, in order. */
  function Actions(parsed: seq<Commit>): (r: seq<Action>)
    ensures |r| == |parsed|
    ensures forall i :: 0 <= i < |parsed| ==>
      r[i].id == parsed[i].hash && r[i].source == parsed[i]
      && r[i].index == IndexName && r[i].docType == DocType
  {
    if parsed == [] then []
    else [Action(IndexName, DocType, parsed[0].hash, parsed[0])] + Actions(parsed[1..])
  }

  function Ids(actions: seq<Action>): set<string>
  {
    set a | a in actions :: a.id
  }

  /** The bulk request applied in order: each action overwrites its `_id`. */
  function Bulk(m: Index, actions: seq<Action>): (r: Index)
    ensures r.Keys == m.Keys + Ids(actions)
  {
    if actions == [] then m
    else
      var init, last := actions[..|actions| - 1], actions[|actions| - 1];
      assert actions == init + [last];
      assert Ids(actions) == Ids(init) + {last.id};
      Bulk(m, init)[last.id := last.source]
  }

  /** `insert(es, parsed)`: the bulk request built from the records. */
  function Insert(m: Index, parsed: seq<Commit>): (r: Index)
    ensures r.Keys == m.Keys + set c | c in parsed :: c.hash
  {
    var acts := Actions(parsed);
    assert Ids(acts) == set c | c in parsed :: c.hash by {
      forall h | h in Ids(acts) ensures h in set c | c in parsed :: c.hash {
        var i :| 0 <= i < |acts| && acts[i].id == h;
        assert parsed[i] in parsed;
      }
      forall h | h in set c | c in parsed :: c.hash ensures h in Ids(acts) {
        var i :| 0 <= i < |parsed| && parsed[i].hash == h;
        assert acts[i] in acts;
      }
    }
    Bulk(m, acts)
  }

  /** The bulk result is the old index overridden by what the actions alone build. */
  lemma {:induction false} BulkOverrides(m: Index, actions: seq<Action>)
    ensures Bulk(m, actions) == m + Bulk(map[], actions)
    decreases |actions|
  {
    if actions != [] {
      BulkOverrides(m, actions[..|actions| - 1]);
    }
  }

  /** Running two requests one after the other is running their concatenation. */
  lemma {:induction false} BulkAppend(m: Index, a: seq<Action>, b: seq<Action>)
    ensures Bulk(m, a + b) == Bulk(Bulk(m, a), b)
    decreases |b|
  {
    if b == [] {
      assert a + b == a;
    } else {
      var init := b[..|b| - 1];
      assert (a + b)[..|a + b| - 1] == a + init;
      BulkAppend(m, a, init);
    }
  }

  /** Among actions with the same `_id`, the last one decides the stored document. */
  lemma {:induction false} BulkLastWins(m: Index, actions: seq<Action>, j: nat)
    requires j < |actions|
    requires forall i :: j < i < |actions| ==> actions[i].id != actions[j].id
    ensures actions[j].id in Bulk(m, actions)
    ensures Bulk(m, actions)[actions[j].id] == actions[j].source
    decreases |actions|
  {
    if j < |actions| - 1 {
      var init := actions[..|actions| - 1];
      BulkLastWins(m, init, j);
    }
  }

  /** A document whose `_id` no action names is left as it was. */
  lemma {:induction false} BulkUntouched(m: Index, actions: seq<Action>, k: string)
    requires forall i :: 0 <= i < |actions| ==> actions[i].id != k
    ensures k in Bulk(m, actions) <==> k in m
    ensures k in m ==> Bulk(m, actions)[k] == m[k]
    decreases |actions|
  {
    if actions != [] {
      BulkUntouched(m, actions[..|actions| - 1], k);
    }
  }

  /** Sending the same request twice leaves the index as sending it once. */
  lemma BulkIdempotent(m: Index, actions: seq<Action>)
    ensures Bulk(Bulk(m, actions), actions) == Bulk(m, actions)
  {
    var d := Bulk(map[], actions);
    BulkOverrides(m, actions);
    BulkOverrides(Bulk(m, actions), actions);
    assert (m + d) + d == m + d;
  }

  /** Re-ingesting a batch changes nothing: the index holds no duplicate documents. */
  lemma InsertIdempotent(m: Index, parsed: seq<Commit>)
    ensures Insert(Insert(m, parsed), parsed) == Insert(m, parsed)
  {
    BulkIdempotent(m, Actions(parsed));
  }

  /** For a hash that several records share, the last such record is the stored one. */
  lemma InsertLastWins(m: Index, parsed: seq<Commit>, j: nat)
    requires j < |parsed|
    requires forall i :: j < i < |parsed| ==> parsed[i].hash != parsed[j].hash
    ensures parsed[j].hash in Insert(m, parsed)
    ensures Insert(m, parsed)[parsed[j].hash] == parsed[j]
  {
    BulkLastWins(m, Actions(parsed), j);
  }

  /** Documents under hashes the batch does not mention are kept as they were. */
  lemma InsertUntouched(m: Index, parsed: seq<Commit>, k: string)
    requires forall i :: 0 <= i < |parsed| ==> parsed[i].hash != k
    ensures k in Insert(m, parsed) <==> k in m
    ensures k in m ==> Insert(m, parsed)[k] == m[k]
  {
    BulkUntouched(m, Actions(parsed), k);
  }

  /** Inserting two batches in turn is inserting their concatenation. */
  lemma InsertAppend(m: Index, a: seq<Commit>, b: seq<Commit>)
    ensures Insert(m, a + b) == Insert(Insert(m, a), b)
  {
    assert Actions(a + b) == Actions(a) + Actions(b);
    BulkAppend(m, Actions(a), Actions(b));
  }

  lemma InsertNothing(m: Index)
    ensures Insert(m, []) == m
  {
  }

  /** Every document is stored under its own hash. */
  predicate KeyedByHash(m: Index)
  {
    forall k :: k in m ==> m[k].hash == k
  }

  /** Insertion keeps every document under its own hash. */
  lemma {:induction false} BulkKeyedByHash(m: Index, actions: seq<Action>)
    requires KeyedByHash(m)
    requires forall i :: 0 <= i < |actions| ==> actions[i].id == actions[i].source.hash
    ensures KeyedByHash(Bulk(m, actions))
    decreases |actions|
  {
    if actions != [] {
      BulkKeyedByHash(m, actions[..|actions| - 1]);
    }
  }

  lemma InsertKeyedByHash(m: Index, parsed: seq<Commit>)
    requires KeyedByHash(m)
    ensures KeyedByHash(Insert(m, parsed))
  {
    BulkKeyedByHash(m, Actions(parsed));
  }
}
