/** What the scan of a reachable row table answers, in terms of the rows that are stored. */
module RowQueries {
  import opened Text
  import opened Codecs
  import opened JsonNumbers
  import opened Projection
  import opened ProjectionTables
  import opened RowScan

  /** The listing of one tenant's part of the row table. */
  ghost predicate Lists(table: seq<Entry>, rows: map<Id, Row>, tenant: string) {
    && Ascending(table)
    && (forall i :: 0 <= i < |table| ==>
        (tenant, table[i].0) in rows && table[i].1 == Valid(rows[(tenant, table[i].0)]))
    && (forall k :: (tenant, k) in rows ==> exists i :: 0 <= i < |table| && table[i].0 == k)
  }

  lemma DecodedRealmNotEmpty(id: string)
    requires DecodeStreamId(id).Some?
    ensures DecodeStreamId(id).value.0 != Some("")
  {
  }

  /** Every stored row belongs to one stream, and its key spells the row's own coordinates. */
  lemma RowOrigin(plan: Plan, h: string -> string, db: Db, k: Id) returns (s: Stream, entity: string)
    requires IsDigest(h) && Agrees(plan, h, db) && k in db.tables.rows
    ensures DecodeStreamId(s.id).Some? && DecodeStreamId(s.id).value.0 == db.tables.rows[k].realm
    ensures k.1 == RowKey(h, plan.service, db.tables.rows[k].realm, db.tables.rows[k].view, s.id, entity)
  {
    var parts := AllRecomputed(plan, h, db.streams);
    s :| s in parts && k in parts[s];
    assert db.tables.rows[k] == parts[s][k];
    var at := Locate(plan, h, s, DecodeStreamId(s.id).value, Fold(plan, db.streams[s]).value, k);
    entity := at.1;
  }

  /** In every reachable table, a key extends a query's prefix exactly for that view and that realm. */
  lemma PrefixMeansViewAndRealm(plan: Plan, h: string -> string, db: Db, k: Id, realm: Option<string>, view: string)
    requires IsDigest(h) && Agrees(plan, h, db) && realm != Some("") && k in db.tables.rows
    ensures RowPrefix(h, plan.service, realm, view) < k.1
       <==> db.tables.rows[k].view == view && db.tables.rows[k].realm == realm
  {
    var row := db.tables.rows[k];
    var s, entity := RowOrigin(plan, h, db, k);
    DecodedRealmNotEmpty(s.id);
    RowKeyPrefix(h, plan.service, realm, view, plan.service, row.realm, row.view, s.id, entity);
  }

  /** Keys of the entries that the scan returns, in table order. */
  ghost function MatchingKeys(n: Numerics, table: seq<Entry>, prefix: string,
                              selectors: map<string, Value>): seq<string> {
    if table == [] then []
    else
      var (key, body) := table[|table| - 1];
      MatchingKeys(n, table[..|table| - 1], prefix, selectors)
        + (if prefix < key && body.Valid? && Selects(n, selectors, body.row) then [key] else [])
  }

  ghost predicate Hit(n: Numerics, table: seq<Entry>, prefix: string, selectors: map<string, Value>, i: nat)
    requires i < |table|
  {
    prefix < table[i].0 && table[i].1.Valid? && Selects(n, selectors, table[i].1.row)
  }

  ghost predicate HoldsRow(table: seq<Entry>, key: string, row: Row) { (key, Valid(row)) in table }

  /** Key by key, the rows are those that the table holds under the keys. */
  ghost predicate RowsUnder(table: seq<Entry>, keys: seq<string>, rows: seq<Row>) {
    |keys| == |rows| && forall i :: 0 <= i < |keys| ==> HoldsRow(table, keys[i], rows[i])
  }

  lemma RowsUnderMore(table: seq<Entry>, last: Entry, keys: seq<string>, rows: seq<Row>)
    requires RowsUnder(table, keys, rows)
    ensures RowsUnder(table + [last], keys, rows)
    ensures last.1.Valid? ==> RowsUnder(table + [last], keys + [last.0], rows + [last.1.row])
  {
    forall i | 0 <= i < |keys| ensures HoldsRow(table + [last], keys[i], rows[i]) {
      assert HoldsRow(table, keys[i], rows[i]);
    }
    if last.1.Valid? {
      assert (table + [last])[|table|] == (last.0, Valid(last.1.row));
      assert HoldsRow(table + [last], last.0, last.1.row);
    }
  }

  /** The last entry adds its key and its row together, or neither. */
  lemma LastEntry(n: Numerics, table: seq<Entry>, prefix: string, selectors: map<string, Value>)
    requires table != [] && Matching(n, table, prefix, selectors).Some?
    ensures var init, last := table[..|table| - 1], table[|table| - 1];
      && Matching(n, init, prefix, selectors).Some?
      && var keys, rows := MatchingKeys(n, init, prefix, selectors), Matching(n, init, prefix, selectors).value;
      || (&& MatchingKeys(n, table, prefix, selectors) == keys && Matching(n, table, prefix, selectors) == Some(rows))
      || (&& last.1.Valid? && MatchingKeys(n, table, prefix, selectors) == keys + [last.0]
          && Matching(n, table, prefix, selectors) == Some(rows + [last.1.row]))
  {
    var keys := MatchingKeys(n, table[..|table| - 1], prefix, selectors);
    assert keys + [] == keys;
  }

  /** The scan's answer read back, entry by entry. */
  lemma {:induction false} MatchingEntries(n: Numerics, table: seq<Entry>, prefix: string,
                                           selectors: map<string, Value>)
    requires Matching(n, table, prefix, selectors).Some?
    ensures RowsUnder(table, MatchingKeys(n, table, prefix, selectors), Matching(n, table, prefix, selectors).value)
  {
    if table != [] {
      var init, last := table[..|table| - 1], table[|table| - 1];
      LastEntry(n, table, prefix, selectors);
      MatchingEntries(n, init, prefix, selectors);
      RowsUnderMore(init, last, MatchingKeys(n, init, prefix, selectors), Matching(n, init, prefix, selectors).value);
      InitAndLast(table);
    }
  }

  lemma {:induction false} KeysAreHits(n: Numerics, table: seq<Entry>, prefix: string, selectors: map<string, Value>,
                                       k: string)
    ensures k in MatchingKeys(n, table, prefix, selectors) <==>
      exists i :: 0 <= i < |table| && table[i].0 == k && Hit(n, table, prefix, selectors, i)
  {
    if table != [] {
      var init, last := table[..|table| - 1], |table| - 1;
      KeysAreHits(n, init, prefix, selectors, k);
      if k in MatchingKeys(n, init, prefix, selectors) {
        var i :| 0 <= i < |init| && init[i].0 == k && Hit(n, init, prefix, selectors, i);
        assert Hit(n, table, prefix, selectors, i);
      }
      if i :| 0 <= i < |table| && table[i].0 == k && Hit(n, table, prefix, selectors, i) {
        if i < last { assert init[i] == table[i] && Hit(n, init, prefix, selectors, i); }
      }
      assert table[last].0 == k && Hit(n, table, prefix, selectors, last) ==>
        k in MatchingKeys(n, table, prefix, selectors);
    }
  }

  ghost predicate AscendingKeys(keys: seq<string>) { forall i, j :: 0 <= i < j < |keys| ==> Less(keys[i], keys[j]) }

  lemma {:induction false} KeysAscend(n: Numerics, table: seq<Entry>, prefix: string, selectors: map<string, Value>)
    requires Ascending(table)
    ensures AscendingKeys(MatchingKeys(n, table, prefix, selectors))
  {
    if table != [] {
      var init, last := table[..|table| - 1], |table| - 1;
      KeysAscend(n, init, prefix, selectors);
      var keys := MatchingKeys(n, init, prefix, selectors);
      forall i | 0 <= i < |keys| ensures Less(keys[i], table[last].0) {
        assert keys[i] in keys;
        KeysAreHits(n, init, prefix, selectors, keys[i]);
        var j :| 0 <= j < |init| && init[j].0 == keys[i] && Hit(n, init, prefix, selectors, j);
        assert init[j] == table[j];
      }
    }
  }

  /** A stored row that a query asks for: its view and realm, and every selected field with an equal value. */
  ghost predicate Asked(n: Numerics, rows: map<Id, Row>, tenant: string, realm: Option<string>, view: string,
                        selectors: map<string, Value>, k: string) {
    && (tenant, k) in rows && rows[(tenant, k)].view == view && rows[(tenant, k)].realm == realm
    && forall f :: f in selectors ==>
         f in rows[(tenant, k)].value && n.Equal(rows[(tenant, k)].value[f], selectors[f])
  }

  lemma AskedIff(n: Numerics, rows: map<Id, Row>, tenant: string, realm: Option<string>, view: string,
                 selectors: map<string, Value>, k: string)
    requires (tenant, k) in rows
    ensures var row := rows[(tenant, k)];
      Asked(n, rows, tenant, realm, view, selectors, k) <==>
        row.view == view && row.realm == realm && Selects(n, selectors, row)
  {
  }

  lemma HitIff(n: Numerics, table: seq<Entry>, prefix: string, selectors: map<string, Value>, k: string, row: Row,
               at: nat)
    requires Ascending(table) && at < |table| && table[at] == (k, Valid(row))
    ensures k in MatchingKeys(n, table, prefix, selectors) <==> prefix < k && Selects(n, selectors, row)
  {
    KeysAreHits(n, table, prefix, selectors, k);
    if prefix < k && Selects(n, selectors, row) { assert Hit(n, table, prefix, selectors, at); }
    if i :| 0 <= i < |table| && table[i].0 == k && Hit(n, table, prefix, selectors, i) {
      LessTotal(table[i].0, table[at].0);
      assert i == at;
    }
  }

  lemma HitsAreAsked(plan: Plan, h: string -> string, db: Db, n: Numerics, table: seq<Entry>, tenant: string,
                     realm: Option<string>, view: string, selectors: map<string, Value>, k: string)
    requires IsDigest(h) && realm != Some("") && Agrees(plan, h, db) && Lists(table, db.tables.rows, tenant)
    ensures k in MatchingKeys(n, table, RowPrefix(h, plan.service, realm, view), selectors)
       <==> Asked(n, db.tables.rows, tenant, realm, view, selectors, k)
  {
    var prefix := RowPrefix(h, plan.service, realm, view);
    if (tenant, k) in db.tables.rows {
      var row := db.tables.rows[(tenant, k)];
      var i :| 0 <= i < |table| && table[i].0 == k;
      HitIff(n, table, prefix, selectors, k, row, i);
      PrefixMeansViewAndRealm(plan, h, db, (tenant, k), realm, view);
      AskedIff(n, db.tables.rows, tenant, realm, view, selectors, k);
    } else {
      KeysAreHits(n, table, prefix, selectors, k);
    }
  }

  /**
  End to end: a query returns, in ascending key order, the row of every key that is stored for its
  tenant, view and realm and matches, once per key.
  */
  lemma QueryIsExact(plan: Plan, h: string -> string, batches: seq<Batch>, n: Numerics, table: seq<Entry>,
                     tenant: string, realm: Option<string>, view: string, selectors: map<string, Value>)
    returns (keys: seq<string>)
    requires IsDigest(h) && realm != Some("") && Lists(table, RunBatches(plan, h, batches).tables.rows, tenant)
    ensures AscendingKeys(keys)
    ensures forall k :: k in keys <==>
      Asked(n, RunBatches(plan, h, batches).tables.rows, tenant, realm, view, selectors, k)
    ensures var answer := Matching(n, table, RowPrefix(h, plan.service, realm, view), selectors);
      var rows := RunBatches(plan, h, batches).tables.rows;
      && answer.Some? && |answer.value| == |keys|
      && forall i :: 0 <= i < |keys| ==> (tenant, keys[i]) in rows && answer.value[i] == rows[(tenant, keys[i])]
  {
    var db, prefix := RunBatches(plan, h, batches), RowPrefix(h, plan.service, realm, view);
    RunKeepsAgreement(plan, h, batches);
    CorruptMeansNoMatch(n, table, prefix, selectors);
    keys := MatchingKeys(n, table, prefix, selectors);
    KeysAscend(n, table, prefix, selectors);
    MatchingEntries(n, table, prefix, selectors);
    forall k ensures k in keys <==> Asked(n, db.tables.rows, tenant, realm, view, selectors, k) {
      HitsAreAsked(plan, h, db, n, table, tenant, realm, view, selectors, k);
    }
    var rows := Matching(n, table, prefix, selectors).value;
    forall i | 0 <= i < |keys|
      ensures (tenant, keys[i]) in db.tables.rows && rows[i] == db.tables.rows[(tenant, keys[i])]
    {
      assert HoldsRow(table, keys[i], rows[i]);
    }
  }
}
