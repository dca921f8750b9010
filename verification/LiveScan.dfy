/** The prefix scan while rows change: every page is read from the table as it is at that moment. */
module LiveScan {
  import opened Text
  import opened JsonNumbers
  import opened Projection
  import opened RowScan

  type Tables = seq<seq<Entry>>

  /** One row that the scan returns, with the key it was read under. */
  type Hit = (string, Row)

  ghost predicate AllAscending(tables: Tables) { forall t :: t in tables ==> Ascending(t) }

  ghost predicate Wanted(n: Numerics, prefix: string, selectors: map<string, Value>, hit: Hit) {
    prefix < hit.0 && forall f :: f in selectors ==> f in hit.1.value && n.Equal(hit.1.value[f], selectors[f])
  }

  /** The row is under its key in every one of these tables. */
  ghost predicate Stays(tables: Tables, hit: Hit) { forall t :: t in tables ==> (hit.0, Valid(hit.1)) in t }

  /** The row was under its key in one of these tables. */
  ghost predicate WasStored(tables: Tables, hit: Hit) { exists t :: t in tables && (hit.0, Valid(hit.1)) in t }

  /** Keys strictly ascend, so no key is returned twice. */
  ghost predicate KeysAscend(hits: seq<Hit>) { forall i, j :: 0 <= i < j < |hits| ==> Less(hits[i].0, hits[j].0) }

  /** Only wanted rows that were stored, in key order. */
  ghost predicate Sound(n: Numerics, tables: Tables, prefix: string, selectors: map<string, Value>, hits: seq<Hit>) {
    KeysAscend(hits) && forall hit :: hit in hits ==> Wanted(n, prefix, selectors, hit) && WasStored(tables, hit)
  }

  /** Every wanted row that stayed throughout, up to a key. */
  ghost predicate CompleteTo(n: Numerics, tables: Tables, prefix: string, selectors: map<string, Value>,
                             hits: seq<Hit>, to: string) {
    forall hit: Hit :: Wanted(n, prefix, selectors, hit) && AtMost(hit.0, to) && Stays(tables, hit) ==> hit in hits
  }

  ghost predicate Complete(n: Numerics, tables: Tables, prefix: string, selectors: map<string, Value>, hits: seq<Hit>) {
    forall hit: Hit :: Wanted(n, prefix, selectors, hit) && Stays(tables, hit) ==> hit in hits
  }

  /** What is known when everything up to `after` has been read from these tables. */
  ghost predicate Progress(n: Numerics, tables: Tables, prefix: string, selectors: map<string, Value>,
                           hits: seq<Hit>, after: string) {
    && AtMost(prefix, after) && Sound(n, tables, prefix, selectors, hits)
    && CompleteTo(n, tables, prefix, selectors, hits, after)
    && forall hit :: hit in hits ==> AtMost(hit.0, after)
  }

  lemma Start(n: Numerics, prefix: string, selectors: map<string, Value>)
    ensures Progress(n, [], prefix, selectors, [], prefix)
  {
    forall hit: Hit | prefix < hit.0 ensures !AtMost(hit.0, prefix) {
      PrefixBelowExtension(prefix, hit.0);
      LessTotal(prefix, hit.0);
    }
  }

  /** Another table asks for more, so what was known stays known. */
  lemma NextTable(n: Numerics, tables: Tables, t: seq<Entry>, prefix: string, selectors: map<string, Value>,
                  hits: seq<Hit>, after: string)
    requires Progress(n, tables, prefix, selectors, hits, after)
    ensures Progress(n, tables + [t], prefix, selectors, hits, after)
  {
    forall hit | hit in hits ensures WasStored(tables + [t], hit) {
      var u :| u in tables && (hit.0, Valid(hit.1)) in u;
      assert u in tables + [t];
    }
    forall hit: Hit | Wanted(n, prefix, selectors, hit) && AtMost(hit.0, after) && Stays(tables + [t], hit)
      ensures hit in hits
    {
      assert Stays(tables, hit) by {
        forall u | u in tables ensures (hit.0, Valid(hit.1)) in u { assert u in tables + [t]; }
      }
    }
  }

  /** The hits after one more entry. */
  function WithEntry(n: Numerics, selectors: map<string, Value>, hits: seq<Hit>, entry: Entry): seq<Hit> {
    if entry.1.Valid? && Selects(n, selectors, entry.1.row) then hits + [(entry.0, entry.1.row)] else hits
  }

  /** In one table a key after `after` is the next one or lies beyond it. */
  lemma NextKey(t: seq<Entry>, after: string, at: nat, key: string, body: Body)
    requires Ascending(t) && at == FirstAfter(t, after) && (key, body) in t && Less(after, key)
    ensures at < |t| && (t[at] == (key, body) || Less(t[at].0, key))
  {
    var i :| 0 <= i < |t| && t[i] == (key, body);
  }

  lemma EntryIsSound(n: Numerics, tables: Tables, t: seq<Entry>, at: nat, prefix: string, selectors: map<string, Value>,
                     hits: seq<Hit>, after: string)
    requires Progress(n, tables, prefix, selectors, hits, after) && t in tables
    requires at < |t| && Less(after, t[at].0) && prefix < t[at].0
    ensures Sound(n, tables, prefix, selectors, WithEntry(n, selectors, hits, t[at]))
    ensures forall hit :: hit in WithEntry(n, selectors, hits, t[at]) ==> AtMost(hit.0, t[at].0)
  {
    forall hit | hit in hits ensures Less(hit.0, t[at].0) {
      if hit.0 != after { LessTransitive(hit.0, after, t[at].0); }
    }
    forall i | 0 <= i < |hits| ensures Less(hits[i].0, t[at].0) { assert hits[i] in hits; }
    if t[at].1.Valid? {
      assert t[at] == (t[at].0, Valid(t[at].1.row));
      assert WasStored(tables, (t[at].0, t[at].1.row));
    }
  }

  /** Reading the next entry of one of the tables advances to its key. */
  lemma ReadEntry(n: Numerics, tables: Tables, t: seq<Entry>, at: nat, prefix: string, selectors: map<string, Value>,
                  hits: seq<Hit>, after: string)
    requires Progress(n, tables, prefix, selectors, hits, after) && t in tables && Ascending(t)
    requires at == FirstAfter(t, after) < |t| && prefix < t[at].0
    ensures Progress(n, tables, prefix, selectors, WithEntry(n, selectors, hits, t[at]), t[at].0)
  {
    EntryIsSound(n, tables, t, at, prefix, selectors, hits, after);
    var more := WithEntry(n, selectors, hits, t[at]);
    forall hit: Hit | Wanted(n, prefix, selectors, hit) && AtMost(hit.0, t[at].0) && Stays(tables, hit)
      ensures hit in more
    {
      LessTotal(after, hit.0);
      if Less(after, hit.0) {
        NextKey(t, after, at, hit.0, Valid(hit.1));
        LessTotal(t[at].0, hit.0);
      } else {
        assert hit in hits;
      }
    }
    PrefixBelowExtension(prefix, t[at].0);
  }

  /** When a table has nothing more under the prefix, the scan is complete. */
  lemma Stop(n: Numerics, tables: Tables, t: seq<Entry>, prefix: string, selectors: map<string, Value>,
             hits: seq<Hit>, after: string)
    requires Progress(n, tables, prefix, selectors, hits, after) && t in tables && Ascending(t)
    requires var at := FirstAfter(t, after); at < |t| ==> !(prefix <= t[at].0)
    ensures Complete(n, tables, prefix, selectors, hits)
  {
    var at := FirstAfter(t, after);
    forall hit: Hit | Wanted(n, prefix, selectors, hit) && Stays(tables, hit) ensures hit in hits {
      LessTotal(after, hit.0);
      if Less(after, hit.0) {
        NextKey(t, after, at, hit.0, Valid(hit.1));
        if prefix != after { LessTransitive(prefix, after, t[at].0); }
        PrefixContiguous(prefix, t[at].0, hit.0);
      }
    }
  }

  ghost predicate CorruptUnder(tables: Tables, prefix: string) { exists t :: t in tables && HasCorrupt(t, prefix) }

  lemma CorruptHere(tables: Tables, t: seq<Entry>, at: nat, prefix: string)
    requires t in tables && at < |t| && prefix < t[at].0 && t[at].1.Corrupt?
    ensures CorruptUnder(tables, prefix)
  {
  }

  lemma UnderPrefix(prefix: string, after: string, key: string)
    requires AtMost(prefix, after) && Less(after, key) && prefix <= key
    ensures prefix < key
  {
    if prefix != after { LessTransitive(prefix, after, key); }
    LessIrreflexive(prefix);
    assert |prefix| == |key| ==> prefix == key;
  }

  /** One step of the page loop, at the next entry of a table. */
  lemma ReadNext(n: Numerics, tables: Tables, t: seq<Entry>, at: nat, prefix: string, selectors: map<string, Value>,
                 hits: seq<Hit>, after: string)
    requires Progress(n, tables, prefix, selectors, hits, after) && t in tables && Ascending(t)
    requires at == FirstAfter(t, after) < |t| && prefix <= t[at].0
    ensures t[at].1.Corrupt? ==> CorruptUnder(tables, prefix)
    ensures Progress(n, tables, prefix, selectors, WithEntry(n, selectors, hits, t[at]), t[at].0)
    ensures FirstAfter(t, t[at].0) == at + 1 && Less(after, t[at].0) && prefix < t[at].0
  {
    UnderPrefix(prefix, after, t[at].0);
    if t[at].1.Corrupt? { CorruptHere(tables, t, at, prefix); }
    ReadEntry(n, tables, t, at, prefix, selectors, hits, after);
    ResumeAfter(t, at);
  }

  ghost predicate HasKey(t: seq<Entry>, key: string) { exists i :: 0 <= i < |t| && t[i].0 == key }

  /** How one page ends: at its last key, at a key beyond the prefix, at a corrupt body, or over the cap. */
  datatype End = Further(after: string) | Beyond | BadBody | OverCap

  /** One page, read from a table that the scan meets at this moment. */
  method ScanPage(n: Numerics, ghost tables: Tables, ghost t: seq<Entry>, page: seq<Entry>, prefix: string,
                  selectors: map<string, Value>, hits0: seq<Hit>, ghost after0: string)
    returns (end: End, hits: seq<Hit>)
    requires t in tables && Ascending(t) && page != [] && |hits0| <= MAX_QUERY_ROWS
    requires FirstAfter(t, after0) + |page| <= |t| && page == t[FirstAfter(t, after0)..FirstAfter(t, after0) + |page|]
    requires Progress(n, tables, prefix, selectors, hits0, after0)
    ensures Sound(n, tables, prefix, selectors, hits) && (|hits| > MAX_QUERY_ROWS <==> end.OverCap?)
    ensures end.Further? ==> Progress(n, tables, prefix, selectors, hits, end.after)
    ensures end.Beyond? ==> Complete(n, tables, prefix, selectors, hits)
    ensures end.BadBody? ==> CorruptUnder(tables, prefix)
    ensures end.Further? ==> Less(after0, end.after) && prefix < end.after && HasKey(t, end.after)
  {
    ghost var after := after0;
    ghost var first := FirstAfter(t, after0);
    hits := hits0;
    for i := 0 to |page|
      invariant FirstAfter(t, after) == first + i && (i > 0 ==> after == page[i - 1].0)
      invariant |hits| <= MAX_QUERY_ROWS && Progress(n, tables, prefix, selectors, hits, after)
      invariant i > 0 ==> Less(after0, after) && prefix < after
    {
      assert page[i] == t[first + i];
      if !(prefix <= page[i].0) {
        Stop(n, tables, t, prefix, selectors, hits, after);
        return Beyond, hits;
      }
      ReadNext(n, tables, t, first + i, prefix, selectors, hits, after);
      if i > 0 { LessTransitive(after0, after, page[i].0); }
      if page[i].1.Corrupt? {
        return BadBody, hits;
      }
      hits, after := WithEntry(n, selectors, hits, page[i]), page[i].0;
      if |hits| > MAX_QUERY_ROWS {
        return OverCap, hits;
      }
    }
    assert page[|page| - 1] == t[first + |page| - 1];
    end := Further(page[|page| - 1].0);
  }

  /** What a scan that met these tables, one per page, may answer. */
  datatype LiveAnswer = Finished(hits: seq<Hit>) | TurnedDown | Unfinished

  ghost predicate Answers(n: Numerics, tables: Tables, prefix: string, selectors: map<string, Value>, r: LiveAnswer,
                          hits: seq<Hit>, ends: seq<string>) {
    && Sound(n, tables, prefix, selectors, hits)
    && (r.Finished? ==> r.hits == hits && |hits| <= MAX_QUERY_ROWS && Complete(n, tables, prefix, selectors, hits))
    && (r.TurnedDown? ==> CorruptUnder(tables, prefix) || |hits| > MAX_QUERY_ROWS)
    && (r.Unfinished? ==>
          Advances(tables, prefix, ends) && CompleteTo(n, tables, prefix, selectors, hits, Position(prefix, ends)))
  }

  /** Where a scan stands whose pages ended at these keys. */
  function Position(prefix: string, ends: seq<string>): string { if ends == [] then prefix else ends[|ends| - 1] }

  /** Every table had one more page, which ended at a key of that table under the prefix, further on. */
  ghost predicate Advances(tables: Tables, prefix: string, ends: seq<string>) {
    && |ends| == |tables| && (forall p :: 0 <= p < |ends| ==> prefix < ends[p] && HasKey(tables[p], ends[p]))
    && (forall p :: 0 < p < |ends| ==> Less(ends[p - 1], ends[p]))
  }

  /**
  The unpaged query with one table per page. A finished scan returns every matching row that stayed
  throughout, each key once and in order, and no row that was never stored; a refused one met a corrupt
  body or more rows than the cap. It is unfinished only when every table it met had one more page.
  */
  method QueryLive(n: Numerics, tables: Tables, prefix: string, selectors: map<string, Value>)
    returns (r: LiveAnswer, ghost met: nat, ghost hits: seq<Hit>, ghost ends: seq<string>)
    requires AllAscending(tables)
    ensures met <= |tables| && Answers(n, tables[..met], prefix, selectors, r, hits, ends)
    ensures r.Unfinished? ==> met == |tables|
  {
    var after := prefix;
    var found: seq<Hit> := [];
    ends := [];
    Start(n, prefix, selectors);
    for p := 0 to |tables|
      invariant |found| <= MAX_QUERY_ROWS && Progress(n, tables[..p], prefix, selectors, found, after)
      invariant after == Position(prefix, ends) && Advances(tables[..p], prefix, ends)
    {
      var page := ProjectionList(tables[p], after, PAGE);
      assert tables[..p + 1] == tables[..p] + [tables[p]];
      NextTable(n, tables[..p], tables[p], prefix, selectors, found, after);
      assert Ascending(tables[p]);
      if page == [] {
        Stop(n, tables[..p + 1], tables[p], prefix, selectors, found, after);
        return Finished(found), p + 1, found, ends;
      }
      var end;
      end, found := ScanPage(n, tables[..p + 1], tables[p], page, prefix, selectors, found, after);
      match end {
        case Further(last) =>
          AdvancesOn(tables[..p], tables[p], prefix, ends, last);
          after, ends := last, ends + [last];
        case Beyond => return Finished(found), p + 1, found, ends;
        case BadBody => return TurnedDown, p + 1, found, ends;
        case OverCap => return TurnedDown, p + 1, found, ends;
      }
    }
    assert tables[..|tables|] == tables;
    r, met, hits := Unfinished, |tables|, found;
  }

  lemma AdvancesOn(tables: Tables, t: seq<Entry>, prefix: string, ends: seq<string>, key: string)
    requires Advances(tables, prefix, ends) && prefix < key && HasKey(t, key) && Less(Position(prefix, ends), key)
    ensures Advances(tables + [t], prefix, ends + [key])
  {
  }
}
