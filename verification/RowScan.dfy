/** The unpaged projection query: a key-prefix scan over the row table, page by page. */
module RowScan {
  import opened Text
  import opened JsonNumbers
  import opened Projection

  const PAGE: nat := 1000
  const MAX_QUERY_ROWS: nat := 10000

  /** A stored row body either decodes to a row or is corrupt. */
  datatype Body = Valid(row: Row) | Corrupt
  type Entry = (string, Body)

  /** One tenant's row table as the store lists it: strictly ascending keys. */
  ghost predicate Ascending(table: seq<Entry>) {
    forall i, j :: 0 <= i < j < |table| ==> Less(table[i].0, table[j].0)
  }

  /** Position of the first entry strictly after a key. */
  function FirstAfter(table: seq<Entry>, after: string): (i: nat)
    ensures i <= |table|
    ensures forall j :: 0 <= j < i ==> !Less(after, table[j].0)
    ensures i < |table| ==> Less(after, table[i].0)
  {
    if table == [] || Less(after, table[0].0) then 0 else 1 + FirstAfter(table[1..], after)
  }

  /** The store's `projection_list`: the next entries strictly after a key, none only at the end. */
  function ProjectionList(table: seq<Entry>, after: string, limit: nat): (page: seq<Entry>)
    ensures var i := FirstAfter(table, after); i + |page| <= |table| && page == table[i..i + |page|]
    ensures limit > 0 && page == [] ==> FirstAfter(table, after) == |table|
  {
    var i := FirstAfter(table, after);
    table[i..if i + limit < |table| then i + limit else |table|]
  }

  predicate Selects(n: Numerics, selectors: map<string, Value>, row: Row) {
    forall f :: f in selectors ==> f in row.value && n.Equal(row.value[f], selectors[f])
  }

  /**
  Rows that the scan should return: under the prefix and selected, in key order. `None` when a body
  under the prefix does not decode.
  */
  function Matching(n: Numerics, table: seq<Entry>, prefix: string, selectors: map<string, Value>): Option<seq<Row>> {
    if table == [] then Some([])
    else
      var (key, body) := table[|table| - 1];
      match Matching(n, table[..|table| - 1], prefix, selectors)
      case None => None
      case Some(rows) =>
        if !(prefix < key) then Some(rows)
        else if body.Corrupt? then None
        else Some(if Selects(n, selectors, body.row) then rows + [body.row] else rows)
  }

  ghost predicate HasCorrupt(table: seq<Entry>, prefix: string) {
    exists i :: 0 <= i < |table| && prefix < table[i].0 && table[i].1.Corrupt?
  }

  lemma {:induction false} CorruptMeansNoMatch(n: Numerics, table: seq<Entry>, prefix: string,
                                               selectors: map<string, Value>)
    ensures Matching(n, table, prefix, selectors).None? <==> HasCorrupt(table, prefix)
  {
    if table != [] {
      var init, last := table[..|table| - 1], |table| - 1;
      CorruptMeansNoMatch(n, init, prefix, selectors);
      if HasCorrupt(init, prefix) {
        var i :| 0 <= i < |init| && prefix < init[i].0 && init[i].1.Corrupt?;
        assert table[i] == init[i];
      }
      if HasCorrupt(table, prefix) {
        var i :| 0 <= i < |table| && prefix < table[i].0 && table[i].1.Corrupt?;
        if i < last { assert init[i] == table[i]; }
      }
    }
  }

  /** Entries outside the prefix contribute nothing. */
  lemma {:induction false} NothingOutside(n: Numerics, table: seq<Entry>, from: nat, prefix: string,
                                          selectors: map<string, Value>)
    requires from <= |table| && forall i :: from <= i < |table| ==> !(prefix < table[i].0)
    ensures Matching(n, table, prefix, selectors) == Matching(n, table[..from], prefix, selectors)
  {
    if from == |table| {
      assert table[..from] == table;
    } else {
      var init := table[..|table| - 1];
      assert init[..from] == table[..from];
      NothingOutside(n, init, from, prefix, selectors);
    }
  }

  /** The whole table cannot match where a part already fails, nor match fewer rows than a part. */
  lemma {:induction false} MatchingGrows(n: Numerics, table: seq<Entry>, i: nat, prefix: string,
                                         selectors: map<string, Value>)
    requires i <= |table|
    ensures Matching(n, table[..i], prefix, selectors).None? ==> Matching(n, table, prefix, selectors).None?
    ensures Matching(n, table, prefix, selectors).Some? ==>
      |Matching(n, table[..i], prefix, selectors).value| <= |Matching(n, table, prefix, selectors).value|
    decreases |table| - i
  {
    if i == |table| {
      assert table[..i] == table;
    } else {
      assert table[..i + 1][..i] == table[..i];
      MatchingGrows(n, table, i + 1, prefix, selectors);
    }
  }

  /** Before the first key after the prefix nothing extends it. */
  lemma BelowPrefix(table: seq<Entry>, prefix: string, i: nat)
    requires i < FirstAfter(table, prefix)
    ensures !(prefix < table[i].0)
  {
    if prefix < table[i].0 { PrefixBelowExtension(prefix, table[i].0); }
  }

  /** After the first foreign key nothing extends the prefix any more. */
  lemma BeyondPrefix(table: seq<Entry>, prefix: string, i: nat, j: nat)
    requires Ascending(table) && FirstAfter(table, prefix) <= i <= j < |table|
    requires !(prefix <= table[i].0)
    ensures !(prefix < table[j].0)
  {
    AfterFirst(table, prefix, i);
    if i < j { PrefixContiguous(prefix, table[i].0, table[j].0); }
  }

  lemma AfterFirst(table: seq<Entry>, after: string, i: nat)
    requires Ascending(table) && FirstAfter(table, after) <= i < |table|
    ensures Less(after, table[i].0)
  {
    var first := FirstAfter(table, after);
    if first < i { LessTransitive(after, table[first].0, table[i].0); }
  }

  /** Continuing after an entry's own key resumes at the next entry. */
  lemma ResumeAfter(table: seq<Entry>, i: nat)
    requires Ascending(table) && i < |table|
    ensures FirstAfter(table, table[i].0) == i + 1
  {
    forall j | 0 <= j <= i ensures !Less(table[i].0, table[j].0) { LessTotal(table[j].0, table[i].0); }
    if i + 1 < |table| { assert Less(table[i].0, table[i + 1].0); }
  }

  ghost predicate Scanned(n: Numerics, table: seq<Entry>, at: nat, prefix: string, selectors: map<string, Value>,
                          rows: seq<Row>) {
    && FirstAfter(table, prefix) <= at <= |table| && |rows| <= MAX_QUERY_ROWS
    && Matching(n, table[..at], prefix, selectors) == Some(rows)
  }

  lemma ScanStart(n: Numerics, table: seq<Entry>, prefix: string, selectors: map<string, Value>)
    ensures Scanned(n, table, FirstAfter(table, prefix), prefix, selectors, [])
  {
    var first := FirstAfter(table, prefix);
    forall i | 0 <= i < first ensures !(prefix < table[..first][i].0) { BelowPrefix(table, prefix, i); }
    NothingOutside(n, table[..first], 0, prefix, selectors);
  }

  lemma UnderPrefix(table: seq<Entry>, prefix: string, i: nat)
    requires Ascending(table) && FirstAfter(table, prefix) <= i < |table| && prefix <= table[i].0
    ensures prefix < table[i].0
  {
    assert |prefix| == |table[i].0| ==> prefix == table[i].0;
    AfterFirst(table, prefix, i);
    LessIrreflexive(prefix);
  }

  /** One more entry under the prefix. */
  lemma ScanNext(n: Numerics, table: seq<Entry>, at: nat, prefix: string, selectors: map<string, Value>, rows: seq<Row>)
    requires at < |table| && prefix < table[at].0 && Matching(n, table[..at], prefix, selectors) == Some(rows)
    ensures Matching(n, table[..at + 1], prefix, selectors)
      == if table[at].1.Corrupt? then None
         else Some(if Selects(n, selectors, table[at].1.row) then rows + [table[at].1.row] else rows)
  {
    assert table[..at + 1][..at] == table[..at];
  }

  lemma ScanStop(n: Numerics, table: seq<Entry>, at: nat, prefix: string, selectors: map<string, Value>, rows: seq<Row>)
    requires Ascending(table) && Scanned(n, table, at, prefix, selectors, rows)
    requires at < |table| ==> !(prefix <= table[at].0)
    ensures Answer(n, table, prefix, selectors) == Some(rows)
  {
    forall i | at <= i < |table| ensures !(prefix < table[i].0) { BeyondPrefix(table, prefix, at, i); }
    NothingOutside(n, table, at, prefix, selectors);
  }

  /** What a query of the table answers: the matching rows, or a refusal for a corrupt body or the cap. */
  function Answer(n: Numerics, table: seq<Entry>, prefix: string, selectors: map<string, Value>): Option<seq<Row>> {
    var matching := Matching(n, table, prefix, selectors);
    if matching.None? || |matching.value| > MAX_QUERY_ROWS then None else matching
  }

  /** A part of the table that is refused makes the whole refused. */
  lemma ScanRefuses(n: Numerics, table: seq<Entry>, i: nat, prefix: string, selectors: map<string, Value>)
    requires i <= |table| && Answer(n, table[..i], prefix, selectors).None?
    ensures Answer(n, table, prefix, selectors).None?
  {
    MatchingGrows(n, table, i, prefix, selectors);
  }

  function WithRow(n: Numerics, selectors: map<string, Value>, rows: seq<Row>, body: Body): seq<Row> {
    if body.Valid? && Selects(n, selectors, body.row) then rows + [body.row] else rows
  }

  /** One entry under the prefix either lets the scan go on or refuses the query. */
  lemma ScanEntry(n: Numerics, table: seq<Entry>, at: nat, prefix: string, selectors: map<string, Value>,
                  rows: seq<Row>)
    requires Ascending(table) && Scanned(n, table, at, prefix, selectors, rows)
    requires at < |table| && prefix <= table[at].0
    ensures var more := WithRow(n, selectors, rows, table[at].1);
      if table[at].1.Corrupt? || |more| > MAX_QUERY_ROWS then Answer(n, table, prefix, selectors).None?
      else Scanned(n, table, at + 1, prefix, selectors, more)
  {
    UnderPrefix(table, prefix, at);
    ScanNext(n, table, at, prefix, selectors, rows);
    if table[at].1.Corrupt? || |WithRow(n, selectors, rows, table[at].1)| > MAX_QUERY_ROWS {
      ScanRefuses(n, table, at + 1, prefix, selectors);
    }
  }

  /** Where the scan stands after one more page. */
  datatype Turn = Continue(after: string, rows: seq<Row>) | Finish(answer: Option<seq<Row>>)

  /** One turn of the scan loop: go through the next page, which starts at `begin`. */
  method ScanPage(n: Numerics, table: seq<Entry>, page: seq<Entry>, prefix: string, selectors: map<string, Value>,
                  rows0: seq<Row>, ghost begin: nat) returns (turn: Turn)
    requires Ascending(table) && Scanned(n, table, begin, prefix, selectors, rows0)
    requires begin + |page| <= |table| && page == table[begin..begin + |page|] && (page == [] ==> begin == |table|)
    ensures turn.Continue? ==> begin < FirstAfter(table, turn.after)
    ensures turn.Continue? ==> Scanned(n, table, FirstAfter(table, turn.after), prefix, selectors, turn.rows)
    ensures turn.Finish? ==> turn.answer == Answer(n, table, prefix, selectors)
  {
    var rows := rows0;
    for i := 0 to |page|
      invariant Scanned(n, table, begin + i, prefix, selectors, rows)
    {
      var (key, body) := page[i];
      assert page[i] == table[begin + i];
      if !(prefix <= key) {
        ScanStop(n, table, begin + i, prefix, selectors, rows);
        return Finish(Some(rows));
      }
      ScanEntry(n, table, begin + i, prefix, selectors, rows);
      rows := WithRow(n, selectors, rows, body);
      if body.Corrupt? || |rows| > MAX_QUERY_ROWS {
        return Finish(None);
      }
    }
    if page == [] {
      ScanStop(n, table, begin, prefix, selectors, rows);
      return Finish(Some(rows));
    }
    ghost var last := begin + |page| - 1;
    assert page[|page| - 1] == table[last];
    ResumeAfter(table, last);
    turn := Continue(page[|page| - 1].0, rows);
  }

  /** `EventlogProjections::query` without a page: exact, or refused for a corrupt body or the cap. */
  method Query(n: Numerics, table: seq<Entry>, prefix: string, selectors: map<string, Value>)
    returns (r: Option<seq<Row>>)
    requires Ascending(table)
    ensures r == Answer(n, table, prefix, selectors)
  {
    var after := prefix;
    var rows: seq<Row> := [];
    ScanStart(n, table, prefix, selectors);
    while true
      invariant Scanned(n, table, FirstAfter(table, after), prefix, selectors, rows)
      decreases |table| - FirstAfter(table, after)
    {
      var page := ProjectionList(table, after, PAGE);
      var turn := ScanPage(n, table, page, prefix, selectors, rows, FirstAfter(table, after));
      if turn.Finish? {
        return turn.answer;
      }
      after, rows := turn.after, turn.rows;
    }
  }
}
