/** Ordered, paged /4 queries over one snapshot of instances. */
module QueryV4 {
  import opened Text
  import opened Codecs
  import opened JsonNumbers
  import opened Sorting

  datatype Instance = Instance(entity: string, id: string, revision: nat, state: string, fields: map<string, Value>)
  type Row = map<string, Value>
  type Item = (Instance, Row)

  datatype SortKey = SortKey(field: string, descending: bool)

  /** A query with its view and decoded selectors; `admits` is the view's filter. */
  datatype Query = Query(
    source: string, fields: set<string>, optional: set<string>, admits: Instance -> bool,
    selectors: seq<(string, Value)>, sort: seq<SortKey>, numerics: Numerics, text: Value -> string)

  // ---- compare_json ----

  /** Three-way comparison: -1, 0 or 1. */
  type Order = i: int | -1 <= i <= 1

  function OrderBy(less: bool, greater: bool): Order { if less then -1 else if greater then 1 else 0 }

  function CompareText(a: string, b: string): Order { OrderBy(Less(a, b), Less(b, a)) }

  function Magnitude(f: Float): real { match f case Zero(_) => 0.0 case NonZero(v) => v }

  /** `Option<f64>` order: an unrepresentable number sorts first. */
  function CompareFloat(a: Option<Float>, b: Option<Float>): Order {
    match (a, b)
    case (None, None) => 0
    case (None, Some(_)) => -1
    case (Some(_), None) => 1
    case (Some(x), Some(y)) => OrderBy(Magnitude(x) < Magnitude(y), Magnitude(y) < Magnitude(x))
  }

  function Rank(v: Value): int {
    match v case Null => 0 case Bool(_) => 1 case Number(_) => 2 case Str(_) => 3 case Array(_) => 4 case Object(_) => 5
  }

  /** Absent sorts before null, null before everything else; then by kind, then by value. */
  function CompareJson(q: Query, left: Option<Value>, right: Option<Value>): Order {
    match (left, right)
    case (None, None) => 0
    case (None, Some(_)) => -1
    case (Some(_), None) => 1
    case (Some(l), Some(r)) =>
      if l.Null? && r.Null? then 0
      else if l.Null? then -1
      else if r.Null? then 1
      else if l.Bool? && r.Bool? then OrderBy(!l.b && r.b, l.b && !r.b)
      else if l.Number? && r.Number? then CompareFloat(q.numerics.asF64(l.token), q.numerics.asF64(r.token))
      else if l.Str? && r.Str? then CompareText(l.s, r.s)
      else if Rank(l) != Rank(r) then OrderBy(Rank(l) < Rank(r), Rank(r) < Rank(l))
      else CompareText(q.text(l), q.text(r))
  }

  lemma CompareTextLaws(a: string, b: string, c: string)
    ensures CompareText(a, b) == -CompareText(b, a)
    ensures CompareText(a, b) == 0 <==> a == b
    ensures CompareText(a, b) <= 0 && CompareText(b, c) <= 0 ==> CompareText(a, c) <= 0
  {
    LessTotal(a, b);
    LessTotal(b, c);
    LessTotal(a, c);
    if Less(a, b) && Less(b, c) { LessTransitive(a, b, c); }
  }

  lemma CompareJsonFlips(q: Query, a: Option<Value>, b: Option<Value>)
    ensures CompareJson(q, a, b) == -CompareJson(q, b, a)
  {
    if a.Some? && b.Some? {
      if a.value.Str? && b.value.Str? { CompareTextLaws(a.value.s, b.value.s, ""); }
      CompareTextLaws(q.text(a.value), q.text(b.value), "");
    }
  }

  function RankOf(v: Option<Value>): int { if v.None? then -1 else Rank(v.value) }

  lemma CompareJsonRanks(q: Query, a: Option<Value>, b: Option<Value>)
    ensures CompareJson(q, a, b) <= 0 ==> RankOf(a) <= RankOf(b)
    ensures RankOf(a) < RankOf(b) ==> CompareJson(q, a, b) == -1
  {
  }

  /** `compare_json` is a total preorder. */
  lemma CompareJsonTransitive(q: Query, a: Option<Value>, b: Option<Value>, c: Option<Value>)
    requires CompareJson(q, a, b) <= 0 && CompareJson(q, b, c) <= 0
    ensures CompareJson(q, a, c) <= 0
  {
    CompareJsonRanks(q, a, b);
    CompareJsonRanks(q, b, c);
    CompareJsonRanks(q, a, c);
    if RankOf(a) == RankOf(c) && a.Some? {
      assert b.Some?;
      if a.value.Str? { CompareTextLaws(a.value.s, b.value.s, c.value.s); }
      CompareTextLaws(q.text(a.value), q.text(b.value), q.text(c.value));
    }
  }

  // ---- the row comparator ----

  function Cell(row: Row, field: string): Option<Value> { if field in row then Some(row[field]) else None }

  function CompareKey(q: Query, key: SortKey, a: Item, b: Item): Order {
    var c := CompareJson(q, Cell(a.1, key.field), Cell(b.1, key.field));
    if key.descending then -c else c
  }

  function CompareSubject(a: Item, b: Item): Order {
    var c := CompareText(a.0.entity, b.0.entity);
    if c != 0 then c else CompareText(a.0.id, b.0.id)
  }

  /** Sort keys in order; the subject breaks the remaining ties. */
  function CompareRows(q: Query, keys: seq<SortKey>, a: Item, b: Item): Order {
    if keys == [] then CompareSubject(a, b)
    else
      var c := CompareKey(q, keys[0], a, b);
      if c != 0 then c else CompareRows(q, keys[1..], a, b)
  }

  lemma CompareKeyLaws(q: Query, key: SortKey, a: Item, b: Item, c: Item)
    ensures CompareKey(q, key, a, b) == -CompareKey(q, key, b, a)
    ensures CompareKey(q, key, a, b) <= 0 && CompareKey(q, key, b, c) <= 0 ==> CompareKey(q, key, a, c) <= 0
    ensures CompareKey(q, key, a, b) <= 0 && CompareKey(q, key, b, c) <= 0 && CompareKey(q, key, a, c) == 0 ==>
      CompareKey(q, key, a, b) == 0 && CompareKey(q, key, b, c) == 0
  {
    var x, y, z := Cell(a.1, key.field), Cell(b.1, key.field), Cell(c.1, key.field);
    CompareJsonFlips(q, x, y);
    CompareJsonFlips(q, y, z);
    CompareJsonFlips(q, x, z);
    JsonTriple(q, x, y, z);
    JsonTriple(q, z, y, x);
  }

  lemma JsonTriple(q: Query, x: Option<Value>, y: Option<Value>, z: Option<Value>)
    ensures CompareJson(q, x, y) <= 0 && CompareJson(q, y, z) <= 0 ==> CompareJson(q, x, z) <= 0
    ensures CompareJson(q, x, y) <= 0 && CompareJson(q, y, z) <= 0 && CompareJson(q, x, z) == 0 ==>
      CompareJson(q, x, y) == 0 && CompareJson(q, y, z) == 0
  {
    CompareJsonFlips(q, x, y);
    CompareJsonFlips(q, y, z);
    CompareJsonFlips(q, x, z);
    if CompareJson(q, x, y) <= 0 && CompareJson(q, y, z) <= 0 {
      CompareJsonTransitive(q, x, y, z);
      if CompareJson(q, x, z) == 0 {
        CompareJsonTransitive(q, y, z, x);
        CompareJsonTransitive(q, z, x, y);
      }
    }
  }

  lemma CompareSubjectLaws(a: Item, b: Item, c: Item)
    ensures CompareSubject(a, b) == -CompareSubject(b, a)
    ensures CompareSubject(a, b) == 0 <==> a.0.entity == b.0.entity && a.0.id == b.0.id
    ensures CompareSubject(a, b) <= 0 && CompareSubject(b, c) <= 0 ==> CompareSubject(a, c) <= 0
  {
    CompareTextLaws(a.0.entity, b.0.entity, c.0.entity);
    CompareTextLaws(b.0.entity, c.0.entity, a.0.entity);
    CompareTextLaws(c.0.entity, a.0.entity, b.0.entity);
    CompareTextLaws(a.0.id, b.0.id, c.0.id);
  }

  lemma {:induction false} CompareRowsLaws(q: Query, keys: seq<SortKey>, a: Item, b: Item, c: Item)
    ensures CompareRows(q, keys, a, b) == -CompareRows(q, keys, b, a)
    ensures CompareRows(q, keys, a, b) == 0 ==> a.0.entity == b.0.entity && a.0.id == b.0.id
    ensures CompareRows(q, keys, a, b) <= 0 && CompareRows(q, keys, b, c) <= 0 ==> CompareRows(q, keys, a, c) <= 0
  {
    if keys == [] {
      CompareSubjectLaws(a, b, c);
    } else {
      CompareKeyLaws(q, keys[0], a, b, c);
      CompareRowsLaws(q, keys[1..], a, b, c);
    }
  }

  function RowLeq(q: Query): (Item, Item) -> bool { (a, b) => CompareRows(q, q.sort, a, b) <= 0 }

  lemma RowOrder(q: Query)
    ensures TotalPreorder(RowLeq(q))
  {
    var leq := RowLeq(q);
    forall a, b ensures leq(a, b) || leq(b, a) { CompareRowsLaws(q, q.sort, a, b, a); }
    forall a, b, c | leq(a, b) && leq(b, c) ensures leq(a, c) { CompareRowsLaws(q, q.sort, a, b, c); }
  }

  // ---- building rows ----

  function FieldOf(i: Instance, field: string): Option<Value> {
    if field == "state" then Some(Str(i.state)) else if field in i.fields then Some(i.fields[field]) else None
  }

  predicate Candidate(q: Query, i: Instance) { i.entity == q.source && q.admits(i) }

  /** A required field is missing: the snapshot is corrupt. */
  predicate Incomplete(q: Query, i: Instance) {
    Candidate(q, i) && exists f :: f in q.fields && f !in q.optional && FieldOf(i, f).None?
  }

  function RowOf(q: Query, i: Instance): Row {
    map f | f in q.fields && FieldOf(i, f).Some? :: FieldOf(i, f).value
  }

  predicate Selected(q: Query, row: Row) {
    forall k :: 0 <= k < |q.selectors| ==>
      q.selectors[k].0 in row && q.numerics.Equal(row[q.selectors[k].0], q.selectors[k].1)
  }

  function Contribution(q: Query, i: Instance): seq<Item> {
    if Candidate(q, i) && Selected(q, RowOf(q, i)) then [(i, RowOf(q, i))] else []
  }

  function Rows(q: Query, instances: seq<Instance>): seq<Item> {
    if instances == [] then [] else Rows(q, instances[..|instances| - 1]) + Contribution(q, instances[|instances| - 1])
  }

  predicate Corrupt(q: Query, instances: seq<Instance>) {
    exists k :: 0 <= k < |instances| && Incomplete(q, instances[k])
  }

  /** Position of the first instance that lacks a required field. */
  function FirstIncomplete(q: Query, instances: seq<Instance>): (k: nat)
    requires Corrupt(q, instances)
    ensures k < |instances| && Incomplete(q, instances[k]) && forall j :: 0 <= j < k ==> !Incomplete(q, instances[j])
  {
    if Incomplete(q, instances[0]) then 0
    else
      assert Corrupt(q, instances[1..]) by {
        var k :| 0 <= k < |instances| && Incomplete(q, instances[k]);
        assert instances[1..][k - 1] == instances[k];
      }
      1 + FirstIncomplete(q, instances[1..])
  }

  /** The matching rows in query order. */
  function Ordered(q: Query, instances: seq<Instance>): seq<Item> { Sort(Rows(q, instances), RowLeq(q)) }

  /** Each subject occurs once in the snapshot. */
  ghost predicate UniqueSubjects(instances: seq<Instance>) {
    forall i, j :: 0 <= i < j < |instances| ==>
      (instances[i].entity, instances[i].id) != (instances[j].entity, instances[j].id)
  }

  lemma {:induction false} RowsConcat(q: Query, a: seq<Instance>, b: seq<Instance>)
    ensures Rows(q, a + b) == Rows(q, a) + Rows(q, b)
  {
    if b == [] {
      assert a + b == a;
    } else {
      var n := |b| - 1;
      assert (a + b)[..|a + b| - 1] == a + b[..n];
      RowsConcat(q, a, b[..n]);
    }
  }

  lemma RowsPick(q: Query, left: seq<Instance>, x: Instance, right: seq<Instance>)
    ensures multiset(Rows(q, left + [x] + right)) == multiset(Contribution(q, x)) + multiset(Rows(q, left + right))
  {
    RowsConcat(q, left + [x], right);
    RowsConcat(q, left, [x]);
    RowsConcat(q, left, right);
    assert Rows(q, [x]) == Contribution(q, x) by {
      assert [x][..0] == [];
    }
  }

  lemma PickOut<T>(b: seq<T>, x: T) returns (left: seq<T>, right: seq<T>)
    requires x in multiset(b)
    ensures b == left + [x] + right && multiset(left + right) == multiset(b) - multiset{x}
  {
    var k :| 0 <= k < |b| && b[k] == x;
    left, right := b[..k], b[k + 1..];
    assert b == left + [x] + right;
  }

  /** Enumeration order does not change which rows there are. */
  lemma {:induction false} RowsPermute(q: Query, a: seq<Instance>, b: seq<Instance>)
    requires multiset(a) == multiset(b)
    ensures multiset(Rows(q, a)) == multiset(Rows(q, b))
  {
    SameLength(a, b);
    if a != [] {
      var x := a[0];
      assert x in multiset(a);
      var left, right := PickOut(b, x);
      TailOf(a);
      RowsPermute(q, a[1..], left + right);
      RowsPick(q, left, x, right);
      RowsHead(q, a);
    }
  }

  lemma RowsHead(q: Query, a: seq<Instance>)
    requires a != []
    ensures multiset(Rows(q, a)) == multiset(Contribution(q, a[0])) + multiset(Rows(q, a[1..]))
  {
    RowsPick(q, [], a[0], a[1..]);
    assert [] + [a[0]] + a[1..] == a && [] + a[1..] == a[1..];
  }

  lemma {:induction false} RowsComeFrom(q: Query, instances: seq<Instance>, item: Item)
    requires item in Rows(q, instances)
    ensures item.0 in instances && item.1 == RowOf(q, item.0)
  {
    var n := |instances| - 1;
    assert instances == instances[..n] + [instances[n]];
    if item in Rows(q, instances[..n]) { RowsComeFrom(q, instances[..n], item); }
  }

  lemma RowsDoNotTie(q: Query, instances: seq<Instance>)
    requires UniqueSubjects(instances)
    ensures NoTies(Rows(q, instances), RowLeq(q))
  {
    var rows, leq := Rows(q, instances), RowLeq(q);
    forall a, b | a in rows && b in rows && leq(a, b) && leq(b, a) ensures a == b {
      CompareRowsLaws(q, q.sort, a, b, a);
      RowsComeFrom(q, instances, a);
      RowsComeFrom(q, instances, b);
      var i :| 0 <= i < |instances| && instances[i] == a.0;
      var j :| 0 <= j < |instances| && instances[j] == b.0;
    }
  }

  lemma NoTiesAfterSort(rows: seq<Item>, leq: (Item, Item) -> bool)
    requires TotalPreorder(leq) && NoTies(rows, leq)
    ensures NoTies(Sort(rows, leq), leq)
  {
    SortSorts(rows, leq);
    var sorted := Sort(rows, leq);
    forall a, b | a in sorted && b in sorted && leq(a, b) && leq(b, a) ensures a == b {
      MemberOf(sorted, rows, a);
      MemberOf(sorted, rows, b);
    }
  }

  lemma MemberOf<T>(a: seq<T>, b: seq<T>, x: T)
    requires multiset(a) == multiset(b) && x in a
    ensures x in b
  {
    assert x in multiset(a);
    assert x in multiset(b);
  }

  /** Two enumerations of one snapshot give the same ordered rows. */
  lemma OrderIndependent(q: Query, a: seq<Instance>, b: seq<Instance>)
    requires multiset(a) == multiset(b) && UniqueSubjects(a)
    ensures Ordered(q, a) == Ordered(q, b)
  {
    RowOrder(q);
    RowsPermute(q, a, b);
    RowsDoNotTie(q, a);
    SortsAgree(Rows(q, a), Rows(q, b), RowLeq(q));
  }

  lemma SortsAgree(a: seq<Item>, b: seq<Item>, leq: (Item, Item) -> bool)
    requires TotalPreorder(leq) && multiset(a) == multiset(b) && NoTies(a, leq)
    ensures Sort(a, leq) == Sort(b, leq)
  {
    SortSorts(a, leq);
    SortSorts(b, leq);
    NoTiesAfterSort(a, leq);
    SortedUnique(Sort(a, leq), Sort(b, leq), leq);
  }

  /** They also give the same verdict on missing required fields. */
  lemma CorruptIndependent(q: Query, a: seq<Instance>, b: seq<Instance>)
    requires multiset(a) == multiset(b)
    ensures Corrupt(q, a) <==> Corrupt(q, b)
  {
    forall x | x in a ensures x in b { MemberOf(a, b, x); }
    CorruptByMembership(q, a, b);
    forall x | x in b ensures x in a { MemberOf(b, a, x); }
    CorruptByMembership(q, b, a);
  }

  lemma CorruptByMembership(q: Query, a: seq<Instance>, b: seq<Instance>)
    requires forall x :: x in a ==> x in b
    ensures Corrupt(q, a) ==> Corrupt(q, b)
  {
    if Corrupt(q, a) {
      var k :| 0 <= k < |a| && Incomplete(q, a[k]);
      assert a[k] in b;
    }
  }

  // ---- pages ----

  const MAX_LIMIT: nat := 1000

  /** The visibility obligations of one instance; `None` is a failing callback. */
  type Visibility = Instance -> Option<bool>

  datatype QueryPage = QueryPage(
    items: seq<Row>, throughVersion: Option<nat>, nextCursor: Option<string>, partial: bool)
  datatype QueryResult = Done(page: QueryPage) | InputError | IntegrityError(culprit: Instance) | ProjectionError

  function VisibleItems(visible: Visibility, rows: seq<Item>): Option<seq<Item>> {
    if rows == [] then Some([])
    else
      var n := |rows| - 1;
      match (VisibleItems(visible, rows[..n]), visible(rows[n].0))
      case (Some(items), Some(shown)) => Some(if shown then items + [rows[n]] else items)
      case _ => None
  }

  function Values(items: seq<Item>): seq<Row> { seq(|items|, i requires 0 <= i < |items| => items[i].1) }

  function SubjectOf(i: Item): (string, string) { (i.0.entity, i.0.id) }

  /** The one revision behind a page whose visible rows all belong to one subject. */
  function ThroughVersion(items: seq<Item>): Option<nat> {
    if items != [] && forall k :: 0 <= k < |items| ==> SubjectOf(items[k]) == SubjectOf(items[0])
    then Some(items[|items| - 1].0.revision) else None
  }

  function PageEnd(start: nat, limit: nat, count: nat): nat { if start + limit < count then start + limit else count }

  function PageFrom(rows: seq<Item>, visible: Visibility, start: nat, limit: nat): QueryResult
    requires start <= |rows|
  {
    var end := PageEnd(start, limit, |rows|);
    match VisibleItems(visible, rows[start..end])
    case None => ProjectionError
    case Some(items) =>
      var partial := end < |rows|;
      var next := if partial then Some(EncodeQueryCursor(end)) else None;
      Done(QueryPage(Values(items), ThroughVersion(items), next, partial))
  }

  /** The meaning of one query call. */
  function QueryMeaning(q: Query, instances: seq<Instance>, cursor: Option<string>, limit: nat,
                        visible: Visibility): QueryResult {
    if limit == 0 || limit > MAX_LIMIT then InputError
    else if Corrupt(q, instances) then IntegrityError(instances[FirstIncomplete(q, instances)])
    else
      var rows := Ordered(q, instances);
      match DecodeQueryCursor(cursor, |rows|)
      case None => InputError
      case Some(start) => PageFrom(rows, visible, start, limit)
  }

  lemma {:induction false} VisibleFails(visible: Visibility, rows: seq<Item>, n: nat)
    requires n <= |rows| && VisibleItems(visible, rows[..n]).None?
    ensures VisibleItems(visible, rows).None?
    decreases |rows| - n
  {
    if n == |rows| {
      assert rows[..n] == rows;
    } else {
      assert rows[..n + 1][..n] == rows[..n];
      VisibleFails(visible, rows, n + 1);
    }
  }

  lemma {:induction false} VisibleConcat(visible: Visibility, a: seq<Item>, b: seq<Item>)
    ensures VisibleItems(visible, a + b) ==
      if VisibleItems(visible, a).None? || VisibleItems(visible, b).None? then None
      else Some(VisibleItems(visible, a).value + VisibleItems(visible, b).value)
  {
    if b == [] {
      assert a + b == a;
      var x := VisibleItems(visible, a);
      if x.Some? { assert x.value + [] == x.value; }
    } else {
      var n := |b| - 1;
      assert (a + b)[..|a + b| - 1] == a + b[..n];
      assert (a + b)[|a + b| - 1] == b[n];
      VisibleConcat(visible, a, b[..n]);
      var x, y := VisibleItems(visible, a), VisibleItems(visible, b[..n]);
      if x.Some? && y.Some? { assert x.value + (y.value + [b[n]]) == (x.value + y.value) + [b[n]]; }
    }
  }

  /** The visibility loop of one page, which also tracks the revision of each shown subject. */
  method ShowPage(visible: Visibility, rows: seq<Item>) returns (r: Option<(seq<Row>, Option<nat>)>)
    ensures r == match VisibleItems(visible, rows)
                 case None => None
                 case Some(items) => Some((Values(items), ThroughVersion(items)))
  {
    var items: seq<Item> := [];
    var subjects: map<(string, string), nat> := map[];
    for i := 0 to |rows|
      invariant VisibleItems(visible, rows[..i]) == Some(items)
      invariant forall s :: s in subjects <==> exists k :: 0 <= k < |items| && SubjectOf(items[k]) == s
      invariant items != [] ==> SubjectOf(items[|items| - 1]) in subjects
      invariant items != [] ==> subjects[SubjectOf(items[|items| - 1])] == items[|items| - 1].0.revision
    {
      var shown := visible(rows[i].0);
      assert rows[..i + 1][..i] == rows[..i];
      if shown.None? {
        VisibleFails(visible, rows, i + 1);
        return None;
      }
      if shown.value {
        var before := items;
        subjects := subjects[SubjectOf(rows[i]) := rows[i].0.revision];
        items := items + [rows[i]];
        assert forall k :: 0 <= k < |before| ==> items[k] == before[k];
        assert items[|before|] == rows[i];
      }
    }
    assert rows[..|rows|] == rows;
    OneSubject(items, subjects);
    var version := None;
    if |subjects| == 1 {
      var s :| s in subjects;
      version := Some(subjects[s]);
    }
    r := Some((Values(items), version));
  }

  lemma OneSubject(items: seq<Item>, subjects: map<(string, string), nat>)
    requires forall s :: s in subjects <==> exists k :: 0 <= k < |items| && SubjectOf(items[k]) == s
    ensures |subjects| == 1 <==>
      items != [] && forall k :: 0 <= k < |items| ==> SubjectOf(items[k]) == SubjectOf(items[0])
    ensures |subjects| == 1 ==> forall s :: s in subjects ==> s == SubjectOf(items[|items| - 1])
  {
    assert |subjects| == |subjects.Keys|;
    if items == [] {
      assert subjects.Keys == {};
    } else {
      var first := SubjectOf(items[0]);
      assert first in subjects.Keys;
      Singleton(subjects.Keys, first);
      if subjects.Keys == {first} {
        forall k | 0 <= k < |items| ensures SubjectOf(items[k]) == first {
          assert SubjectOf(items[k]) in subjects.Keys;
        }
      }
    }
  }

  lemma Singleton<T>(s: set<T>, x: T)
    requires x in s
    ensures |s| == 1 <==> s == {x}
  {
    assert s == {x} + (s - {x});
  }

  /** `project_query_v4`. */
  method ProjectQuery(q: Query, instances: seq<Instance>, cursor: Option<string>, limit: nat, visible: Visibility)
    returns (r: QueryResult)
    ensures r == QueryMeaning(q, instances, cursor, limit, visible)
  {
    if limit == 0 || limit > MAX_LIMIT {
      return InputError;
    }
    var rows: seq<Item> := [];
    for i := 0 to |instances|
      invariant rows == Rows(q, instances[..i])
      invariant forall k :: 0 <= k < i ==> !Incomplete(q, instances[k])
    {
      if Incomplete(q, instances[i]) {
        return IntegrityError(instances[i]);
      }
      assert instances[..i + 1][..i] == instances[..i];
      rows := rows + Contribution(q, instances[i]);
    }
    assert instances[..|instances|] == instances;
    rows := Sort(rows, RowLeq(q));
    var start := DecodeQueryCursor(cursor, |rows|);
    if start.None? {
      return InputError;
    }
    var end := PageEnd(start.value, limit, |rows|);
    var shown := ShowPage(visible, rows[start.value..end]);
    if shown.None? {
      return ProjectionError;
    }
    var partial := end < |rows|;
    r := Done(QueryPage(shown.value.0, shown.value.1, if partial then Some(EncodeQueryCursor(end)) else None, partial));
  }

  /** One page call depends on the snapshot only as a bag of instances, but for the instance an error names. */
  lemma QueryIgnoresOrder(q: Query, a: seq<Instance>, b: seq<Instance>, cursor: Option<string>, limit: nat,
                          visible: Visibility)
    requires multiset(a) == multiset(b) && UniqueSubjects(a)
    ensures var x, y := QueryMeaning(q, a, cursor, limit, visible), QueryMeaning(q, b, cursor, limit, visible);
      x == y || (Corrupt(q, a) && x.IntegrityError? && y.IntegrityError?)
  {
    OrderIndependent(q, a, b);
    CorruptIndependent(q, a, b);
  }

  /** Reading one more page extends the collected rows by exactly that page's visible rows. */
  lemma NextPage(rows: seq<Item>, visible: Visibility, done: nat, limit: nat)
    requires done <= |rows| && VisibleItems(visible, rows[..done]).Some?
    ensures var end, page := PageEnd(done, limit, |rows|), PageFrom(rows, visible, done, limit);
      if page.Done? then
        && VisibleItems(visible, rows[..end]).Some?
        && Values(VisibleItems(visible, rows[..end]).value)
           == Values(VisibleItems(visible, rows[..done]).value) + page.page.items
      else VisibleItems(visible, rows).None?
  {
    var end := PageEnd(done, limit, |rows|);
    VisibleConcat(visible, rows[..done], rows[done..end]);
    assert rows[..done] + rows[done..end] == rows[..end];
    if VisibleItems(visible, rows[done..end]).None? {
      VisibleFails(visible, rows, end);
    } else {
      ValuesConcat(VisibleItems(visible, rows[..done]).value, VisibleItems(visible, rows[done..end]).value);
    }
  }

  lemma ValuesConcat(a: seq<Item>, b: seq<Item>)
    ensures Values(a + b) == Values(a) + Values(b)
  {
  }

  /**
  A client that follows the returned cursors, choosing a new page limit every time: it terminates
  and collects the visible part of the ordered rows, each row once.
  */
  method FollowCursors(q: Query, instances: seq<Instance>, limits: nat -> nat, visible: Visibility)
    returns (r: Option<seq<Row>>)
    requires (forall k :: 1 <= limits(k) <= MAX_LIMIT) && !Corrupt(q, instances) && |Ordered(q, instances)| < U64_LIMIT
    ensures r.Some? <==> VisibleItems(visible, Ordered(q, instances)).Some?
    ensures r.Some? ==> r.value == Values(VisibleItems(visible, Ordered(q, instances)).value)
  {
    ghost var rows := Ordered(q, instances);
    ghost var done: nat := 0;
    var cursor: Option<string> := None;
    var collected: seq<Row> := [];
    var page := 0;
    assert rows[..0] == [];
    while true
      invariant done <= |rows| && DecodeQueryCursor(cursor, |rows|) == Some(done)
      invariant VisibleItems(visible, rows[..done]).Some?
      invariant collected == Values(VisibleItems(visible, rows[..done]).value)
      invariant cursor.Some? ==> done < |rows|
      decreases |rows| - done, cursor.None?
    {
      var limit := limits(page);
      var result := ProjectQuery(q, instances, cursor, limit, visible);
      assert result == PageFrom(rows, visible, done, limit);
      NextPage(rows, visible, done, limit);
      if !result.Done? {
        return None;
      }
      collected := collected + result.page.items;
      done := PageEnd(done, limit, |rows|);
      if result.page.nextCursor.None? {
        assert rows[..done] == rows;
        return Some(collected);
      }
      cursor := result.page.nextCursor;
      QueryCursorRoundTrip(done, |rows|);
      page := page + 1;
    }
  }
}
