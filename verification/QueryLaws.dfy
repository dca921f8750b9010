/**
What an ordered query shows: which instances match, in which order their rows come, and which of them
are visible, each said by an independent definition.
*/
module QueryLaws {
  import opened Text
  import opened JsonNumbers
  import opened Sorting
  import opened QueryV4

  // ---- the order of values ----

  /** Null, booleans, numbers, strings, arrays, objects. */
  function KindOrder(v: Value): nat {
    match v
    case Null => 0
    case Bool(_) => 1
    case Number(_) => 2
    case Str(_) => 3
    case Array(_) => 4
    case Object(_) => 5
  }

  /** A number comes before another by magnitude; one that is no finite float comes first. */
  predicate NumberBefore(n: Numerics, a: string, b: string) {
    n.asF64(b).Some? && (n.asF64(a).None? || Magnitude(n.asF64(a).value) < Magnitude(n.asF64(b).value))
  }

  /** Absent, then by kind, then within a kind: false before true, numbers by magnitude, text by bytes. */
  predicate ValueBefore(q: Query, a: Option<Value>, b: Option<Value>) {
    && b.Some?
    && (a.None?
        || KindOrder(a.value) < KindOrder(b.value)
        || (KindOrder(a.value) == KindOrder(b.value)
            && match (a.value, b.value)
               case (Bool(x), Bool(y)) => !x && y
               case (Number(x), Number(y)) => NumberBefore(q.numerics, x, y)
               case (Str(x), Str(y)) => Less(x, y)
               case (Null, _) => false
               case (x, y) => Less(q.text(x), q.text(y))))
  }

  lemma CompareJsonMeans(q: Query, a: Option<Value>, b: Option<Value>)
    ensures CompareJson(q, a, b) == -1 <==> ValueBefore(q, a, b)
    ensures CompareJson(q, a, b) == 1 <==> ValueBefore(q, b, a)
  {
    if a.Some? && b.Some? {
      if a.value.Str? && b.value.Str? { LessTotal(a.value.s, b.value.s); }
      LessTotal(q.text(a.value), q.text(b.value));
    }
  }

  // ---- the order of rows ----

  /** Two rows tie on a sort key. */
  predicate Ties(q: Query, key: SortKey, a: Item, b: Item) {
    var x, y := Cell(a.1, key.field), Cell(b.1, key.field);
    !ValueBefore(q, x, y) && !ValueBefore(q, y, x)
  }

  /** One key puts `a` before `b`: the smaller value first, or the larger when it is descending. */
  predicate KeyBefore(q: Query, key: SortKey, a: Item, b: Item) {
    var x, y := Cell(a.1, key.field), Cell(b.1, key.field);
    if key.descending then ValueBefore(q, y, x) else ValueBefore(q, x, y)
  }

  predicate SubjectBefore(a: Item, b: Item) {
    Less(a.0.entity, b.0.entity) || (a.0.entity == b.0.entity && Less(a.0.id, b.0.id))
  }

  /** The first key that does not tie decides; the subject decides when all tie. */
  ghost predicate RowBefore(q: Query, keys: seq<SortKey>, a: Item, b: Item) {
    || (exists k :: 0 <= k < |keys| && DecidesAt(q, keys, a, b, k))
    || ((forall k :: 0 <= k < |keys| ==> Ties(q, keys[k], a, b)) && SubjectBefore(a, b))
  }

  ghost predicate DecidesAt(q: Query, keys: seq<SortKey>, a: Item, b: Item, k: nat)
    requires k < |keys|
  {
    KeyBefore(q, keys[k], a, b) && forall m :: 0 <= m < k ==> Ties(q, keys[m], a, b)
  }

  lemma CompareKeyMeans(q: Query, key: SortKey, a: Item, b: Item)
    ensures CompareKey(q, key, a, b) == -1 <==> KeyBefore(q, key, a, b)
    ensures CompareKey(q, key, a, b) == 0 <==> Ties(q, key, a, b)
    ensures KeyBefore(q, key, a, b) ==> !Ties(q, key, a, b)
  {
    CompareJsonMeans(q, Cell(a.1, key.field), Cell(b.1, key.field));
  }

  lemma CompareSubjectMeans(a: Item, b: Item)
    ensures CompareSubject(a, b) == -1 <==> SubjectBefore(a, b)
  {
    LessTotal(a.0.entity, b.0.entity);
    LessTotal(a.0.id, b.0.id);
  }

  /** The comparator puts one row before another exactly as the sort keys and the subject say. */
  lemma {:induction false} CompareRowsMeans(q: Query, keys: seq<SortKey>, a: Item, b: Item)
    ensures CompareRows(q, keys, a, b) == -1 <==> RowBefore(q, keys, a, b)
  {
    if keys == [] {
      CompareSubjectMeans(a, b);
    } else {
      CompareKeyMeans(q, keys[0], a, b);
      CompareRowsMeans(q, keys[1..], a, b);
      BeforeByTail(q, keys, a, b);
    }
  }

  /** One key decides, or ties and leaves the decision to the others. */
  lemma BeforeByTail(q: Query, keys: seq<SortKey>, a: Item, b: Item)
    requires keys != []
    ensures RowBefore(q, keys, a, b) <==>
      KeyBefore(q, keys[0], a, b) || (Ties(q, keys[0], a, b) && RowBefore(q, keys[1..], a, b))
  {
    CompareKeyMeans(q, keys[0], a, b);
    var tail := keys[1..];
    assert forall k :: 0 < k < |keys| ==> keys[k] == tail[k - 1];
    if KeyBefore(q, keys[0], a, b) { assert DecidesAt(q, keys, a, b, 0); }
    if k :| 0 <= k < |keys| && DecidesAt(q, keys, a, b, k) {
      if k > 0 { assert DecidesAt(q, tail, a, b, k - 1); }
    }
    if Ties(q, keys[0], a, b) {
      if k :| 0 <= k < |tail| && DecidesAt(q, tail, a, b, k) { assert DecidesAt(q, keys, a, b, k + 1); }
      if forall k :: 0 <= k < |tail| ==> Ties(q, tail[k], a, b) {
        forall k | 0 <= k < |keys| ensures Ties(q, keys[k], a, b) { if k > 0 { assert Ties(q, tail[k - 1], a, b); } }
      }
    }
    if forall k :: 0 <= k < |keys| ==> Ties(q, keys[k], a, b) {
      forall k | 0 <= k < |tail| ensures Ties(q, tail[k], a, b) { assert Ties(q, keys[k + 1], a, b); }
    }
  }

  // ---- which instances match, and what their rows hold ----

  /** The instance has a value to show for this field of the view. */
  predicate HasField(i: Instance, field: string) { field == "state" || field in i.fields }

  function ValueOf(i: Instance, field: string): Value
    requires HasField(i, field)
  {
    if field == "state" then Str(i.state) else i.fields[field]
  }

  /** The instance is of the source kind, passes the filter, and agrees with every selector. */
  ghost predicate Matches(q: Query, i: Instance) {
    && i.entity == q.source && q.admits(i)
    && forall k :: 0 <= k < |q.selectors| ==>
         var (field, value) := q.selectors[k];
         field in q.fields && HasField(i, field) && q.numerics.Equal(ValueOf(i, field), value)
  }

  /** The row holds the view's fields that the instance has, and nothing else. */
  ghost predicate IsRowOf(q: Query, i: Instance, row: Row) {
    forall field :: (field in row <==> field in q.fields && HasField(i, field))
      && (field in row ==> row[field] == ValueOf(i, field))
  }

  lemma RowOfIs(q: Query, i: Instance)
    ensures IsRowOf(q, i, RowOf(q, i))
  {
  }

  lemma ContributesIff(q: Query, i: Instance)
    ensures Contribution(q, i) == if Matches(q, i) then [(i, RowOf(q, i))] else []
  {
    RowOfIs(q, i);
    if Candidate(q, i) {
      forall k | 0 <= k < |q.selectors|
        ensures q.selectors[k].0 in RowOf(q, i) <==> q.selectors[k].0 in q.fields && HasField(i, q.selectors[k].0) {}
    }
  }

  lemma {:induction false} RowsAre(q: Query, instances: seq<Instance>, item: Item)
    ensures item in Rows(q, instances) <==>
      item.0 in instances && Matches(q, item.0) && item.1 == RowOf(q, item.0)
  {
    if instances != [] {
      var n := |instances| - 1;
      assert instances == instances[..n] + [instances[n]];
      RowsAre(q, instances[..n], item);
      ContributesIff(q, instances[n]);
    }
  }

  lemma SortedMembers(q: Query, instances: seq<Instance>, item: Item)
    ensures item in Ordered(q, instances) <==> item in Rows(q, instances)
  {
    RowOrder(q);
    SortSorts(Rows(q, instances), RowLeq(q));
    if item in Ordered(q, instances) { MemberOf(Ordered(q, instances), Rows(q, instances), item); }
    if item in Rows(q, instances) { MemberOf(Rows(q, instances), Ordered(q, instances), item); }
  }

  /** The ordered rows are those of the matching instances of the snapshot, and no others. */
  lemma OrderedMembers(q: Query, instances: seq<Instance>, item: Item)
    ensures item in Ordered(q, instances) <==> item.0 in instances && Matches(q, item.0) && item.1 == RowOf(q, item.0)
    ensures item in Ordered(q, instances) ==> IsRowOf(q, item.0, item.1)
  {
    SortedMembers(q, instances, item);
    RowsAre(q, instances, item);
    RowOfIs(q, item.0);
  }

  /** A source instance that passes the filter lacks a required field of the view. */
  ghost predicate Lacks(q: Query, i: Instance, field: string) {
    i.entity == q.source && q.admits(i) && field in q.fields && field !in q.optional && !HasField(i, field)
  }

  /** A snapshot is corrupt exactly when some instance of it lacks a required field. */
  lemma CorruptIff(q: Query, instances: seq<Instance>)
    ensures Corrupt(q, instances) <==> exists i, field :: i in instances && Lacks(q, i, field)
  {
    if Corrupt(q, instances) {
      var k :| 0 <= k < |instances| && Incomplete(q, instances[k]);
      var field :| field in q.fields && field !in q.optional && FieldOf(instances[k], field).None?;
      assert instances[k] in instances && Lacks(q, instances[k], field);
    }
    if i, field :| i in instances && Lacks(q, i, field) {
      var k :| 0 <= k < |instances| && instances[k] == i;
      assert FieldOf(i, field).None? && Incomplete(q, instances[k]);
    }
  }

  /** With unique subjects, every row comes strictly before all that follow it. */
  lemma OrderedIsStrict(q: Query, instances: seq<Instance>, i: nat, j: nat)
    requires UniqueSubjects(instances) && i < j < |Ordered(q, instances)|
    ensures RowBefore(q, q.sort, Ordered(q, instances)[i], Ordered(q, instances)[j])
  {
    var rows := Ordered(q, instances);
    RowOrder(q);
    SortSorts(Rows(q, instances), RowLeq(q));
    assert CompareRows(q, q.sort, rows[i], rows[j]) <= 0;
    CompareRowsMeans(q, q.sort, rows[i], rows[j]);
    if CompareRows(q, q.sort, rows[i], rows[j]) == 0 {
      SubjectTwice(q, instances, i, j);
    }
  }

  lemma {:induction false} RowsOnce(q: Query, instances: seq<Instance>, item: Item)
    requires UniqueSubjects(instances)
    ensures multiset(Rows(q, instances))[item] <= 1
  {
    if instances != [] {
      var n := |instances| - 1;
      var init := instances[..n];
      RowsOnce(q, init, item);
      RowsAre(q, init, item);
      if item in Contribution(q, instances[n]) {
        assert item.0 == instances[n];
        assert item !in Rows(q, init);
      }
    }
  }

  lemma SubjectTwice(q: Query, instances: seq<Instance>, i: nat, j: nat)
    requires UniqueSubjects(instances) && i < j < |Ordered(q, instances)|
    ensures CompareRows(q, q.sort, Ordered(q, instances)[i], Ordered(q, instances)[j]) != 0
  {
    var rows := Ordered(q, instances);
    if CompareRows(q, q.sort, rows[i], rows[j]) == 0 {
      CompareRowsLaws(q, q.sort, rows[i], rows[j], rows[i]);
      OrderedMembers(q, instances, rows[i]);
      OrderedMembers(q, instances, rows[j]);
      var a :| 0 <= a < |instances| && instances[a] == rows[i].0;
      var b :| 0 <= b < |instances| && instances[b] == rows[j].0;
      assert rows[i] == rows[j];
      RowOrder(q);
      SortSorts(Rows(q, instances), RowLeq(q));
      RowsOnce(q, instances, rows[i]);
      TwiceIn(rows, i, j);
    }
  }

  lemma TwiceIn(rows: seq<Item>, i: nat, j: nat)
    requires i < j < |rows| && rows[i] == rows[j]
    ensures multiset(rows)[rows[i]] >= 2
  {
    assert rows == rows[..i] + [rows[i]] + rows[i + 1..j] + [rows[j]] + rows[j + 1..];
  }

  // ---- what is visible ----

  /** A page is shown exactly when every visibility check answers; then it holds the visible rows. */
  lemma {:induction false} VisibleMeans(visible: Visibility, rows: seq<Item>)
    ensures VisibleItems(visible, rows).Some? <==> forall i :: 0 <= i < |rows| ==> visible(rows[i].0).Some?
    ensures VisibleItems(visible, rows).Some? ==>
      forall item :: item in VisibleItems(visible, rows).value <==> item in rows && visible(item.0) == Some(true)
  {
    if rows != [] {
      var n := |rows| - 1;
      assert rows == rows[..n] + [rows[n]];
      VisibleMeans(visible, rows[..n]);
    }
  }

  /** The visible rows keep the order they had. */
  lemma {:induction false} VisibleInOrder(visible: Visibility, rows: seq<Item>, i: nat, j: nat) returns (a: nat, b: nat)
    requires VisibleItems(visible, rows).Some? && i < j < |VisibleItems(visible, rows).value|
    ensures a < b < |rows|
    ensures rows[a] == VisibleItems(visible, rows).value[i] && rows[b] == VisibleItems(visible, rows).value[j]
  {
    var n := |rows| - 1;
    var init := VisibleItems(visible, rows[..n]).value;
    if j < |init| {
      a, b := VisibleInOrder(visible, rows[..n], i, j);
    } else {
      VisibleMeans(visible, rows[..n]);
      assert init[i] in init;
      a :| 0 <= a < n && rows[..n][a] == init[i];
      b := n;
    }
  }
}
