/** The projector's two tables, and why they always equal a recomputation from the event log. */
module ProjectionTables {
  import opened Text
  import opened Codecs
  import opened Projection

  type Id = (string, string)
  type Streams = map<Stream, seq<Event>>

  /** Both tables are keyed by tenant and text key. */
  datatype Tables = Tables(states: map<Id, State>, rows: map<Id, Row>)
  datatype Db = Db(streams: Streams, tables: Tables)

  function Log(streams: Streams, s: Stream): seq<Event> { if s in streams then streams[s] else [] }

  function Previous(t: Tables, s: Stream): State {
    if (s.tenant, s.id) in t.states then t.states[(s.tenant, s.id)] else map[]
  }

  predicate Ours(plan: Plan, s: Stream) { s.kind == Kind(plan.service) }

  /** The projector on one event: replace the stream's state and exactly that stream's rows. */
  function Project(plan: Plan, h: string -> string, t: Tables, s: Stream, event: Event): Option<Tables>
    requires IsDigest(h)
  {
    if !Ours(plan, s) then Some(t)
    else if event.redacted || DecodeStreamId(s.id).None? then None
    else
      var previous, w := Previous(t, s), DecodeStreamId(s.id).value;
      match Reduce(plan, previous, event)
      case Err(_) => None
      case Ok(next) =>
        Some(Tables(t.states[(s.tenant, s.id) := next],
                    (t.rows - RowsOf(plan, h, s, w, previous).Keys) + RowsOf(plan, h, s, w, next)))
  }

  function ProjectAll(plan: Plan, h: string -> string, t: Tables, s: Stream, events: seq<Event>): Option<Tables>
    requires IsDigest(h)
  {
    if events == [] then Some(t)
    else
      match ProjectAll(plan, h, t, s, events[..|events| - 1])
      case None => None
      case Some(before) => Project(plan, h, before, s, events[|events| - 1])
  }

  /** The store's append: version guard and projector in one transaction, rolled back as a whole. */
  function Commit(plan: Plan, h: string -> string, db: Db, s: Stream, expected: nat, events: seq<Event>): Option<Db>
    requires IsDigest(h)
  {
    if events == [] || |Log(db.streams, s)| != expected then None
    else
      match ProjectAll(plan, h, db.tables, s, events)
      case None => None
      case Some(tables) => Some(Db(db.streams[s := Log(db.streams, s) + events], tables))
  }

  // ---- the imperative store ----

  lemma {:induction false} ProjectAllFails(plan: Plan, h: string -> string, t: Tables, s: Stream, events: seq<Event>,
                                           n: nat)
    requires IsDigest(h) && n <= |events| && ProjectAll(plan, h, t, s, events[..n]).None?
    ensures ProjectAll(plan, h, t, s, events).None?
    decreases |events| - n
  {
    if n == |events| {
      assert events[..n] == events;
    } else {
      assert events[..n + 1][..n] == events[..n];
      ProjectAllFails(plan, h, t, s, events, n + 1);
    }
  }

  class DurableStore {
    var streams: Streams
    var states: map<Id, State>
    var rows: map<Id, Row>

    ghost function Contents(): Db
      reads this
    {
      Db(streams, Tables(states, rows))
    }

    constructor ()
      ensures Contents() == Db(map[], Tables(map[], map[]))
    {
      streams, states, rows := map[], map[], map[];
    }

    /** Delete every row computed from the previous state. */
    method DeleteRows(doomed: map<Id, Row>)
      modifies this`rows
      ensures rows == old(rows) - doomed.Keys
    {
      var todo := doomed.Keys;
      while todo != {}
        invariant todo <= doomed.Keys && rows == old(rows) - (doomed.Keys - todo)
      {
        var key :| key in todo;
        rows := rows - {key};
        assert doomed.Keys - (todo - {key}) == (doomed.Keys - todo) + {key};
        todo := todo - {key};
      }
    }

    /** Upsert every row computed from the next state. */
    method UpsertRows(added: map<Id, Row>)
      modifies this`rows
      ensures rows == old(rows) + added
    {
      var todo := added.Keys;
      while todo != {}
        invariant todo <= added.Keys
        invariant rows.Keys == old(rows).Keys + (added.Keys - todo)
        invariant forall k :: k in rows ==> rows[k] == if k in added.Keys - todo then added[k] else old(rows)[k]
      {
        var key :| key in todo;
        rows := rows[key := added[key]];
        todo := todo - {key};
      }
    }

    /** `ServiceProjector::apply`. A failure may leave half-done rows: the transaction discards them. */
    method ApplyProjector(plan: Plan, h: string -> string, s: Stream, event: Event) returns (ok: bool)
      requires IsDigest(h)
      modifies this`states, this`rows
      ensures ok <==> Project(plan, h, old(Contents().tables), s, event).Some?
      ensures ok ==> Project(plan, h, old(Contents().tables), s, event) == Some(Contents().tables)
    {
      if !Ours(plan, s) {
        return true;
      }
      if event.redacted || DecodeStreamId(s.id).None? {
        return false;
      }
      var previous := if (s.tenant, s.id) in states then states[(s.tenant, s.id)] else map[];
      var w := DecodeStreamId(s.id).value;
      DeleteRows(RowsOf(plan, h, s, w, previous));
      var next := new ProjectionState();
      next.entities := previous;
      var reduced := next.Apply(plan, event);
      if reduced.Err? {
        return false;
      }
      states := states[(s.tenant, s.id) := next.entities];
      UpsertRows(RowsOf(plan, h, s, w, next.entities));
      ok := true;
    }

    /** The durable append with its rollback. */
    method Append(plan: Plan, h: string -> string, s: Stream, expected: nat, events: seq<Event>) returns (ok: bool)
      requires IsDigest(h)
      modifies this
      ensures ok <==> Commit(plan, h, old(Contents()), s, expected, events).Some?
      ensures Contents() == if ok then Commit(plan, h, old(Contents()), s, expected, events).value else old(Contents())
    {
      if events == [] || |Log(streams, s)| != expected {
        return false;
      }
      var savedStates, savedRows := states, rows;
      ghost var start := Tables(states, rows);
      for i := 0 to |events|
        invariant ProjectAll(plan, h, start, s, events[..i]) == Some(Tables(states, rows))
        invariant streams == old(streams)
      {
        var applied := ApplyProjector(plan, h, s, events[i]);
        assert events[..i + 1][..i] == events[..i];
        if !applied {
          ProjectAllFails(plan, h, start, s, events, i + 1);
          states, rows := savedStates, savedRows;
          return false;
        }
      }
      assert events[..|events|] == events;
      streams := streams[s := Log(streams, s) + events];
      ok := true;
    }
  }

  // ---- agreement with recomputation ----

  /** What a stream's rows should be: recomputed from the fold of its whole log. */
  ghost function Recomputed(plan: Plan, h: string -> string, s: Stream, log: seq<Event>): map<Id, Row>
    requires IsDigest(h)
  {
    if Ours(plan, s) && DecodeStreamId(s.id).Some? && Fold(plan, log).Ok?
    then RowsOf(plan, h, s, DecodeStreamId(s.id).value, Fold(plan, log).value) else map[]
  }

  type Parts = map<Stream, map<Id, Row>>

  ghost function AllRecomputed(plan: Plan, h: string -> string, streams: Streams): Parts
    requires IsDigest(h)
  {
    map s | s in streams :: Recomputed(plan, h, s, streams[s])
  }

  /** The table is, key for key, the union of the parts: no entry missing, stale or foreign. */
  ghost predicate IsUnion(parts: Parts, rows: map<Id, Row>) {
    && (forall s, k :: s in parts && k in parts[s] ==> k in rows && rows[k] == parts[s][k])
    && (forall k :: k in rows ==> exists s :: s in parts && k in parts[s])
  }

  /** Every committed stream of this service has a readable identity. */
  ghost predicate Readable(plan: Plan, streams: Streams) {
    forall s :: s in streams && Ours(plan, s) ==> DecodeStreamId(s.id).Some?
  }

  /** Every committed stream folds, and the stored state is that fold; no other state is stored. */
  ghost predicate StatesAreFolds(plan: Plan, streams: Streams, states: map<Id, State>) {
    && (forall s :: s in streams && Ours(plan, s) ==>
          (s.tenant, s.id) in states && Fold(plan, streams[s]) == Ok(states[(s.tenant, s.id)]))
    && (forall k :: k in states ==> Stream(k.0, Kind(plan.service), k.1) in streams)
  }

  ghost predicate StatesAgree(plan: Plan, streams: Streams, states: map<Id, State>) {
    Readable(plan, streams) && StatesAreFolds(plan, streams, states)
  }

  ghost predicate RowsAgree(plan: Plan, h: string -> string, streams: Streams, t: Tables)
    requires IsDigest(h)
  {
    IsUnion(AllRecomputed(plan, h, streams), t.rows)
  }

  ghost predicate Agrees(plan: Plan, h: string -> string, db: Db)
    requires IsDigest(h)
  {
    StatesAgree(plan, db.streams, db.tables.states) && RowsAgree(plan, h, db.streams, db.tables)
  }

  /** Replacing one part of a disjoint union by delete-then-insert. */
  lemma ReplacePart(parts: Parts, rows: map<Id, Row>, s: Stream, gone: map<Id, Row>, added: map<Id, Row>)
    requires IsUnion(parts, rows) && gone == (if s in parts then parts[s] else map[])
    requires forall o, k :: o in parts && o != s && k in parts[o] ==> k !in gone && k !in added
    ensures IsUnion(parts[s := added], (rows - gone.Keys) + added)
  {
    var parts', rows' := parts[s := added], (rows - gone.Keys) + added;
    forall k | k in rows' ensures exists o :: o in parts' && k in parts'[o] {
      if k in added {
        assert s in parts' && k in parts'[s];
      } else {
        var o :| o in parts && k in parts[o];
        assert o in parts' && k in parts'[o];
      }
    }
  }

  lemma FoldSnoc(plan: Plan, log: seq<Event>, event: Event)
    requires Fold(plan, log).Ok?
    ensures Fold(plan, log + [event]) == Reduce(plan, Fold(plan, log).value, event)
  {
    assert (log + [event])[..|log|] == log;
  }

  /** The stored state is the fold of what is committed so far, also before the first event. */
  lemma PreviousIsFold(plan: Plan, streams: Streams, t: Tables, s: Stream)
    requires StatesAreFolds(plan, streams, t.states) && Ours(plan, s)
    ensures Fold(plan, Log(streams, s)) == Ok(Previous(t, s))
  {
    if s !in streams {
      assert (s.tenant, s.id) !in t.states;
    }
  }

  /** Storing the reduced state keeps the state table. */
  lemma NextStateAgrees(plan: Plan, streams: Streams, t: Tables, s: Stream, event: Event)
    requires StatesAgree(plan, streams, t.states) && Ours(plan, s) && DecodeStreamId(s.id).Some?
    requires Reduce(plan, Previous(t, s), event).Ok?
    ensures StatesAgree(plan, streams[s := Log(streams, s) + [event]],
                        t.states[(s.tenant, s.id) := Reduce(plan, Previous(t, s), event).value])
  {
    PreviousIsFold(plan, streams, t, s);
    FoldSnoc(plan, Log(streams, s), event);
    var next := Reduce(plan, Previous(t, s), event).value;
    StatesAfter(plan, streams, t.states, s, Log(streams, s) + [event], next);
  }

  lemma StatesAfter(plan: Plan, streams: Streams, states: map<Id, State>, s: Stream, log: seq<Event>, next: State)
    requires StatesAreFolds(plan, streams, states) && Ours(plan, s) && Fold(plan, log) == Ok(next)
    ensures StatesAreFolds(plan, streams[s := log], states[(s.tenant, s.id) := next])
  {
    var streams', states' := streams[s := log], states[(s.tenant, s.id) := next];
    forall x | x in streams' && Ours(plan, x)
      ensures (x.tenant, x.id) in states' && Fold(plan, streams'[x]) == Ok(states'[(x.tenant, x.id)])
    {
      if x != s { assert x in streams && (x.tenant, x.id) != (s.tenant, s.id); }
    }
  }

  /** One projected event keeps the state table. */
  lemma ProjectKeepsStates(plan: Plan, h: string -> string, streams: Streams, t: Tables, s: Stream, event: Event)
    requires IsDigest(h) && StatesAgree(plan, streams, t.states) && Project(plan, h, t, s, event).Some?
    ensures StatesAgree(plan, streams[s := Log(streams, s) + [event]], Project(plan, h, t, s, event).value.states)
  {
    if Ours(plan, s) {
      NextStateAgrees(plan, streams, t, s, event);
    }
  }

  lemma PartsAfter(plan: Plan, h: string -> string, streams: Streams, s: Stream, log: seq<Event>)
    requires IsDigest(h)
    ensures AllRecomputed(plan, h, streams[s := log])
      == AllRecomputed(plan, h, streams)[s := Recomputed(plan, h, s, log)]
  {
  }

  /** Rows of any other stream are out of reach of this stream's keys. */
  lemma OtherPartsDisjoint(plan: Plan, h: string -> string, streams: Streams, s: Stream, state: State)
    requires IsDigest(h) && Ours(plan, s) && DecodeStreamId(s.id).Some?
    ensures forall o, k :: o in streams && o != s && k in Recomputed(plan, h, o, streams[o]) ==>
      k !in RowsOf(plan, h, s, DecodeStreamId(s.id).value, state)
  {
    forall o, k | o in streams && o != s && k in Recomputed(plan, h, o, streams[o])
      ensures k !in RowsOf(plan, h, s, DecodeStreamId(s.id).value, state)
    {
      var w := DecodeStreamId(s.id).value;
      if k in RowsOf(plan, h, s, w, state) {
        RowsDisjoint(plan, h, s, w, state, o, DecodeStreamId(o.id).value, Fold(plan, streams[o]).value, k);
      }
    }
  }

  /** One projected event keeps the row table. */
  lemma ProjectKeepsRows(plan: Plan, h: string -> string, streams: Streams, t: Tables, s: Stream, event: Event)
    requires IsDigest(h) && Ours(plan, s)
    requires StatesAgree(plan, streams, t.states) && RowsAgree(plan, h, streams, t)
    requires Project(plan, h, t, s, event).Some?
    ensures RowsAgree(plan, h, streams[s := Log(streams, s) + [event]], Project(plan, h, t, s, event).value)
  {
    var log, w := Log(streams, s) + [event], DecodeStreamId(s.id).value;
    PreviousIsFold(plan, streams, t, s);
    FoldSnoc(plan, Log(streams, s), event);
    var previous := Previous(t, s);
    var next := Reduce(plan, previous, event).value;
    RowsAfter(plan, h, streams, t.rows, s, w, previous, log, next);
  }

  lemma RowsAfter(plan: Plan, h: string -> string, streams: Streams, rows: map<Id, Row>, s: Stream, w: Address,
                  previous: State, log: seq<Event>, next: State)
    requires IsDigest(h) && Ours(plan, s) && DecodeStreamId(s.id) == Some(w)
    requires IsUnion(AllRecomputed(plan, h, streams), rows)
    requires Fold(plan, Log(streams, s)) == Ok(previous) && Fold(plan, log) == Ok(next)
    ensures IsUnion(AllRecomputed(plan, h, streams[s := log]),
                    (rows - RowsOf(plan, h, s, w, previous).Keys) + RowsOf(plan, h, s, w, next))
  {
    PartsAfter(plan, h, streams, s, log);
    OtherPartsDisjoint(plan, h, streams, s, previous);
    OtherPartsDisjoint(plan, h, streams, s, next);
    PreviousPart(plan, h, streams, s, w, previous);
    ReplacePart(AllRecomputed(plan, h, streams), rows, s, RowsOf(plan, h, s, w, previous), RowsOf(plan, h, s, w, next));
  }

  lemma PreviousPart(plan: Plan, h: string -> string, streams: Streams, s: Stream, w: Address, previous: State)
    requires IsDigest(h) && Ours(plan, s) && DecodeStreamId(s.id) == Some(w)
    requires Fold(plan, Log(streams, s)) == Ok(previous)
    ensures var parts := AllRecomputed(plan, h, streams);
      RowsOf(plan, h, s, w, previous) == if s in parts then parts[s] else map[]
  {
    if s !in streams { NoStateNoRows(plan, h, s, w); }
  }

  lemma EmptyPart(parts: Parts, rows: map<Id, Row>, s: Stream)
    requires IsUnion(parts, rows) && (s in parts ==> parts[s] == map[])
    ensures IsUnion(parts[s := map[]], rows)
  {
    var parts' := parts[s := map[]];
    forall k | k in rows ensures exists o :: o in parts' && k in parts'[o] {
      var o :| o in parts && k in parts[o];
      assert o in parts' && k in parts'[o];
    }
  }

  lemma ForeignStreamKeepsRows(plan: Plan, h: string -> string, streams: Streams, t: Tables, s: Stream, log: seq<Event>)
    requires IsDigest(h) && !Ours(plan, s) && RowsAgree(plan, h, streams, t)
    ensures RowsAgree(plan, h, streams[s := log], t)
  {
    PartsAfter(plan, h, streams, s, log);
    EmptyPart(AllRecomputed(plan, h, streams), t.rows, s);
  }

  lemma ProjectKeepsAgreement(plan: Plan, h: string -> string, streams: Streams, t: Tables, s: Stream, event: Event)
    requires IsDigest(h) && Agrees(plan, h, Db(streams, t)) && Project(plan, h, t, s, event).Some?
    ensures Agrees(plan, h, Db(streams[s := Log(streams, s) + [event]], Project(plan, h, t, s, event).value))
  {
    ProjectKeepsStates(plan, h, streams, t, s, event);
    if Ours(plan, s) {
      ProjectKeepsRows(plan, h, streams, t, s, event);
    } else {
      ForeignStreamKeepsRows(plan, h, streams, t, s, Log(streams, s) + [event]);
    }
  }

  lemma {:induction false} BatchKeepsAgreement(plan: Plan, h: string -> string, streams: Streams, t: Tables, s: Stream,
                                               events: seq<Event>)
    requires IsDigest(h) && Agrees(plan, h, Db(streams, t)) && events != [] && ProjectAll(plan, h, t, s, events).Some?
    ensures Agrees(plan, h, Db(streams[s := Log(streams, s) + events], ProjectAll(plan, h, t, s, events).value))
  {
    var n := |events| - 1;
    var init := events[..n];
    var before := ProjectAll(plan, h, t, s, init).value;
    assert events == init + [events[n]];
    if n == 0 {
      assert init == [] && events == [events[0]];
      ProjectKeepsAgreement(plan, h, streams, t, s, events[0]);
    } else {
      BatchKeepsAgreement(plan, h, streams, t, s, init);
      var mid := streams[s := Log(streams, s) + init];
      ProjectKeepsAgreement(plan, h, mid, before, s, events[n]);
      assert Log(mid, s) + [events[n]] == Log(streams, s) + events;
      assert mid[s := Log(streams, s) + events] == streams[s := Log(streams, s) + events];
    }
  }

  // ---- runs: any batches, decided on any loads, over any streams ----

  datatype Batch = Batch(stream: Stream, expected: nat, events: seq<Event>)

  function Attempt(plan: Plan, h: string -> string, db: Db, b: Batch): Db
    requires IsDigest(h)
  {
    var r := Commit(plan, h, db, b.stream, b.expected, b.events);
    if r.Some? then r.value else db
  }

  function RunBatches(plan: Plan, h: string -> string, batches: seq<Batch>): Db
    requires IsDigest(h)
  {
    if batches == [] then Db(map[], Tables(map[], map[]))
    else Attempt(plan, h, RunBatches(plan, h, batches[..|batches| - 1]), batches[|batches| - 1])
  }

  lemma CommitKeepsAgreement(plan: Plan, h: string -> string, db: Db, b: Batch)
    requires IsDigest(h) && Agrees(plan, h, db)
    ensures Agrees(plan, h, Attempt(plan, h, db, b))
  {
    if Commit(plan, h, db, b.stream, b.expected, b.events).Some? {
      BatchKeepsAgreement(plan, h, db.streams, db.tables, b.stream, b.events);
    }
  }

  /** After any run both tables equal the recomputation, whatever the batches were decided on. */
  lemma {:induction false} RunKeepsAgreement(plan: Plan, h: string -> string, batches: seq<Batch>)
    requires IsDigest(h)
    ensures Agrees(plan, h, RunBatches(plan, h, batches))
  {
    if batches != [] {
      var n := |batches| - 1;
      RunKeepsAgreement(plan, h, batches[..n]);
      CommitKeepsAgreement(plan, h, RunBatches(plan, h, batches[..n]), batches[n]);
    }
  }

  /** `authorization_state`: what re-authorises a retry is the fold of the whole committed stream. */
  lemma AuthorizationStateIsFold(plan: Plan, h: string -> string, batches: seq<Batch>, s: Stream)
    requires IsDigest(h) && Ours(plan, s)
    ensures var db := RunBatches(plan, h, batches);
      Fold(plan, Log(db.streams, s)) == Ok(Previous(db.tables, s))
      && ((s.tenant, s.id) in db.tables.states <==> s in db.streams)
  {
    RunKeepsAgreement(plan, h, batches);
    var db := RunBatches(plan, h, batches);
    PreviousIsFold(plan, db.streams, db.tables, s);
  }
}
