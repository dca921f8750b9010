/**
When the store commits a batch, which entities have a row, and what a row shows: stated over the committed
history and the row table, without the projector's own steps.
*/
module RowLaws {
  import opened Text
  import opened Codecs
  import opened JsonNumbers
  import opened Projection
  import opened ProjectionTables
  import opened ProjectionLaws

  // ---- when an event, and a batch, is accepted ----

  /** The least instance of the parent kind has the owner and the scopes to inherit. */
  ghost predicate ParentReady(state: State, i: Inherit) {
    i.parent in state && exists parent :: (
      && IsLeast(state[i.parent].Keys, parent)
      && i.parentOwner in state[i.parent][parent].fields && i.parentScopes in state[i.parent][parent].fields)
  }

  /** The event names an entity, its parent is ready, and the entity is where the reducer needs it. */
  ghost predicate Acceptable(plan: Plan, state: State, e: Event) {
    && e.name in plan.reducers && e.data.Object?
    && var r := plan.reducers[e.name];
    && r.identityField in e.data.members && e.data.members[r.identityField].Str?
    && (r.inherit.Some? ==> ParentReady(state, r.inherit.value))
    && var x := EntityIn(state, r.entity, e.data.members[r.identityField].s);
    && (r.effect.Create? ==> x.None?) && (!r.effect.Create? ==> x.Some?)
    && (r.effect.Move? ==> x.Some? && x.value.state in r.effect.from)
  }

  lemma LeastParent(instances: map<string, Entity>, a: string, b: string)
    requires IsLeast(instances.Keys, a) && IsLeast(instances.Keys, b)
    ensures a == b
  {
    LeastKeyUnique(instances.Keys, a, b);
  }

  lemma InheritsIff(r: Reducer, state: State)
    ensures Inherited(r, state).Ok? <==> (r.inherit.Some? ==> ParentReady(state, r.inherit.value))
  {
    if r.inherit.Some? {
      var i := r.inherit.value;
      var parent := FirstOf(state, i.parent);
      if parent.Some? {
        var k :| IsLeast(state[i.parent].Keys, k) && parent.value == state[i.parent][k];
        forall j | IsLeast(state[i.parent].Keys, j) ensures j == k { LeastParent(state[i.parent], j, k); }
      }
    }
  }

  /** An event reduces exactly when it is acceptable. */
  lemma ReducesIff(plan: Plan, state: State, e: Event)
    ensures Reduce(plan, state, e).Ok? <==> Acceptable(plan, state, e)
  {
    if e.name in plan.reducers { InheritsIff(plan.reducers[e.name], state); }
  }

  /** A batch the store can take: versions fit, and a stream of this service stays readable and foldable. */
  ghost predicate Committable(plan: Plan, db: Db, s: Stream, expected: nat, events: seq<Event>) {
    && events != [] && |Log(db.streams, s)| == expected
    && (s.kind == Kind(plan.service) ==> MayFollow(plan, s, Log(db.streams, s), events))
  }

  /** One more event, on tables that hold the fold of the log so far. */
  lemma ProjectsIff(plan: Plan, h: string -> string, t: Tables, s: Stream, log: seq<Event>, e: Event)
    requires IsDigest(h) && s.kind == Kind(plan.service) && Fold(plan, log) == Ok(Previous(t, s))
    ensures Project(plan, h, t, s, e).Some? <==>
      DecodeStreamId(s.id).Some? && !e.redacted && Fold(plan, log + [e]).Ok?
    ensures Project(plan, h, t, s, e).Some? ==>
      Fold(plan, log + [e]) == Ok(Previous(Project(plan, h, t, s, e).value, s))
  {
    FoldSnoc(plan, log, e);
  }

  /** These events may follow the log of a stream of this service. */
  ghost predicate MayFollow(plan: Plan, s: Stream, log: seq<Event>, events: seq<Event>) {
    DecodeStreamId(s.id).Some? && NoneRedacted(events) && Fold(plan, log + events).Ok?
  }

  predicate NoneRedacted(events: seq<Event>) { forall i :: 0 <= i < |events| ==> !events[i].redacted }

  lemma NoneRedactedSnoc(init: seq<Event>, e: Event)
    ensures NoneRedacted(init + [e]) <==> NoneRedacted(init) && !e.redacted
  {
    var events := init + [e];
    assert events[|init|] == e && forall i :: 0 <= i < |init| ==> events[i] == init[i];
  }

  lemma FoldNeeds(plan: Plan, log: seq<Event>, e: Event)
    ensures Fold(plan, log + [e]).Ok? ==> Fold(plan, log).Ok?
  {
    assert (log + [e])[..|log|] == log;
  }

  lemma MayFollowSnoc(plan: Plan, s: Stream, log: seq<Event>, init: seq<Event>, e: Event)
    ensures MayFollow(plan, s, log, init + [e]) <==>
      MayFollow(plan, s, log, init) && !e.redacted && Fold(plan, (log + init) + [e]).Ok?
  {
    assert log + (init + [e]) == (log + init) + [e];
    FoldNeeds(plan, log + init, e);
    NoneRedactedSnoc(init, e);
  }

  lemma ProjectAllSnoc(plan: Plan, h: string -> string, t: Tables, s: Stream, init: seq<Event>, e: Event)
    requires IsDigest(h)
    ensures var before := ProjectAll(plan, h, t, s, init);
      ProjectAll(plan, h, t, s, init + [e]) == if before.None? then None else Project(plan, h, before.value, s, e)
  {
    assert (init + [e])[..|init|] == init;
  }

  /** The tables project exactly the events that may follow, and then hold the longer fold. */
  ghost predicate Follows(plan: Plan, s: Stream, log: seq<Event>, events: seq<Event>, after: Option<Tables>) {
    && (after.Some? <==> MayFollow(plan, s, log, events))
    && (after.Some? ==> Fold(plan, log + events) == Ok(Previous(after.value, s)))
  }

  lemma {:induction false} AllProjectIff(plan: Plan, h: string -> string, t: Tables, s: Stream, log: seq<Event>,
                                         events: seq<Event>)
    requires IsDigest(h) && s.kind == Kind(plan.service) && Fold(plan, log) == Ok(Previous(t, s))
    requires DecodeStreamId(s.id).Some?
    ensures Follows(plan, s, log, events, ProjectAll(plan, h, t, s, events))
  {
    if events == [] {
      NoneFollows(plan, h, t, s, log);
    } else {
      var init, e := events[..|events| - 1], events[|events| - 1];
      InitAndLast(events);
      AllProjectIff(plan, h, t, s, log, init);
      NextFollows(plan, h, t, s, log, init, e);
    }
  }

  lemma NoneFollows(plan: Plan, h: string -> string, t: Tables, s: Stream, log: seq<Event>)
    requires IsDigest(h) && Fold(plan, log) == Ok(Previous(t, s)) && DecodeStreamId(s.id).Some?
    ensures Follows(plan, s, log, [], ProjectAll(plan, h, t, s, []))
  {
    assert log + [] == log;
  }

  lemma NextFollows(plan: Plan, h: string -> string, t: Tables, s: Stream, log: seq<Event>, init: seq<Event>, e: Event)
    requires IsDigest(h) && s.kind == Kind(plan.service)
    requires Follows(plan, s, log, init, ProjectAll(plan, h, t, s, init))
    ensures Follows(plan, s, log, init + [e], ProjectAll(plan, h, t, s, init + [e]))
  {
    ProjectAllSnoc(plan, h, t, s, init, e);
    FollowsOneMore(plan, h, s, log, init, e, ProjectAll(plan, h, t, s, init));
  }

  lemma FollowsOneMore(plan: Plan, h: string -> string, s: Stream, log: seq<Event>, init: seq<Event>, e: Event,
                       before: Option<Tables>)
    requires IsDigest(h) && s.kind == Kind(plan.service) && Follows(plan, s, log, init, before)
    ensures Follows(plan, s, log, init + [e], if before.None? then None else Project(plan, h, before.value, s, e))
  {
    if before.Some? {
      OneMoreProjects(plan, h, before.value, s, log, init, e);
    } else {
      MayFollowSnoc(plan, s, log, init, e);
    }
  }

  lemma OneMoreProjects(plan: Plan, h: string -> string, before: Tables, s: Stream, log: seq<Event>,
                        init: seq<Event>, e: Event)
    requires IsDigest(h) && s.kind == Kind(plan.service) && MayFollow(plan, s, log, init)
    requires Fold(plan, log + init) == Ok(Previous(before, s))
    ensures Project(plan, h, before, s, e).Some? <==> MayFollow(plan, s, log, init + [e])
    ensures Project(plan, h, before, s, e).Some? ==>
      Fold(plan, log + (init + [e])) == Ok(Previous(Project(plan, h, before, s, e).value, s))
  {
    MayFollowSnoc(plan, s, log, init, e);
    ProjectsIff(plan, h, before, s, log + init, e);
    assert log + (init + [e]) == (log + init) + [e];
  }

  lemma {:induction false} UnreadableNeverProjects(plan: Plan, h: string -> string, t: Tables, s: Stream,
                                                   events: seq<Event>)
    requires IsDigest(h) && s.kind == Kind(plan.service) && DecodeStreamId(s.id).None? && events != []
    ensures ProjectAll(plan, h, t, s, events).None?
  {
  }

  /** On every reachable store a batch commits exactly when it is committable. */
  lemma CommitsIff(plan: Plan, h: string -> string, batches: seq<Batch>, s: Stream, expected: nat, events: seq<Event>)
    requires IsDigest(h)
    ensures var db := RunBatches(plan, h, batches);
      Commit(plan, h, db, s, expected, events).Some? <==> Committable(plan, db, s, expected, events)
  {
    var db := RunBatches(plan, h, batches);
    if events != [] && |Log(db.streams, s)| == expected {
      if s.kind == Kind(plan.service) {
        AuthorizationStateIsFold(plan, h, batches, s);
        if DecodeStreamId(s.id).None? { UnreadableNeverProjects(plan, h, db.tables, s, events); }
        else { AllProjectIff(plan, h, db.tables, s, Log(db.streams, s), events); }
      } else {
        OthersAlwaysProject(plan, h, db.tables, s, events);
      }
    }
  }

  lemma {:induction false} OthersAlwaysProject(plan: Plan, h: string -> string, t: Tables, s: Stream,
                                               events: seq<Event>)
    requires IsDigest(h) && s.kind != Kind(plan.service)
    ensures ProjectAll(plan, h, t, s, events) == Some(t)
  {
    if events != [] { OthersAlwaysProject(plan, h, t, s, events[..|events| - 1]); }
  }

  // ---- which entities have a row ----

  /** A hide rule applies: its parent kind has an instance in a terminal state. */
  ghost predicate Hides(rule: HideRule, state: State) {
    exists kind, k :: rule.parent == Some(kind) && EntityIn(state, kind, k).Some?
      && EntityIn(state, kind, k).value.state in rule.terminalStates
  }

  /** The entity exists, no rule hides it, and a live view can read owner and scopes from the parent. */
  ghost predicate HasRow(plan: Plan, state: State, v: string, id: string) {
    && v in plan.views && EntityIn(state, plan.views[v].source, id).Some?
    && (forall i :: 0 <= i < |plan.views[v].hide| ==> !Hides(plan.views[v].hide[i], state))
    && (plan.views[v].live.Some? ==>
          plan.views[v].live.value.binding.Some? && ParentReady(state, plan.views[v].live.value.binding.value))
  }

  lemma HidesIff(rule: HideRule, state: State)
    ensures HiddenBy(rule, state) <==> Hides(rule, state)
  {
    if HiddenBy(rule, state) {
      var kind := rule.parent.value;
      var k :| k in state[kind] && state[kind][k].state in rule.terminalStates;
      assert EntityIn(state, kind, k).Some?;
    }
  }

  lemma ValueExistsIff(view: View, state: State, entity: Entity)
    ensures RowValue(view, state, entity).Some? <==>
      (view.live.Some? ==> view.live.value.binding.Some? && ParentReady(state, view.live.value.binding.value))
  {
    if view.live.Some? && view.live.value.binding.Some? {
      var i := view.live.value.binding.value;
      var parent := FirstOf(state, i.parent);
      if parent.Some? {
        var k :| IsLeast(state[i.parent].Keys, k) && parent.value == state[i.parent][k];
        forall j | IsLeast(state[i.parent].Keys, j) ensures j == k { LeastParent(state[i.parent], j, k); }
      }
    }
  }

  lemma ShownIff(plan: Plan, state: State, v: string, id: string)
    ensures Shown(plan, state, v, id) <==> HasRow(plan, state, v, id)
  {
    if v in plan.views {
      var view := plan.views[v];
      forall i | 0 <= i < |view.hide| ensures HiddenBy(view.hide[i], state) <==> Hides(view.hide[i], state) {
        HidesIff(view.hide[i], state);
      }
      if EntityIn(state, view.source, id).Some? { ValueExistsIff(view, state, state[view.source][id]); }
    }
  }

  // ---- what a row shows ----

  /** The view shows this field of the entity: its lifecycle state, or a field that is not an optional null. */
  predicate ShowsField(view: View, entity: Entity, field: string) {
    && field in view.fields
    && (field == "state" || (field in entity.fields && !(field in view.optionalFields && entity.fields[field].Null?)))
  }

  /** The value a row gives a field; the live owner and scopes come from the parent as it is now. */
  ghost predicate Cell(view: View, state: State, entity: Entity, field: string, value: Value) {
    if view.live.Some? && view.live.value.binding.Some?
       && (field == view.live.value.binding.value.childOwner || field == view.live.value.binding.value.childScopes)
    then InheritedFrom(state, view.live.value.binding.value, field, value)
    else ShowsField(view, entity, field)
         && value == if field == "state" then Str(entity.state) else entity.fields[field]
  }

  lemma RowShows(view: View, state: State, entity: Entity, field: string)
    requires RowValue(view, state, entity).Some?
    ensures var row := RowValue(view, state, entity).value;
      && (field in row ==> Cell(view, state, entity, field, row[field]))
      && (ShowsField(view, entity, field) ==> field in row)
      && (view.live.Some? ==> view.live.value.binding.value.childOwner in row
                              && view.live.value.binding.value.childScopes in row)
  {
    if view.live.Some? {
      var i := view.live.value.binding.value;
      var k :| IsLeast(state[i.parent].Keys, k) && First(state[i.parent]).value == state[i.parent][k];
      var row := RowValue(view, state, entity).value;
      if field == i.childOwner || field == i.childScopes {
        assert InheritedFrom(state, i, field, row[field]);
      }
    }
  }

  /**
  On every reachable store, an entity of a committed stream has a row in the table exactly when it exists
  in the stream's fold, is not hidden and its live parent is readable; the row shows that entity.
  */
  lemma TableShows(plan: Plan, h: string -> string, batches: seq<Batch>, s: Stream, v: string, id: string)
    requires IsDigest(h) && s.kind == Kind(plan.service) && s in RunBatches(plan, h, batches).streams
    ensures var db := RunBatches(plan, h, batches);
      && DecodeStreamId(s.id).Some? && Fold(plan, db.streams[s]).Ok?
      && var w, state := DecodeStreamId(s.id).value, Fold(plan, db.streams[s]).value;
      && var k := (s.tenant, RowKey(h, plan.service, w.0, v, s.id, id));
      && (k in db.tables.rows <==> HasRow(plan, state, v, id))
      && (k in db.tables.rows ==>
            && RowValue(plan.views[v], state, state[plan.views[v].source][id]).Some?
            && db.tables.rows[k] == Row(v, s.tenant, w.0, w.1, w.2,
                                        RowValue(plan.views[v], state, state[plan.views[v].source][id]).value))
  {
    var db := RunBatches(plan, h, batches);
    RunKeepsAgreement(plan, h, batches);
    var w, state := DecodeStreamId(s.id).value, Fold(plan, db.streams[s]).value;
    ShownIff(plan, state, v, id);
    RowUnderKey(plan, h, db, s, w, state, v, id);
  }

  /** Every cell of such a row, and every field the view must show, is as the entity has it. */
  lemma TableCells(plan: Plan, h: string -> string, batches: seq<Batch>, s: Stream, v: string, id: string,
                   field: string)
    requires IsDigest(h) && s.kind == Kind(plan.service) && s in RunBatches(plan, h, batches).streams
    requires var db := RunBatches(plan, h, batches);
      && DecodeStreamId(s.id).Some?
      && (s.tenant, RowKey(h, plan.service, DecodeStreamId(s.id).value.0, v, s.id, id)) in db.tables.rows
    ensures var db := RunBatches(plan, h, batches);
      var row := db.tables.rows[(s.tenant, RowKey(h, plan.service, DecodeStreamId(s.id).value.0, v, s.id, id))].value;
      && Fold(plan, db.streams[s]).Ok? && v in plan.views
      && var state := Fold(plan, db.streams[s]).value;
      && var entity := EntityIn(state, plan.views[v].source, id);
      && entity.Some? && (field in row ==> Cell(plan.views[v], state, entity.value, field, row[field]))
      && (ShowsField(plan.views[v], entity.value, field) ==> field in row)
  {
    TableShows(plan, h, batches, s, v, id);
    var state := Fold(plan, RunBatches(plan, h, batches).streams[s]).value;
    RowShows(plan.views[v], state, state[plan.views[v].source][id], field);
  }

  lemma RowUnderKey(plan: Plan, h: string -> string, db: Db, s: Stream, w: Address, state: State, v: string, id: string)
    requires IsDigest(h) && Agrees(plan, h, db) && s in db.streams && s.kind == Kind(plan.service)
    requires DecodeStreamId(s.id) == Some(w) && Fold(plan, db.streams[s]) == Ok(state)
    ensures var k := (s.tenant, RowKey(h, plan.service, w.0, v, s.id, id));
      && (k in db.tables.rows <==> Shown(plan, state, v, id))
      && (k in db.tables.rows ==> db.tables.rows[k] == RowAt(plan, s, w, state, (v, id)))
  {
    var k := (s.tenant, KeyAt(plan, h, s, w, (v, id)));
    OwnPart(plan, h, db, s, v, id, w);
    assert Recomputed(plan, h, s, db.streams[s]) == RowsOf(plan, h, s, w, state);
    RowInPart(plan, h, s, w, state, v, id);
  }

  /** The rows of one stream, at the key of one coordinate. */
  lemma RowInPart(plan: Plan, h: string -> string, s: Stream, w: Address, state: State, v: string, id: string)
    requires IsDigest(h)
    ensures var k := (s.tenant, KeyAt(plan, h, s, w, (v, id)));
      && (k in RowsOf(plan, h, s, w, state) <==> Shown(plan, state, v, id))
      && (k in RowsOf(plan, h, s, w, state) ==> RowsOf(plan, h, s, w, state)[k] == RowAt(plan, s, w, state, (v, id)))
  {
    var k := (s.tenant, KeyAt(plan, h, s, w, (v, id)));
    if k in KeysOf(plan, h, s, w, state) {
      var at := Locate(plan, h, s, w, state, k);
      RowKeyInjective(h, plan.service, w.0, v, s.id, id, w.0, at.0, s.id, at.1);
      assert at == (v, id);
    }
    if Shown(plan, state, v, id) { assert (v, id) in Coordinates(plan, state); }
  }

  /** At a key spelled for a stream, the table is that stream's own part. */
  lemma OwnPart(plan: Plan, h: string -> string, db: Db, s: Stream, v: string, id: string, w: Address)
    requires IsDigest(h) && Agrees(plan, h, db) && s in db.streams && s.kind == Kind(plan.service)
    ensures var k, part := (s.tenant, KeyAt(plan, h, s, w, (v, id))), Recomputed(plan, h, s, db.streams[s]);
      (k in db.tables.rows <==> k in part) && (k in part ==> db.tables.rows[k] == part[k])
  {
    var parts, k := AllRecomputed(plan, h, db.streams), (s.tenant, KeyAt(plan, h, s, w, (v, id)));
    forall o | o in db.streams && k in Recomputed(plan, h, o, db.streams[o]) ensures o == s {
      KeyBelongs(plan, h, db, s, w, v, id, o);
    }
    OnePart(parts, db.tables.rows, s, k);
  }

  lemma OnePart(parts: Parts, rows: map<Id, Row>, s: Stream, k: Id)
    requires IsUnion(parts, rows) && s in parts && forall o :: o in parts && k in parts[o] ==> o == s
    ensures (k in rows <==> k in parts[s]) && (k in parts[s] ==> rows[k] == parts[s][k])
  {
  }

  /** A key spelled for a stream is in no other stream's part of the table. */
  lemma KeyBelongs(plan: Plan, h: string -> string, db: Db, s: Stream, w: Address, v: string, id: string, o: Stream)
    requires IsDigest(h) && o in db.streams && s.kind == Kind(plan.service)
    requires (s.tenant, KeyAt(plan, h, s, w, (v, id))) in Recomputed(plan, h, o, db.streams[o])
    ensures o == s
  {
    var k := (s.tenant, KeyAt(plan, h, s, w, (v, id)));
    var w', state' := DecodeStreamId(o.id).value, Fold(plan, db.streams[o]).value;
    var at := Locate(plan, h, o, w', state', k);
    RowKeyInjective(h, plan.service, w.0, v, s.id, id, w'.0, at.0, o.id, at.1);
  }
}
