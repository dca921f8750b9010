/**
What a history does to one entity, said about the whole history and not about one reduction: who created
it, who last set each field, who last moved it; and what the projected row of an entity shows.
*/
module ProjectionLaws {
  import opened Text
  import opened JsonNumbers
  import opened Projection

  /** The event is about this entity: its reducer is for the kind and its identity field holds the id. */
  predicate About(plan: Plan, e: Event, kind: string, id: string) {
    && e.name in plan.reducers && e.data.Object?
    && plan.reducers[e.name].entity == kind
    && plan.reducers[e.name].identityField in e.data.members
    && e.data.members[plan.reducers[e.name].identityField] == Str(id)
  }

  predicate Creates(plan: Plan, e: Event, kind: string, id: string) {
    About(plan, e, kind, id) && plan.reducers[e.name].effect.Create?
  }

  predicate Updates(plan: Plan, e: Event, kind: string, id: string) {
    About(plan, e, kind, id) && plan.reducers[e.name].effect.Update?
  }

  predicate Moves(plan: Plan, e: Event, kind: string, id: string) {
    About(plan, e, kind, id) && plan.reducers[e.name].effect.Move?
  }

  /** The reducer lists the field and the event carries it. */
  predicate Brings(plan: Plan, e: Event, field: string) {
    e.name in plan.reducers && e.data.Object? && field in plan.reducers[e.name].fields && field in e.data.members
  }

  /** A creation also sets the identity field and, when it inherits, the child's owner and scopes. */
  predicate Implies(r: Reducer, field: string) {
    field == r.identityField
    || (r.inherit.Some? && (field == r.inherit.value.childOwner || field == r.inherit.value.childScopes))
  }

  /** The event sets this field of this entity. */
  predicate Sets(plan: Plan, e: Event, kind: string, id: string, field: string) {
    || (Creates(plan, e, kind, id) && (Implies(plan.reducers[e.name], field) || Brings(plan, e, field)))
    || (Updates(plan, e, kind, id) && Brings(plan, e, field))
  }

  /** The parent's owner or scopes as they were before the event. */
  ghost predicate InheritedFrom(before: State, i: Inherit, field: string, value: Value) {
    exists parent :: (
      && i.parent in before && parent in before[i.parent] && IsLeast(before[i.parent].Keys, parent)
      && var source := if field == i.childScopes then i.parentScopes else i.parentOwner;
      source in before[i.parent][parent].fields && value == before[i.parent][parent].fields[source])
  }

  /** The value that an event sets, given the state before it. */
  ghost predicate SetsTo(plan: Plan, before: State, e: Event, id: string, field: string, value: Value)
    requires e.name in plan.reducers && e.data.Object?
  {
    var r := plan.reducers[e.name];
    if r.effect.Create? && field == r.identityField then value == Str(id)
    else if r.effect.Create? && Implies(r, field) then InheritedFrom(before, r.inherit.value, field, value)
    else field in e.data.members && value == e.data.members[field]
  }

  function EntityIn(state: State, kind: string, id: string): Option<Entity> {
    if kind in state && id in state[kind] then Some(state[kind][id]) else None
  }

  // ---- one event ----

  /** An event changes no entity but the one it is about. */
  lemma OtherEntitiesStay(plan: Plan, state: State, e: Event, kind: string, id: string)
    requires Reduce(plan, state, e).Ok? && !About(plan, e, kind, id)
    ensures EntityIn(Reduce(plan, state, e).value, kind, id) == EntityIn(state, kind, id)
  {
  }

  /** A creation needs a new identity and starts in its initial state. */
  lemma CreationIs(plan: Plan, state: State, e: Event, kind: string, id: string)
    requires Reduce(plan, state, e).Ok? && Creates(plan, e, kind, id)
    ensures var x := EntityIn(Reduce(plan, state, e).value, kind, id);
      && EntityIn(state, kind, id).None? && x.Some?
      && x.value.state == plan.reducers[e.name].effect.initialState
  {
  }

  lemma CreationSets(plan: Plan, state: State, e: Event, kind: string, id: string, field: string)
    requires Reduce(plan, state, e).Ok? && Creates(plan, e, kind, id)
    requires EntityIn(Reduce(plan, state, e).value, kind, id).Some?
    ensures var fields := EntityIn(Reduce(plan, state, e).value, kind, id).value.fields;
      && (field in fields <==> Sets(plan, e, kind, id, field))
      && (field in fields ==> SetsTo(plan, state, e, id, field, fields[field]))
  {
    var r := plan.reducers[e.name];
    var inherited := Inherited(r, state).value;
    var fields := CreatedFields(r, e.data.members, inherited, id);
    assert EntityIn(Reduce(plan, state, e).value, kind, id).value.fields == fields;
    if r.inherit.Some? && field != r.identityField && Implies(r, field) {
      var i := r.inherit.value;
      var parent :| IsLeast(state[i.parent].Keys, parent) && First(state[i.parent]).value == state[i.parent][parent];
      assert InheritedFrom(state, i, field, fields[field]);
    }
  }

  /** An update needs the entity, keeps its lifecycle state, and sets what it brings over the old value. */
  lemma UpdateIs(plan: Plan, state: State, e: Event, kind: string, id: string, field: string)
    requires Reduce(plan, state, e).Ok? && Updates(plan, e, kind, id)
    ensures var prior, x := EntityIn(state, kind, id), EntityIn(Reduce(plan, state, e).value, kind, id);
      && prior.Some? && x.Some? && x.value.state == prior.value.state
      && (field in x.value.fields <==> Brings(plan, e, field) || field in prior.value.fields)
      && (Brings(plan, e, field) ==> x.value.fields[field] == e.data.members[field])
      && (!Brings(plan, e, field) && field in prior.value.fields ==> x.value.fields[field] == prior.value.fields[field])
  {
  }

  /** A move needs the entity in one of its source states and changes nothing but that state. */
  lemma MoveIs(plan: Plan, state: State, e: Event, kind: string, id: string)
    requires Reduce(plan, state, e).Ok? && Moves(plan, e, kind, id)
    ensures var prior, x := EntityIn(state, kind, id), EntityIn(Reduce(plan, state, e).value, kind, id);
      && prior.Some? && x.Some? && prior.value.state in plan.reducers[e.name].effect.from
      && x.value == prior.value.(state := plan.reducers[e.name].effect.to)
  {
  }

  /** An event that reduces is about some entity of its reducer's kind. */
  lemma EveryEventIsAbout(plan: Plan, state: State, e: Event)
    requires Reduce(plan, state, e).Ok?
    ensures e.name in plan.reducers && exists id :: About(plan, e, plan.reducers[e.name].entity, id)
  {
    assert About(plan, e, plan.reducers[e.name].entity, Located(plan, e).value.1);
  }

  // ---- whole histories ----

  /** The last event that sets the field. */
  predicate LastSets(plan: Plan, events: seq<Event>, kind: string, id: string, field: string, i: nat) {
    && i < |events| && Sets(plan, events[i], kind, id, field)
    && forall j :: i < j < |events| ==> !Sets(plan, events[j], kind, id, field)
  }

  /** The last event that creates or moves the entity. */
  predicate LastMoves(plan: Plan, events: seq<Event>, kind: string, id: string, i: nat) {
    && i < |events| && (Creates(plan, events[i], kind, id) || Moves(plan, events[i], kind, id))
    && forall j :: i < j < |events| ==> !Creates(plan, events[j], kind, id) && !Moves(plan, events[j], kind, id)
  }

  lemma {:induction false} PrefixFolds(plan: Plan, events: seq<Event>, n: nat)
    requires n <= |events| && Fold(plan, events).Ok?
    ensures Fold(plan, events[..n]).Ok?
  {
    if Fold(plan, events[..n]).Err? { FoldFails(plan, events, n); }
  }

  lemma FoldLast(plan: Plan, events: seq<Event>)
    requires events != [] && Fold(plan, events).Ok?
    ensures Fold(plan, events[..|events| - 1]).Ok?
    ensures Fold(plan, events) == Reduce(plan, Fold(plan, events[..|events| - 1]).value, events[|events| - 1])
  {
  }

  /** An entity exists exactly when an event of the history created it. */
  lemma {:induction false} ExistsIffCreated(plan: Plan, events: seq<Event>, kind: string, id: string)
    requires Fold(plan, events).Ok?
    ensures EntityIn(Fold(plan, events).value, kind, id).Some? <==>
      exists i :: 0 <= i < |events| && Creates(plan, events[i], kind, id)
  {
    if events != [] {
      var n := |events| - 1;
      var init, e := events[..n], events[n];
      FoldLast(plan, events);
      ExistsIffCreated(plan, init, kind, id);
      var before := Fold(plan, init).value;
      assert forall i :: 0 <= i < n ==> init[i] == events[i];
      if !About(plan, e, kind, id) { OtherEntitiesStay(plan, before, e, kind, id); }
      else if Creates(plan, e, kind, id) { CreationIs(plan, before, e, kind, id); }
      else if Updates(plan, e, kind, id) { UpdateIs(plan, before, e, kind, id, ""); }
      else { MoveIs(plan, before, e, kind, id); }
    }
  }

  /** Event `i` is the last that created or moved the entity, and this is the state it left. */
  ghost predicate StateSetAt(plan: Plan, events: seq<Event>, kind: string, id: string, state: string, i: nat) {
    && LastMoves(plan, events, kind, id, i)
    && var effect := plan.reducers[events[i].name].effect;
    state == if effect.Create? then effect.initialState else effect.to
  }

  /** The lifecycle state is that of the last event that created or moved the entity. */
  lemma {:induction false} StateLaw(plan: Plan, events: seq<Event>, kind: string, id: string) returns (i: nat)
    requires Fold(plan, events).Ok? && EntityIn(Fold(plan, events).value, kind, id).Some?
    ensures StateSetAt(plan, events, kind, id, EntityIn(Fold(plan, events).value, kind, id).value.state, i)
  {
    var n := |events| - 1;
    var init, e := events[..n], events[n];
    FoldLast(plan, events);
    var before := Fold(plan, init).value;
    if Creates(plan, e, kind, id) {
      CreationIs(plan, before, e, kind, id);
      i := n;
    } else if Moves(plan, e, kind, id) {
      MoveIs(plan, before, e, kind, id);
      i := n;
    } else {
      if About(plan, e, kind, id) { UpdateIs(plan, before, e, kind, id, ""); }
      else { OtherEntitiesStay(plan, before, e, kind, id); }
      i := StateLaw(plan, init, kind, id);
      assert init[i] == events[i] && forall j :: 0 <= j < n ==> init[j] == events[j];
    }
  }

  /** What one event leaves in a field: what it sets, or what was there. */
  lemma FieldStep(plan: Plan, before: State, e: Event, kind: string, id: string, field: string)
    requires Reduce(plan, before, e).Ok? && EntityIn(Reduce(plan, before, e).value, kind, id).Some?
    ensures var x := EntityIn(Reduce(plan, before, e).value, kind, id).value;
      && (Sets(plan, e, kind, id, field) ==> field in x.fields && SetsTo(plan, before, e, id, field, x.fields[field]))
      && (!Sets(plan, e, kind, id, field) ==>
            && (field in x.fields ==> EntityIn(before, kind, id).Some?)
            && (EntityIn(before, kind, id).Some? ==>
                  (field in x.fields <==> field in EntityIn(before, kind, id).value.fields))
            && (field in x.fields ==> x.fields[field] == EntityIn(before, kind, id).value.fields[field]))
  {
    if !About(plan, e, kind, id) { OtherEntitiesStay(plan, before, e, kind, id); }
    else if Creates(plan, e, kind, id) {
      CreationIs(plan, before, e, kind, id);
      CreationSets(plan, before, e, kind, id, field);
    }
    else if Updates(plan, e, kind, id) { UpdateIs(plan, before, e, kind, id, field); }
    else { MoveIs(plan, before, e, kind, id); }
  }

  /** Event `i` is the last that sets the field, and this is the value it sets. */
  ghost predicate FieldSetAt(plan: Plan, events: seq<Event>, kind: string, id: string, field: string, value: Value,
                             i: nat) {
    && LastSets(plan, events, kind, id, field, i) && Fold(plan, events[..i]).Ok?
    && SetsTo(plan, Fold(plan, events[..i]).value, events[i], id, field, value)
  }

  lemma FieldSetBefore(plan: Plan, events: seq<Event>, kind: string, id: string, field: string, value: Value, i: nat)
    requires events != [] && !Sets(plan, events[|events| - 1], kind, id, field)
    requires FieldSetAt(plan, events[..|events| - 1], kind, id, field, value, i)
    ensures FieldSetAt(plan, events, kind, id, field, value, i)
  {
    var init := events[..|events| - 1];
    assert init[..i] == events[..i] && init[i] == events[i];
    assert forall j :: 0 <= j < |init| ==> init[j] == events[j];
  }

  /**
  Last writer wins: the value of a field is the one that the last event to set it has set. Creations set
  the identity field and the inherited owner and scopes besides what they bring.
  */
  lemma {:induction false} FieldLaw(plan: Plan, events: seq<Event>, kind: string, id: string, field: string)
    returns (i: nat)
    requires Fold(plan, events).Ok? && EntityIn(Fold(plan, events).value, kind, id).Some?
    requires field in EntityIn(Fold(plan, events).value, kind, id).value.fields
    ensures var x := EntityIn(Fold(plan, events).value, kind, id).value;
      FieldSetAt(plan, events, kind, id, field, x.fields[field], i)
  {
    var n := |events| - 1;
    var init, e := events[..n], events[n];
    FoldLast(plan, events);
    var before := Fold(plan, init).value;
    FieldStep(plan, before, e, kind, id, field);
    if Sets(plan, e, kind, id, field) {
      i := n;
    } else {
      i := FieldLaw(plan, init, kind, id, field);
      FieldSetBefore(plan, events, kind, id, field, EntityIn(before, kind, id).value.fields[field], i);
    }
  }

  /** A field that some event set is there. */
  lemma {:induction false} SetFieldIsThere(plan: Plan, events: seq<Event>, kind: string, id: string, field: string,
                                           i: nat)
    requires Fold(plan, events).Ok? && i < |events| && Sets(plan, events[i], kind, id, field)
    ensures EntityIn(Fold(plan, events).value, kind, id).Some?
    ensures field in EntityIn(Fold(plan, events).value, kind, id).value.fields
  {
    var n := |events| - 1;
    var init, e := events[..n], events[n];
    FoldLast(plan, events);
    var before := Fold(plan, init).value;
    if i < n {
      assert init[i] == events[i];
      SetFieldIsThere(plan, init, kind, id, field, i);
    }
    StaysThere(plan, before, e, kind, id);
    FieldStep(plan, before, e, kind, id, field);
  }

  /** No event removes an entity, and the entity an event is about is there afterwards. */
  lemma StaysThere(plan: Plan, before: State, e: Event, kind: string, id: string)
    requires Reduce(plan, before, e).Ok?
    ensures EntityIn(before, kind, id).Some? || About(plan, e, kind, id) ==>
      EntityIn(Reduce(plan, before, e).value, kind, id).Some?
  {
    if !About(plan, e, kind, id) { OtherEntitiesStay(plan, before, e, kind, id); }
    else if Creates(plan, e, kind, id) { CreationIs(plan, before, e, kind, id); }
    else if Updates(plan, e, kind, id) { UpdateIs(plan, before, e, kind, id, ""); }
    else { MoveIs(plan, before, e, kind, id); }
  }
}
