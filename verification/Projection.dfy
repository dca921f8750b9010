/** Event reduction, the inline projector, and the tables it keeps inside the append transaction. */
module Projection {
  import opened Text
  import opened Codecs
  import opened JsonNumbers

  datatype Result<+T> = Ok(value: T) | Err(error: Error)
  datatype Error = UnknownEvent | InvalidEvent | InvalidInput | InvalidHistory | ParentNotFound | WrongState

  datatype Inherit = Inherit(
    parent: string, parentOwner: string, parentScopes: string, childOwner: string, childScopes: string)
  datatype ReducerEffect = Create(initialState: string) | Update | Move(from: set<string>, to: string)
  datatype Reducer = Reducer(
    entity: string, identityField: string, fields: set<string>, inherit: Option<Inherit>, effect: ReducerEffect)

  datatype HideRule = HideRule(parent: Option<string>, terminalStates: set<string>)

  /** Live inheritance of a view; a missing binding hides every row. */
  datatype LiveInherit = LiveInherit(binding: Option<Inherit>)
  datatype View = View(
    source: string, fields: set<string>, optionalFields: set<string>, hide: seq<HideRule>, live: Option<LiveInherit>)
  datatype Plan = Plan(service: string, reducers: map<string, Reducer>, views: map<string, View>)

  datatype Entity = Entity(state: string, fields: map<string, Value>)
  type State = map<string, map<string, Entity>>

  /** A stored event; its body must be an object to drive a projection. */
  datatype Event = Event(name: string, data: Value, redacted: bool)

  // ---- reduction ----

  /** `instances.values().next()`: the entity with the least key. */
  function First(instances: map<string, Entity>): (r: Option<Entity>)
    ensures r.None? <==> instances == map[]
    ensures r.Some? ==> exists k :: IsLeast(instances.Keys, k) && r.value == instances[k]
  {
    if instances == map[] then None
    else
      assert exists k :: IsLeast(instances.Keys, k) by {
        var some :| some in instances;
        assert some in instances.Keys;
        var least := LeastKey(instances.Keys);
      }
      assert forall a, b :: IsLeast(instances.Keys, a) && IsLeast(instances.Keys, b) ==> a == b by {
        forall a, b | IsLeast(instances.Keys, a) && IsLeast(instances.Keys, b) ensures a == b {
          LeastKeyUnique(instances.Keys, a, b);
        }
      }
      var k :| k in instances.Keys && IsLeast(instances.Keys, k);
      Some(instances[k])
  }

  function FirstOf(state: State, entity: string): Option<Entity> {
    if entity in state then First(state[entity]) else None
  }

  function EventFields(reducer: Reducer, fields: map<string, Value>): map<string, Value> {
    map f | f in reducer.fields && f in fields :: fields[f]
  }

  /** Owner and scopes copied from the parent when the reducer inherits. */
  function Inherited(reducer: Reducer, state: State): Result<Option<(Value, Value)>> {
    match reducer.inherit
    case None => Ok(None)
    case Some(i) =>
      match FirstOf(state, i.parent)
      case None => Err(ParentNotFound)
      case Some(parent) =>
        if i.parentOwner !in parent.fields || i.parentScopes !in parent.fields then Err(InvalidEvent)
        else Ok(Some((parent.fields[i.parentOwner], parent.fields[i.parentScopes])))
  }

  function CreatedFields(reducer: Reducer, fields: map<string, Value>, inherited: Option<(Value, Value)>,
                         identity: string): map<string, Value> {
    var own := EventFields(reducer, fields);
    var all := if reducer.inherit.Some? && inherited.Some?
      then
        var i := reducer.inherit.value;
        own[i.childOwner := inherited.value.0][i.childScopes := inherited.value.1]
      else own;
    all[reducer.identityField := Str(identity)]
  }

  function Instances(state: State, entity: string): map<string, Entity> {
    if entity in state then state[entity] else map[]
  }

  /** The entity written by one reducer, given the instances of its kind. */
  function Written(reducer: Reducer, fields: map<string, Value>, inherited: Option<(Value, Value)>, identity: string,
                   instances: map<string, Entity>): Result<Entity> {
    match reducer.effect
    case Create(initial) =>
      if identity in instances then Err(InvalidEvent)
      else Ok(Entity(initial, CreatedFields(reducer, fields, inherited, identity)))
    case Update =>
      if identity !in instances then Err(InvalidEvent)
      else Ok(instances[identity].(fields := instances[identity].fields + EventFields(reducer, fields)))
    case Move(from, to) =>
      if identity !in instances then Err(InvalidEvent)
      else if instances[identity].state !in from then Err(WrongState)
      else Ok(instances[identity].(state := to))
  }

  /** Reducer and identity named by an event. */
  function Located(plan: Plan, event: Event): Result<(Reducer, string)> {
    if !event.data.Object? then Err(InvalidEvent)
    else if event.name !in plan.reducers then Err(UnknownEvent)
    else
      var reducer := plan.reducers[event.name];
      if reducer.identityField !in event.data.members then Err(InvalidEvent)
      else if !event.data.members[reducer.identityField].Str? then Err(InvalidInput)
      else Ok((reducer, event.data.members[reducer.identityField].s))
  }

  /** The meaning of one event: the next state, or a refusal. */
  function Reduce(plan: Plan, state: State, event: Event): Result<State> {
    match Located(plan, event)
    case Err(e) => Err(e)
    case Ok((reducer, identity)) =>
      match Inherited(reducer, state)
      case Err(e) => Err(e)
      case Ok(inherited) =>
        var instances := Instances(state, reducer.entity);
        match Written(reducer, event.data.members, inherited, identity, instances)
        case Err(e) => Err(e)
        case Ok(entity) => Ok(state[reducer.entity := instances[identity := entity]])
  }

  function Fold(plan: Plan, events: seq<Event>): Result<State> {
    if events == [] then Ok(map[])
    else
      match Fold(plan, events[..|events| - 1])
      case Err(e) => Err(e)
      case Ok(state) => Reduce(plan, state, events[|events| - 1])
  }

  /** The mutable `ProjectionState` that `reduce` works on. */
  class ProjectionState {
    var entities: State

    constructor ()
      ensures entities == map[]
    {
      entities := map[];
    }

    /** `reduce`: on success the new state is the event's meaning; callers drop a failed state. */
    method Apply(plan: Plan, event: Event) returns (r: Result<()>)
      modifies this
      ensures r.Ok? <==> Reduce(plan, old(entities), event).Ok?
      ensures r.Ok? ==> Reduce(plan, old(entities), event) == Ok(entities)
      ensures r.Err? ==> Reduce(plan, old(entities), event) == Err(r.error)
      ensures r.Err? ==> forall e :: e in old(entities) ==> e in entities && entities[e] == old(entities)[e]
    {
      var located := Located(plan, event);
      if located.Err? {
        return Err(located.error);
      }
      var (reducer, identity) := located.value;
      var inherited: Option<(Value, Value)> := None;
      if reducer.inherit.Some? {
        var i := reducer.inherit.value;
        var parent: Option<Entity> := None;
        if i.parent in entities {
          parent := First(entities[i.parent]);
        }
        if parent.None? {
          return Err(ParentNotFound);
        }
        if i.parentOwner !in parent.value.fields || i.parentScopes !in parent.value.fields {
          return Err(InvalidEvent);
        }
        inherited := Some((parent.value.fields[i.parentOwner], parent.value.fields[i.parentScopes]));
      }
      ghost var before := entities;
      if reducer.entity !in entities {
        entities := entities[reducer.entity := map[]];
      }
      assert entities[reducer.entity] == Instances(before, reducer.entity);
      var written := Written(reducer, event.data.members, inherited, identity, entities[reducer.entity]);
      if written.Err? {
        return Err(written.error);
      }
      entities := entities[reducer.entity := entities[reducer.entity][identity := written.value]];
      assert entities == before[reducer.entity := Instances(before, reducer.entity)[identity := written.value]];
      r := Ok(());
    }
  }

  lemma {:induction false} FoldFails(plan: Plan, events: seq<Event>, n: nat)
    requires n <= |events| && Fold(plan, events[..n]).Err?
    ensures Fold(plan, events) == Fold(plan, events[..n])
    decreases |events| - n
  {
    if n == |events| {
      assert events[..n] == events;
    } else {
      assert events[..n + 1][..n] == events[..n];
      FoldFails(plan, events, n + 1);
    }
  }

  lemma FoldNext(plan: Plan, events: seq<Event>, n: nat)
    requires n < |events| && Fold(plan, events[..n]).Ok?
    ensures Fold(plan, events[..n + 1]) == Reduce(plan, Fold(plan, events[..n]).value, events[n])
  {
    assert events[..n + 1][..n] == events[..n];
  }

  datatype Loaded = Loaded(version: nat, events: seq<(nat, Event)>)

  ghost predicate Contiguous(history: Loaded) {
    && |history.events| == history.version
    && forall i :: 0 <= i < |history.events| ==> history.events[i].0 == i + 1
  }

  function Bodies(events: seq<(nat, Event)>): seq<Event> {
    seq(|events|, i requires 0 <= i < |events| => events[i].1)
  }

  /** `fold`: a gapless history has the meaning of its events, any other is refused. */
  method FoldHistory(plan: Plan, history: Loaded) returns (r: Result<State>)
    ensures r == if Contiguous(history) then Fold(plan, Bodies(history.events)) else Err(InvalidHistory)
  {
    var events := history.events;
    var last := if events == [] then 0 else events[|events| - 1].0;
    if last != history.version || exists i :: 0 <= i < |events| && events[i].0 != i + 1 {
      return Err(InvalidHistory);
    }
    var state := new ProjectionState();
    var bodies := Bodies(events);
    for i := 0 to |events|
      invariant Fold(plan, bodies[..i]) == Ok(state.entities)
    {
      var step := state.Apply(plan, events[i].1);
      FoldNext(plan, bodies, i);
      if step.Err? {
        FoldFails(plan, bodies, i + 1);
        return Err(step.error);
      }
    }
    assert bodies[..|events|] == bodies;
    r := Ok(state.entities);
  }

  // ---- projection rows ----

  predicate Hidden(view: View, state: State) {
    exists i :: 0 <= i < |view.hide| && HiddenBy(view.hide[i], state)
  }

  predicate HiddenBy(rule: HideRule, state: State) {
    && rule.parent.Some? && rule.parent.value in state
    && exists k :: k in state[rule.parent.value] && state[rule.parent.value][k].state in rule.terminalStates
  }

  function FieldValue(view: View, entity: Entity, field: string): Option<Value> {
    if field == "state" then Some(Str(entity.state))
    else if field !in entity.fields then None
    else if field in view.optionalFields && entity.fields[field].Null? then None
    else Some(entity.fields[field])
  }

  function PlainRow(view: View, entity: Entity): map<string, Value> {
    map f | f in view.fields && FieldValue(view, entity, f).Some? :: FieldValue(view, entity, f).value
  }

  /** The row shown for one entity; live inheritance fails closed. */
  function RowValue(view: View, state: State, entity: Entity): Option<map<string, Value>> {
    match view.live
    case None => Some(PlainRow(view, entity))
    case Some(LiveInherit(None)) => None
    case Some(LiveInherit(Some(i))) =>
      match FirstOf(state, i.parent)
      case None => None
      case Some(parent) =>
        if i.parentOwner !in parent.fields || i.parentScopes !in parent.fields then None
        else
          var owned := PlainRow(view, entity)[i.childOwner := parent.fields[i.parentOwner]];
          Some(owned[i.childScopes := parent.fields[i.parentScopes]])
  }

  datatype Row = Row(
    view: string, tenant: string, realm: Option<string>, category: string, key: string, value: map<string, Value>)

  predicate Shown(plan: Plan, state: State, view: string, entity: string) {
    && view in plan.views && !Hidden(plan.views[view], state)
    && plan.views[view].source in state && entity in state[plan.views[view].source]
    && RowValue(plan.views[view], state, state[plan.views[view].source][entity]).Some?
  }

  function Coordinates(plan: Plan, state: State): set<(string, string)> {
    set v, e |
      v in plan.views && plan.views[v].source in state && e in state[plan.views[v].source] && Shown(plan, state, v, e)
      :: (v, e)
  }

  datatype Stream = Stream(tenant: string, kind: string, id: string)

  function Kind(service: string): string { "generated-service:" + service }

  /** Realm, category and key of a stream identity. */
  type Address = (Option<string>, string, string)

  function RowAt(plan: Plan, s: Stream, w: Address, state: State, at: (string, string)): Row
    requires Shown(plan, state, at.0, at.1)
  {
    var view := plan.views[at.0];
    Row(at.0, s.tenant, w.0, w.1, w.2, RowValue(view, state, state[view.source][at.1]).value)
  }

  function KeyAt(plan: Plan, h: string -> string, s: Stream, w: Address, at: (string, string)): string {
    RowKey(h, plan.service, w.0, at.0, s.id, at.1)
  }

  function KeysOf(plan: Plan, h: string -> string, s: Stream, w: Address, state: State): set<(string, string)> {
    set at | at in Coordinates(plan, state) :: (s.tenant, KeyAt(plan, h, s, w, at))
  }

  /** View and entity behind a table key. */
  function Locate(plan: Plan, h: string -> string, s: Stream, w: Address, state: State,
                  k: (string, string)): (at: (string, string))
    requires IsDigest(h) && k in KeysOf(plan, h, s, w, state)
    ensures at in Coordinates(plan, state) && k == (s.tenant, KeyAt(plan, h, s, w, at))
  {
    KeysDistinct(plan, h, s, w, state);
    var at :| at in Coordinates(plan, state) && k == (s.tenant, KeyAt(plan, h, s, w, at));
    at
  }

  /** All rows of one stream, under their table keys, recomputed from a state. */
  function RowsOf(plan: Plan, h: string -> string, s: Stream, w: Address, state: State): map<(string, string), Row>
    requires IsDigest(h)
  {
    map k | k in KeysOf(plan, h, s, w, state) :: RowAt(plan, s, w, state, Locate(plan, h, s, w, state, k))
  }

  lemma KeysDistinct(plan: Plan, h: string -> string, s: Stream, w: Address, state: State)
    requires IsDigest(h)
    ensures forall x, y :: x in Coordinates(plan, state) && y in Coordinates(plan, state) ==>
      KeyAt(plan, h, s, w, x) == KeyAt(plan, h, s, w, y) ==> x == y
  {
    forall x, y | x in Coordinates(plan, state) && y in Coordinates(plan, state)
        && KeyAt(plan, h, s, w, x) == KeyAt(plan, h, s, w, y)
      ensures x == y
    {
      RowKeyInjective(h, plan.service, w.0, x.0, s.id, x.1, w.0, y.0, s.id, y.1);
    }
  }

  /** Rows of different streams never share a table key. */
  lemma RowsDisjoint(plan: Plan, h: string -> string, s: Stream, w: Address, a: State, s': Stream, w': Address,
                     b: State, k: (string, string))
    requires IsDigest(h) && k in RowsOf(plan, h, s, w, a) && k in RowsOf(plan, h, s', w', b)
    ensures s.tenant == s'.tenant && s.id == s'.id
  {
    var at := Locate(plan, h, s, w, a, k);
    var at' := Locate(plan, h, s', w', b, k);
    RowKeyInjective(h, plan.service, w.0, at.0, s.id, at.1, w'.0, at'.0, s'.id, at'.1);
  }

  lemma NoStateNoRows(plan: Plan, h: string -> string, s: Stream, w: Address)
    requires IsDigest(h)
    ensures RowsOf(plan, h, s, w, map[]) == map[]
  {
    assert Coordinates(plan, map[]) == {};
  }
}
