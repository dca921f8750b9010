/**
Idempotent /3 intents: contenders that look up a claim, decide on a possibly stale load, append, and
resolve lost responses by one more lookup. Every await is a separate step.
*/
module Intents {
  import opened Text
  import opened Codecs
  import opened Projection
  import opened ProjectionTables

  type Positive = n: nat | n > 0 witness 1

  /** Limits of the event store library; everything below holds for any positive values. */
  const MAX_EVENTS_PER_APPEND: Positive
  const MAX_READ_LIMIT: Positive

  /** The claim namespace: everything that is hashed into the claim scope, and the key. */
  datatype ClaimId = ClaimId(
    tenant: string, realm: Option<string>, category: string, streamKey: Option<string>, key: string)

  /** A caller's claim; the digest stands for the complete original intent. */
  datatype Request = Request(id: ClaimId, digest: string)

  /** What the store keeps per claim. */
  datatype Claimed = Claimed(digest: string, stream: Stream, first: nat, last: nat)

  // ---- reading a recorded batch back ----

  predicate BatchBounds(length: nat, first: nat, last: nat) {
    1 <= first <= last <= length && last - first + 1 <= MAX_EVENTS_PER_APPEND
  }

  /** The paged read of `recorded_intent`: exactly the claimed range, or a refusal. */
  method ReadBatch(log: seq<Event>, first: nat, last: nat) returns (r: Option<seq<Event>>)
    ensures r == if BatchBounds(|log|, first, last) then Some(log[first - 1..last]) else None
  {
    if last < first || last - first + 1 > MAX_EVENTS_PER_APPEND || first == 0 {
      return None;
    }
    var events: seq<Event> := [];
    var after: nat := first - 1;
    while after < last
      invariant first - 1 <= after <= last && (after <= |log| || after == first - 1)
      invariant after <= |log| ==> events == log[first - 1..after]
    {
      var expected := if last - after < MAX_READ_LIMIT then last - after else MAX_READ_LIMIT;
      var end := if after + expected < |log| then after + expected else |log|;
      var page := if |log| <= after then [] else log[after..end];
      if |page| != expected {
        return None;
      }
      events := events + page;
      after := after + |page|;
    }
    r := Some(events);
  }

  predicate Usable(e: Event) { !e.redacted && e.data.Object? }

  datatype Recorded = Recorded(key: string, events: seq<Event>, version: nat)

  /** `recorded_intent`: the batch of a claim, after every consistency check. */
  function RecordedIntent(plan: Plan, db: Db, id: ClaimId, c: Claimed): Option<Recorded> {
    var log := Log(db.streams, c.stream);
    if !BatchBounds(|log|, c.first, c.last) then None
    else
      var events := log[c.first - 1..c.last];
      match DecodeStreamId(c.stream.id)
      case None => None
      case Some((realm, category, key)) =>
        if c.stream.tenant != id.tenant || c.stream.kind != Kind(plan.service) || realm != id.realm
          || category != id.category || (id.streamKey.Some? && id.streamKey.value != key)
          || exists i :: 0 <= i < |events| && !Usable(events[i]) then None
        else Some(Recorded(key, events, c.last))
  }

  // ---- contenders ----

  datatype Answer = Success(request: Request, events: seq<Event>, version: nat, replayed: bool) | Failed

  datatype Pc =
    | Idle
    | Looking(request: Request)
    | Deciding(request: Request)
    | Appending(request: Request, key: string, expected: nat, events: seq<Event>)
    | Confirming(request: Request, events: seq<Event>, version: nat)
    | Replaying(request: Request, recorded: Recorded, deciding: bool)
    | Resolving(request: Request)

  /** One committed batch of a claim, in commit order. */
  datatype Commitment = Commitment(id: ClaimId, claimed: Claimed)

  datatype System = System(
    db: Db, claims: map<ClaimId, Claimed>, contenders: map<nat, Pc>, answers: seq<Answer>, commits: seq<Commitment>)

  datatype Step =
    | Begin(w: nat, request: Request)
    | Lookup(w: nat, fault: bool)
    | Decide(w: nat, key: string, expected: nat, events: seq<Event>)
    | GiveUp(w: nat)
    | Append(w: nat, responseLost: bool)
    | Confirm(w: nat, fault: bool)
    | Authorize(w: nat, allowed: bool)
    | Resolve(w: nat, fault: bool)
    | Crash(w: nat)
    | External(batch: Batch)

  const EMPTY := System(Db(map[], Tables(map[], map[])), map[], map[], [], [])

  function PcOf(s: System, w: nat): Pc { if w in s.contenders then s.contenders[w] else Idle }
  function Goto(s: System, w: nat, pc: Pc): System { s.(contenders := s.contenders[w := pc]) }
  function Reply(s: System, w: nat, a: Answer): System {
    s.(contenders := s.contenders[w := Idle], answers := s.answers + [a])
  }

  function StreamFor(plan: Plan, id: ClaimId, key: string): Stream {
    Stream(id.tenant, Kind(plan.service), EncodeStreamId(id.realm, id.category, key))
  }

  predicate HostSized(id: ClaimId, key: string) {
    (id.realm.Some? ==> Fits(id.realm.value)) && Fits(id.category) && Fits(key)
  }

  /** `recorded_claim` followed by the batch read; `orElse` is where an unknown claim leads. */
  function AfterLookup(plan: Plan, s: System, w: nat, request: Request, orElse: System): System {
    if request.id !in s.claims then orElse
    else if s.claims[request.id].digest != request.digest then Reply(s, w, Failed)
    else
      match RecordedIntent(plan, s.db, request.id, s.claims[request.id])
      case None => Reply(s, w, Failed)
      case Some(recorded) => Goto(s, w, Replaying(request, recorded, false))
  }

  /** What a first append leaves: one new claim on exactly the appended range. */
  function WithClaim(s: System, r: Request, x: Stream, events: seq<Event>, db: Db): System {
    var length := |Log(s.db.streams, x)|;
    var claimed := Claimed(r.digest, x, length + 1, length + |events|);
    s.(db := db, claims := s.claims[r.id := claimed], commits := s.commits + [Commitment(r.id, claimed)])
  }

  /** The durable append with its claim: a known claim never appends again. */
  function ClaimedAppend(plan: Plan, h: string -> string, s: System, pc: Pc): Option<System>
    requires IsDigest(h) && pc.Appending?
  {
    var id, stream := pc.request.id, StreamFor(plan, pc.request.id, pc.key);
    if id in s.claims || |pc.events| > MAX_EVENTS_PER_APPEND then None
    else
      match Commit(plan, h, s.db, stream, pc.expected, pc.events)
      case None => None
      case Some(db) => Some(WithClaim(s, pc.request, stream, pc.events, db))
  }

  /** An append that stored nothing: replay the known batch, or resolve by another lookup. */
  function AfterKnown(plan: Plan, s: System, w: nat, r: Request, lost: bool): System {
    if lost || r.id !in s.claims || s.claims[r.id].digest != r.digest then Goto(s, w, Resolving(r))
    else
      match RecordedIntent(plan, s.db, r.id, s.claims[r.id])
      case None => Goto(s, w, Resolving(r))
      case Some(recorded) => Goto(s, w, Replaying(r, recorded, true))
  }

  /** Where the append's outcome leads; `first` is the store after a first append, if there was one. */
  function AfterAppend(plan: Plan, s: System, w: nat, pc: Pc, first: Option<System>, lost: bool): System
    requires pc.Appending? && (first.Some? ==> pc.request.id in first.value.claims)
  {
    match first
    case Some(next) =>
      if lost then Goto(next, w, Resolving(pc.request))
      else Goto(next, w, Confirming(pc.request, pc.events, next.claims[pc.request.id].last))
    case None => AfterKnown(plan, s, w, pc.request, lost)
  }

  /** The first lookup of a call. */
  function LookupStep(plan: Plan, s: System, w: nat, fault: bool): System {
    var pc := PcOf(s, w);
    if !pc.Looking? then s
    else if fault then Reply(s, w, Failed)
    else AfterLookup(plan, s, w, pc.request, Goto(s, w, Deciding(pc.request)))
  }

  /** The one lookup after a failed decision or append. */
  function ResolveStep(plan: Plan, s: System, w: nat, fault: bool): System {
    var pc := PcOf(s, w);
    if !pc.Resolving? then s
    else if fault then Reply(s, w, Failed)
    else AfterLookup(plan, s, w, pc.request, Reply(s, w, Failed))
  }

  function AppendStep(plan: Plan, h: string -> string, s: System, w: nat, lost: bool): System
    requires IsDigest(h)
  {
    var pc := PcOf(s, w);
    if pc.Appending? then AfterAppend(plan, s, w, pc, ClaimedAppend(plan, h, s, pc), lost) else s
  }

  function Apply(plan: Plan, h: string -> string, s: System, step: Step): System
    requires IsDigest(h)
  {
    match step
    case Begin(w, request) => if PcOf(s, w).Idle? then Goto(s, w, Looking(request)) else s
    case Lookup(w, fault) => LookupStep(plan, s, w, fault)
    case Decide(w, key, expected, events) =>
      var pc := PcOf(s, w);
      if !pc.Deciding? || !HostSized(pc.request.id, key) || (exists i :: 0 <= i < |events| && !Usable(events[i]))
        || (pc.request.id.streamKey.Some? && pc.request.id.streamKey.value != key) then s
      else Goto(s, w, Appending(pc.request, key, expected, events))
    case GiveUp(w) =>
      var pc := PcOf(s, w);
      if pc.Deciding? || pc.Appending? then Goto(s, w, Resolving(pc.request)) else s
    case Append(w, lost) => AppendStep(plan, h, s, w, lost)
    case Confirm(w, fault) =>
      var pc := PcOf(s, w);
      if !pc.Confirming? then s
      else if fault then Goto(s, w, Resolving(pc.request))
      else Reply(s, w, Success(pc.request, pc.events, pc.version, false))
    case Authorize(w, allowed) =>
      var pc := PcOf(s, w);
      if !pc.Replaying? then s
      else if allowed then Reply(s, w, Success(pc.request, pc.recorded.events, pc.recorded.version, true))
      else if pc.deciding then Goto(s, w, Resolving(pc.request))
      else Reply(s, w, Failed)
    case Resolve(w, fault) => ResolveStep(plan, s, w, fault)
    case Crash(w) => Goto(s, w, Idle)
    case External(batch) => s.(db := Attempt(plan, h, s.db, batch))
  }

  function Run(plan: Plan, h: string -> string, steps: seq<Step>): System
    requires IsDigest(h)
  {
    if steps == [] then EMPTY else Apply(plan, h, Run(plan, h, steps[..|steps| - 1]), steps[|steps| - 1])
  }

  // ---- invariants ----

  /** The events of a claimed batch, read from the log. */
  function BatchIn(streams: Streams, c: Claimed): seq<Event>
    requires BatchBounds(|Log(streams, c.stream)|, c.first, c.last)
  {
    Log(streams, c.stream)[c.first - 1..c.last]
  }

  /** A stored claim points at a usable batch of one stream of its own namespace. */
  ghost predicate ClaimOk(plan: Plan, streams: Streams, id: ClaimId, c: Claimed) {
    UsableRange(streams, c) && exists key :: StreamKeyOk(plan, id, c, key)
  }

  ghost predicate UsableRange(streams: Streams, c: Claimed) {
    && BatchBounds(|Log(streams, c.stream)|, c.first, c.last)
    && (forall i :: 0 <= i < |BatchIn(streams, c)| ==> Usable(BatchIn(streams, c)[i]))
  }

  ghost predicate StreamKeyOk(plan: Plan, id: ClaimId, c: Claimed, key: string) {
    c.stream == StreamFor(plan, id, key) && HostSized(id, key) && (id.streamKey.Some? ==> id.streamKey.value == key)
  }

  /** The winner of a request: its claim is stored under the same digest with these events. */
  ghost predicate Won(s: System, r: Request, events: seq<Event>, version: nat) {
    && r.id in s.claims && s.claims[r.id].digest == r.digest && s.claims[r.id].last == version
    && BatchBounds(|Log(s.db.streams, s.claims[r.id].stream)|, s.claims[r.id].first, version)
    && events == BatchIn(s.db.streams, s.claims[r.id])
  }

  ghost predicate PcOk(s: System, pc: Pc) {
    match pc
    case Appending(r, key, _, events) =>
      && HostSized(r.id, key) && (r.id.streamKey.Some? ==> r.id.streamKey.value == key)
      && (forall i :: 0 <= i < |events| ==> Usable(events[i]))
    case Confirming(r, events, version) => Won(s, r, events, version)
    case Replaying(r, recorded, _) => Won(s, r, recorded.events, recorded.version)
    case _ => true
  }

  ghost predicate AnswerOk(s: System, a: Answer) { a.Success? ==> Won(s, a.request, a.events, a.version) }

  ghost predicate ClaimsOk(plan: Plan, s: System) {
    && (forall id :: id in s.claims ==> ClaimOk(plan, s.db.streams, id, s.claims[id]))
    && CommitsMatch(s.commits, s.claims)
  }

  /** Every commitment is the stored claim of its id, and no id has two. */
  ghost predicate CommitsMatch(commits: seq<Commitment>, claims: map<ClaimId, Claimed>) {
    && (forall i :: 0 <= i < |commits| ==> commits[i].id in claims && claims[commits[i].id] == commits[i].claimed)
    && (forall i, j :: 0 <= i < j < |commits| ==> commits[i].id != commits[j].id)
  }

  ghost predicate Inv(plan: Plan, s: System) {
    && Readable(plan, s.db.streams) && ClaimsOk(plan, s)
    && (forall w :: w in s.contenders ==> PcOk(s, s.contenders[w]))
    && (forall i :: 0 <= i < |s.answers| ==> AnswerOk(s, s.answers[i]))
  }

  /** Streams only grow and claims are never replaced. */
  ghost predicate Extends(s: System, t: System) {
    && (forall x :: Log(s.db.streams, x) <= Log(t.db.streams, x))
    && (forall id :: id in s.claims ==> id in t.claims && t.claims[id] == s.claims[id])
  }

  lemma WonStays(s: System, t: System, r: Request, events: seq<Event>, version: nat)
    requires Extends(s, t) && Won(s, r, events, version)
    ensures Won(t, r, events, version)
  {
    var c := s.claims[r.id];
    assert Log(s.db.streams, c.stream) <= Log(t.db.streams, c.stream);
    assert Log(t.db.streams, c.stream)[c.first - 1..c.last] == Log(s.db.streams, c.stream)[c.first - 1..c.last];
  }

  lemma PcStays(s: System, t: System, pc: Pc)
    requires Extends(s, t) && PcOk(s, pc)
    ensures PcOk(t, pc)
  {
    if pc.Confirming? { WonStays(s, t, pc.request, pc.events, pc.version); }
    if pc.Replaying? { WonStays(s, t, pc.request, pc.recorded.events, pc.recorded.version); }
  }

  lemma ClaimStays(plan: Plan, streams: Streams, longer: Streams, id: ClaimId, c: Claimed)
    requires Log(streams, c.stream) <= Log(longer, c.stream) && ClaimOk(plan, streams, id, c)
    ensures ClaimOk(plan, longer, id, c)
  {
    assert BatchIn(longer, c) == BatchIn(streams, c);
  }

  /** A committed batch extends one stream, whose identity the projector could read. */
  lemma CommitShape(plan: Plan, h: string -> string, db: Db, x: Stream, expected: nat, events: seq<Event>)
    requires IsDigest(h) && Commit(plan, h, db, x, expected, events).Some?
    ensures var t := Commit(plan, h, db, x, expected, events).value;
      && t.streams == db.streams[x := Log(db.streams, x) + events]
      && events != [] && (Ours(plan, x) ==> DecodeStreamId(x.id).Some?)
  {
    assert ProjectAll(plan, h, db.tables, x, events).Some?;
  }

  lemma LogsGrow(streams: Streams, x: Stream, events: seq<Event>)
    ensures forall y :: Log(streams, y) <= Log(streams[x := Log(streams, x) + events], y)
  {
  }

  /** A well-formed claim on a readable stream is always read back completely. */
  lemma RecordedIsBatch(plan: Plan, db: Db, id: ClaimId, c: Claimed)
    requires Readable(plan, db.streams) && ClaimOk(plan, db.streams, id, c)
    ensures RecordedIntent(plan, db, id, c).Some?
    ensures RecordedIntent(plan, db, id, c).value.events == BatchIn(db.streams, c)
    ensures RecordedIntent(plan, db, id, c).value.version == c.last
  {
    var key := ClaimIdentity(plan, db.streams, id, c);
    RecordedRange(plan, db, id, c, key);
  }

  lemma RecordedRange(plan: Plan, db: Db, id: ClaimId, c: Claimed, key: string)
    requires UsableRange(db.streams, c) && DecodeStreamId(c.stream.id) == Some((id.realm, id.category, key))
    requires c.stream.tenant == id.tenant && c.stream.kind == Kind(plan.service)
    requires id.streamKey.Some? ==> id.streamKey.value == key
    ensures RecordedIntent(plan, db, id, c) == Some(Recorded(key, BatchIn(db.streams, c), c.last))
  {
  }

  lemma ClaimIdentity(plan: Plan, streams: Streams, id: ClaimId, c: Claimed) returns (key: string)
    requires Readable(plan, streams) && ClaimOk(plan, streams, id, c)
    ensures DecodeStreamId(c.stream.id) == Some((id.realm, id.category, key))
    ensures c.stream.tenant == id.tenant && c.stream.kind == Kind(plan.service)
    ensures id.streamKey.Some? ==> id.streamKey.value == key
  {
    key :| StreamKeyOk(plan, id, c, key);
    assert c.stream in streams;
    ReadableIdentity(plan, streams, id, key);
  }

  lemma ReadableIdentity(plan: Plan, streams: Streams, id: ClaimId, key: string)
    requires Readable(plan, streams) && StreamFor(plan, id, key) in streams && HostSized(id, key)
    ensures DecodeStreamId(StreamFor(plan, id, key).id) == Some((id.realm, id.category, key))
  {
    DecodeOfEncode(id.realm, id.category, key);
  }

  lemma ReplyKeeps(plan: Plan, s: System, w: nat, a: Answer)
    requires Inv(plan, s) && AnswerOk(s, a)
    ensures Inv(plan, Reply(s, w, a))
  {
    Relabel(plan, s, Reply(s, w, a));
  }

  lemma GotoKeeps(plan: Plan, s: System, w: nat, pc: Pc)
    requires Inv(plan, s) && PcOk(s, pc)
    ensures Inv(plan, Goto(s, w, pc))
  {
    Relabel(plan, s, Goto(s, w, pc));
  }

  /** Only contenders and answers changed, and each new one is justified by the store. */
  lemma Relabel(plan: Plan, s: System, t: System)
    requires Inv(plan, s) && t.db == s.db && t.claims == s.claims && t.commits == s.commits
    requires forall w :: w in t.contenders ==> PcOk(s, t.contenders[w])
    requires forall i :: 0 <= i < |t.answers| ==> AnswerOk(s, t.answers[i])
    ensures Inv(plan, t)
  {
    forall w | w in t.contenders ensures PcOk(t, t.contenders[w]) { PcStays(s, t, t.contenders[w]); }
    forall i | 0 <= i < |t.answers| ensures AnswerOk(t, t.answers[i]) { AnswerStays(s, t, t.answers[i]); }
  }

  lemma AnswerStays(s: System, t: System, a: Answer)
    requires Extends(s, t) && AnswerOk(s, a)
    ensures AnswerOk(t, a)
  {
    if a.Success? { WonStays(s, t, a.request, a.events, a.version); }
  }

  /** A known claim with the same digest leads to a replay of its batch. */
  lemma ReplayKeeps(plan: Plan, s: System, w: nat, r: Request, deciding: bool)
    requires Inv(plan, s) && r.id in s.claims && s.claims[r.id].digest == r.digest
    ensures RecordedIntent(plan, s.db, r.id, s.claims[r.id]).Some?
    ensures Inv(plan, Goto(s, w, Replaying(r, RecordedIntent(plan, s.db, r.id, s.claims[r.id]).value, deciding)))
  {
    RecordedIsBatch(plan, s.db, r.id, s.claims[r.id]);
    GotoKeeps(plan, s, w, Replaying(r, RecordedIntent(plan, s.db, r.id, s.claims[r.id]).value, deciding));
  }

  lemma LookupKeeps(plan: Plan, s: System, w: nat, request: Request, orElse: System)
    requires Inv(plan, s) && Inv(plan, orElse)
    ensures Inv(plan, AfterLookup(plan, s, w, request, orElse))
  {
    if request.id in s.claims && s.claims[request.id].digest == request.digest {
      ReplayKeeps(plan, s, w, request, false);
    } else if request.id in s.claims {
      ReplyKeeps(plan, s, w, Failed);
    }
  }

  /** A store that grew and gained justified claims keeps everything said before. */
  lemma GrowthKeeps(plan: Plan, s: System, t: System)
    requires Inv(plan, s) && Readable(plan, t.db.streams) && ClaimsOk(plan, t) && Extends(s, t)
    requires t.contenders == s.contenders && t.answers == s.answers
    ensures Inv(plan, t)
  {
    forall w | w in t.contenders ensures PcOk(t, t.contenders[w]) { PcStays(s, t, t.contenders[w]); }
    forall i | 0 <= i < |t.answers| ensures AnswerOk(t, t.answers[i]) { AnswerStays(s, t, t.answers[i]); }
  }

  lemma ForeignBatchKeeps(plan: Plan, s: System, db: Db, x: Stream, events: seq<Event>)
    requires Inv(plan, s) && db.streams == s.db.streams[x := Log(s.db.streams, x) + events]
    requires Ours(plan, x) ==> DecodeStreamId(x.id).Some?
    ensures Inv(plan, s.(db := db))
  {
    var t := s.(db := db);
    LogsGrow(s.db.streams, x, events);
    forall id | id in t.claims ensures ClaimOk(plan, t.db.streams, id, t.claims[id]) {
      ClaimStays(plan, s.db.streams, t.db.streams, id, t.claims[id]);
    }
    GrowthKeeps(plan, s, t);
  }

  lemma ExternalKeeps(plan: Plan, h: string -> string, s: System, b: Batch)
    requires IsDigest(h) && Inv(plan, s)
    ensures Inv(plan, Apply(plan, h, s, External(b)))
  {
    if Commit(plan, h, s.db, b.stream, b.expected, b.events).Some? {
      CommitShape(plan, h, s.db, b.stream, b.expected, b.events);
      ForeignBatchKeeps(plan, s, Attempt(plan, h, s.db, b), b.stream, b.events);
    } else {
      assert s.(db := Attempt(plan, h, s.db, b)) == s;
    }
  }

  lemma NewClaimOk(plan: Plan, s: System, r: Request, key: string, events: seq<Event>, db: Db)
    requires events != [] && |events| <= MAX_EVENTS_PER_APPEND && forall i :: 0 <= i < |events| ==> Usable(events[i])
    requires HostSized(r.id, key) && (r.id.streamKey.Some? ==> r.id.streamKey.value == key)
    requires var x := StreamFor(plan, r.id, key); db.streams == s.db.streams[x := Log(s.db.streams, x) + events]
    ensures var x := StreamFor(plan, r.id, key);
      var t := WithClaim(s, r, x, events, db);
      ClaimOk(plan, t.db.streams, r.id, t.claims[r.id]) && Won(t, r, events, t.claims[r.id].last)
  {
    var x := StreamFor(plan, r.id, key);
    var t := WithClaim(s, r, x, events, db);
    var c := t.claims[r.id];
    var before := Log(s.db.streams, x);
    assert Log(db.streams, x) == before + events;
    assert (before + events)[|before|..|before| + |events|] == events;
    assert BatchIn(db.streams, c) == events;
    assert StreamKeyOk(plan, r.id, c, key);
  }

  lemma NewClaimKeeps(plan: Plan, s: System, r: Request, x: Stream, events: seq<Event>, db: Db)
    requires Inv(plan, s) && r.id !in s.claims && (Ours(plan, x) ==> DecodeStreamId(x.id).Some?)
    requires db.streams == s.db.streams[x := Log(s.db.streams, x) + events]
    requires var t := WithClaim(s, r, x, events, db); ClaimOk(plan, t.db.streams, r.id, t.claims[r.id])
    ensures Inv(plan, WithClaim(s, r, x, events, db))
  {
    var t := WithClaim(s, r, x, events, db);
    LogsGrow(s.db.streams, x, events);
    NewClaimAmongOld(plan, s, r, x, events, db);
    GrowthKeeps(plan, s, t);
  }

  lemma NewClaimAmongOld(plan: Plan, s: System, r: Request, x: Stream, events: seq<Event>, db: Db)
    requires ClaimsOk(plan, s) && r.id !in s.claims && forall y :: Log(s.db.streams, y) <= Log(db.streams, y)
    requires var t := WithClaim(s, r, x, events, db); ClaimOk(plan, t.db.streams, r.id, t.claims[r.id])
    ensures ClaimsOk(plan, WithClaim(s, r, x, events, db))
  {
    var t := WithClaim(s, r, x, events, db);
    forall o | o in t.claims ensures ClaimOk(plan, t.db.streams, o, t.claims[o]) {
      if o != r.id { ClaimStays(plan, s.db.streams, t.db.streams, o, t.claims[o]); }
    }
    CommitsGrow(s, r.id, t.claims[r.id]);
  }

  /** Commitments stay matched with the claims and stay distinct when an unknown claim is added. */
  lemma CommitsGrow(s: System, id: ClaimId, claimed: Claimed)
    requires CommitsMatch(s.commits, s.claims) && id !in s.claims
    ensures CommitsMatch(s.commits + [Commitment(id, claimed)], s.claims[id := claimed])
  {
  }

  lemma ClaimedAppendKeeps(plan: Plan, h: string -> string, s: System, pc: Pc)
    requires IsDigest(h) && Inv(plan, s) && pc.Appending? && PcOk(s, pc) && ClaimedAppend(plan, h, s, pc).Some?
    ensures var t := ClaimedAppend(plan, h, s, pc).value;
      Inv(plan, t) && pc.request.id in t.claims && Won(t, pc.request, pc.events, t.claims[pc.request.id].last)
  {
    var x := StreamFor(plan, pc.request.id, pc.key);
    var db := Commit(plan, h, s.db, x, pc.expected, pc.events).value;
    CommitShape(plan, h, s.db, x, pc.expected, pc.events);
    NewClaimOk(plan, s, pc.request, pc.key, pc.events, db);
    NewClaimKeeps(plan, s, pc.request, x, pc.events, db);
  }

  lemma AfterKnownKeeps(plan: Plan, s: System, w: nat, r: Request, lost: bool)
    requires Inv(plan, s)
    ensures Inv(plan, AfterKnown(plan, s, w, r, lost))
  {
    if lost || r.id !in s.claims || s.claims[r.id].digest != r.digest {
      GotoKeeps(plan, s, w, Resolving(r));
    } else {
      ReplayKeeps(plan, s, w, r, true);
    }
  }

  lemma AfterAppendKeeps(plan: Plan, s: System, w: nat, pc: Pc, first: Option<System>, lost: bool)
    requires Inv(plan, s) && pc.Appending?
    requires first.Some? ==> var t := first.value;
      Inv(plan, t) && pc.request.id in t.claims && Won(t, pc.request, pc.events, t.claims[pc.request.id].last)
    ensures Inv(plan, AfterAppend(plan, s, w, pc, first, lost))
  {
    if first.Some? {
      var t := first.value;
      GotoKeeps(plan, t, w, Resolving(pc.request));
      GotoKeeps(plan, t, w, Confirming(pc.request, pc.events, t.claims[pc.request.id].last));
    } else {
      AfterKnownKeeps(plan, s, w, pc.request, lost);
    }
  }

  lemma LookupStepKeeps(plan: Plan, h: string -> string, s: System, w: nat, fault: bool)
    requires IsDigest(h) && Inv(plan, s)
    ensures Inv(plan, Apply(plan, h, s, Lookup(w, fault)))
  {
    var pc := PcOf(s, w);
    if pc.Looking? {
      ReplyKeeps(plan, s, w, Failed);
      GotoKeeps(plan, s, w, Deciding(pc.request));
      LookupKeeps(plan, s, w, pc.request, Goto(s, w, Deciding(pc.request)));
    }
  }

  lemma ResolveStepKeeps(plan: Plan, h: string -> string, s: System, w: nat, fault: bool)
    requires IsDigest(h) && Inv(plan, s)
    ensures Inv(plan, Apply(plan, h, s, Resolve(w, fault)))
  {
    var pc := PcOf(s, w);
    if pc.Resolving? {
      ReplyKeeps(plan, s, w, Failed);
      LookupKeeps(plan, s, w, pc.request, Reply(s, w, Failed));
    }
  }

  lemma AppendStepKeeps(plan: Plan, h: string -> string, s: System, w: nat, lost: bool)
    requires IsDigest(h) && Inv(plan, s)
    ensures Inv(plan, Apply(plan, h, s, Append(w, lost)))
  {
    var pc := PcOf(s, w);
    if pc.Appending? {
      if ClaimedAppend(plan, h, s, pc).Some? { ClaimedAppendKeeps(plan, h, s, pc); }
      AfterAppendKeeps(plan, s, w, pc, ClaimedAppend(plan, h, s, pc), lost);
    }
  }

  /** Steps that only move one contender. */
  lemma LocalStepKeeps(plan: Plan, h: string -> string, s: System, step: Step)
    requires IsDigest(h) && Inv(plan, s) && !(step.Lookup? || step.Append? || step.Resolve? || step.External?)
    ensures Inv(plan, Apply(plan, h, s, step))
  {
    var w, pc := step.w, PcOf(s, step.w);
    match step
    case Begin(_, request) => GotoKeeps(plan, s, w, Looking(request));
    case Decide(_, key, expected, events) =>
      if Apply(plan, h, s, step) != s { GotoKeeps(plan, s, w, Appending(pc.request, key, expected, events)); }
    case GiveUp(_) =>
      if pc.Deciding? || pc.Appending? { GotoKeeps(plan, s, w, Resolving(pc.request)); }
    case Confirm(_, _) =>
      if pc.Confirming? {
        GotoKeeps(plan, s, w, Resolving(pc.request));
        ReplyKeeps(plan, s, w, Success(pc.request, pc.events, pc.version, false));
      }
    case Authorize(_, _) =>
      ReplyKeeps(plan, s, w, Failed);
      if pc.Replaying? {
        GotoKeeps(plan, s, w, Resolving(pc.request));
        ReplyKeeps(plan, s, w, Success(pc.request, pc.recorded.events, pc.recorded.version, true));
      }
    case Crash(_) => GotoKeeps(plan, s, w, Idle);
  }

  lemma StepKeepsInv(plan: Plan, h: string -> string, s: System, step: Step)
    requires IsDigest(h) && Inv(plan, s)
    ensures Inv(plan, Apply(plan, h, s, step))
  {
    match step
    case External(batch) => ExternalKeeps(plan, h, s, batch);
    case Lookup(w, fault) => LookupStepKeeps(plan, h, s, w, fault);
    case Resolve(w, fault) => ResolveStepKeeps(plan, h, s, w, fault);
    case Append(w, lost) => AppendStepKeeps(plan, h, s, w, lost);
    case _ => LocalStepKeeps(plan, h, s, step);
  }

  lemma {:induction false} RunKeepsInv(plan: Plan, h: string -> string, steps: seq<Step>)
    requires IsDigest(h)
    ensures Inv(plan, Run(plan, h, steps))
  {
    if steps != [] {
      var n := |steps| - 1;
      RunKeepsInv(plan, h, steps[..n]);
      StepKeepsInv(plan, h, Run(plan, h, steps[..n]), steps[n]);
    }
  }

  lemma ClaimedAppendTables(plan: Plan, h: string -> string, s: System, pc: Pc)
    requires IsDigest(h) && pc.Appending?
    ensures var b := Batch(StreamFor(plan, pc.request.id, pc.key), pc.expected, pc.events);
      ClaimedAppend(plan, h, s, pc).Some? ==> ClaimedAppend(plan, h, s, pc).value.db == Attempt(plan, h, s.db, b)
  {
  }

  lemma AfterAppendDb(plan: Plan, s: System, w: nat, pc: Pc, first: Option<System>, lost: bool)
    requires pc.Appending? && (first.Some? ==> pc.request.id in first.value.claims)
    ensures AfterAppend(plan, s, w, pc, first, lost).db == if first.Some? then first.value.db else s.db
  {
  }

  lemma StepKeepsTables(plan: Plan, h: string -> string, s: System, step: Step)
    requires IsDigest(h) && Agrees(plan, h, s.db)
    ensures Agrees(plan, h, Apply(plan, h, s, step).db)
  {
    var db := Apply(plan, h, s, step).db;
    if step.External? {
      CommitKeepsAgreement(plan, h, s.db, step.batch);
    } else if step.Append? && PcOf(s, step.w).Appending? {
      var pc := PcOf(s, step.w);
      var b := Batch(StreamFor(plan, pc.request.id, pc.key), pc.expected, pc.events);
      CommitKeepsAgreement(plan, h, s.db, b);
      ClaimedAppendTables(plan, h, s, pc);
      AfterAppendDb(plan, s, step.w, pc, ClaimedAppend(plan, h, s, pc), step.responseLost);
      assert db == s.db || db == Attempt(plan, h, s.db, b);
    } else {
      assert db == s.db;
    }
  }

  /** Batches decided on stale loads still leave both projection tables equal to a recomputation. */
  lemma {:induction false} RunKeepsTables(plan: Plan, h: string -> string, steps: seq<Step>)
    requires IsDigest(h)
    ensures Agrees(plan, h, Run(plan, h, steps).db)
  {
    if steps == [] {
      RunKeepsAgreement(plan, h, []);
    } else {
      var n := |steps| - 1;
      RunKeepsTables(plan, h, steps[..n]);
      StepKeepsTables(plan, h, Run(plan, h, steps[..n]), steps[n]);
    }
  }

  // ---- what callers get ----

  /** However contenders interleave, a claim commits at most one batch. */
  lemma AtMostOneBatch(plan: Plan, h: string -> string, steps: seq<Step>, i: nat, j: nat)
    requires IsDigest(h) && i < j < |Run(plan, h, steps).commits|
    ensures Run(plan, h, steps).commits[i].id != Run(plan, h, steps).commits[j].id
  {
    RunKeepsInv(plan, h, steps);
  }

  /** Every successful answer carries the claim's one batch, and that batch is in the log. */
  lemma SuccessIsTheBatch(plan: Plan, h: string -> string, steps: seq<Step>, i: nat)
    requires IsDigest(h) && i < |Run(plan, h, steps).answers| && Run(plan, h, steps).answers[i].Success?
    ensures var s, a := Run(plan, h, steps), Run(plan, h, steps).answers[i]; Won(s, a.request, a.events, a.version)
  {
    RunKeepsInv(plan, h, steps);
  }

  /** Two successful answers to one claim agree, whether fresh, replayed or recovered. */
  lemma SuccessesAgree(plan: Plan, h: string -> string, steps: seq<Step>, i: nat, j: nat)
    requires IsDigest(h) && i < |Run(plan, h, steps).answers| && j < |Run(plan, h, steps).answers|
    requires var a, b := Run(plan, h, steps).answers[i], Run(plan, h, steps).answers[j];
      a.Success? && b.Success? && a.request.id == b.request.id
    ensures var a, b := Run(plan, h, steps).answers[i], Run(plan, h, steps).answers[j];
      a.request == b.request && a.events == b.events && a.version == b.version
  {
    SuccessIsTheBatch(plan, h, steps, i);
    SuccessIsTheBatch(plan, h, steps, j);
  }

  /**
  Completeness: once a request's claim is stored, a contender that looks it up, first or after a lost
  response, and is authorised gets the stored batch.
  */
  lemma StoredClaimIsAnswered(plan: Plan, h: string -> string, steps: seq<Step>, w: nat, r: Request)
    requires IsDigest(h) && (PcOf(Run(plan, h, steps), w) == Looking(r) || PcOf(Run(plan, h, steps), w) == Resolving(r))
    requires r.id in Run(plan, h, steps).claims && Run(plan, h, steps).claims[r.id].digest == r.digest
    ensures var s := Run(plan, h, steps);
      var find := if PcOf(s, w).Looking? then Lookup(w, false) else Resolve(w, false);
      var c := s.claims[r.id];
      && BatchBounds(|Log(s.db.streams, c.stream)|, c.first, c.last)
      && Run(plan, h, steps + [find] + [Authorize(w, true)]).answers
         == s.answers + [Success(r, BatchIn(s.db.streams, c), c.last, true)]
  {
    var s := Run(plan, h, steps);
    var find := if PcOf(s, w).Looking? then Lookup(w, false) else Resolve(w, false);
    var c := s.claims[r.id];
    RunKeepsInv(plan, h, steps);
    RecordedIsBatch(plan, s.db, r.id, c);
    var recorded := RecordedIntent(plan, s.db, r.id, c).value;
    LookupSteps(plan, h, s, w);
    if PcOf(s, w).Looking? {
      FirstLookupFinds(plan, s, w, r, recorded);
    } else {
      SecondLookupFinds(plan, s, w, r, recorded);
    }
    RunSnoc(plan, h, steps, find);
    RunSnoc(plan, h, steps + [find], Authorize(w, true));
    ReplayIsAnswered(plan, h, Run(plan, h, steps + [find]), w, r, recorded);
  }

  /** The claim is stored under the request's digest and reads back as `recorded`. */
  ghost predicate Found(plan: Plan, s: System, r: Request, recorded: Recorded) {
    && r.id in s.claims && s.claims[r.id].digest == r.digest
    && RecordedIntent(plan, s.db, r.id, s.claims[r.id]) == Some(recorded)
  }

  lemma LookupFinds(plan: Plan, s: System, w: nat, r: Request, orElse: System, recorded: Recorded)
    requires Found(plan, s, r, recorded)
    ensures AfterLookup(plan, s, w, r, orElse) == Goto(s, w, Replaying(r, recorded, false))
  {
  }

  lemma FirstLookupFinds(plan: Plan, s: System, w: nat, r: Request, recorded: Recorded)
    requires PcOf(s, w) == Looking(r) && Found(plan, s, r, recorded)
    ensures LookupStep(plan, s, w, false) == Goto(s, w, Replaying(r, recorded, false))
  {
    LookupFinds(plan, s, w, r, Goto(s, w, Deciding(r)), recorded);
  }

  lemma SecondLookupFinds(plan: Plan, s: System, w: nat, r: Request, recorded: Recorded)
    requires PcOf(s, w) == Resolving(r) && Found(plan, s, r, recorded)
    ensures ResolveStep(plan, s, w, false) == Goto(s, w, Replaying(r, recorded, false))
  {
    LookupFinds(plan, s, w, r, Reply(s, w, Failed), recorded);
  }

  /** What the two lookups do to a system. */
  lemma LookupSteps(plan: Plan, h: string -> string, s: System, w: nat)
    requires IsDigest(h)
    ensures Apply(plan, h, s, Lookup(w, false)) == LookupStep(plan, s, w, false)
    ensures Apply(plan, h, s, Resolve(w, false)) == ResolveStep(plan, s, w, false)
  {
  }

  lemma ReplayIsAnswered(plan: Plan, h: string -> string, s: System, w: nat, r: Request, recorded: Recorded)
    requires IsDigest(h) && PcOf(s, w) == Replaying(r, recorded, false)
    ensures Apply(plan, h, s, Authorize(w, true)).answers
      == s.answers + [Success(r, recorded.events, recorded.version, true)]
  {
  }

  lemma RunSnoc(plan: Plan, h: string -> string, steps: seq<Step>, step: Step)
    requires IsDigest(h)
    ensures Run(plan, h, steps + [step]) == Apply(plan, h, Run(plan, h, steps), step)
  {
    assert (steps + [step])[..|steps|] == steps;
  }
}
