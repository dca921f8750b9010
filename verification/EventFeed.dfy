/** The resumable per-stream event feed. */
module EventFeed {
  import opened Text
  import opened Codecs

  const MAX_PAGE_ROWS: nat := 1000

  datatype Numbered<E> = Numbered(version: nat, event: E)
  datatype PageResult<E> = Page(events: seq<Numbered<E>>, cursor: string, hasMore: bool) | BadCursor | Refused

  function End(log: nat, after: nat, limit: nat): nat {
    if log <= after then after else if after + limit < log then after + limit else log
  }

  /** Entries strictly after a version, numbered from one. */
  function Slice<E>(log: seq<E>, after: nat, end: nat): seq<Numbered<E>>
    requires after <= end
    requires after < |log| ==> end <= |log|
  {
    if |log| <= after then []
    else seq(end - after, i requires 0 <= i < end - after => Numbered(after + i + 1, log[after + i]))
  }

  /** The page after a known position. */
  function PageAfter<E>(identity: string, log: seq<E>, after: nat, limit: nat): PageResult<E> {
    var end := End(|log|, after, limit);
    var events := Slice(log, after, end);
    var position := if events == [] then after else events[|events| - 1].version;
    Page(events, EncodeEventCursor(identity, position), end < |log|)
  }

  function PositionOf(identity: string, cursor: Option<string>): Option<nat> {
    if cursor.None? then Some(0) else DecodeEventCursor(cursor.value, identity)
  }

  /** `events_page`, given the authorizer's verdict and the feed's identity. */
  function EventsPage<E>(allowed: bool, identity: string, log: seq<E>, cursor: Option<string>,
                         limit: nat): PageResult<E> {
    if limit == 0 || limit > MAX_PAGE_ROWS || cursor == Some("") then BadCursor
    else if !allowed then Refused
    else
      match PositionOf(identity, cursor)
      case None => BadCursor
      case Some(after) => PageAfter(identity, log, after, limit)
  }

  /** A page is given exactly to an allowed reader with a page size in bounds and no cursor or an accepted one. */
  lemma PageIff<E>(allowed: bool, identity: string, log: seq<E>, cursor: Option<string>, limit: nat)
    requires ':' !in identity
    ensures EventsPage(allowed, identity, log, cursor, limit).Page? <==> (
      && allowed && 1 <= limit <= 1000
      && (cursor.None?
          || exists digits :: IsEventCursor(cursor.value, identity, digits) && ParseU64(digits).Some?))
    ensures !allowed && 1 <= limit <= 1000 && cursor != Some("") ==>
      EventsPage(allowed, identity, log, cursor, limit) == Refused
  {
    if cursor.Some? {
      if DecodeEventCursor(cursor.value, identity).Some? {
        var digits := EventCursorSplit(cursor.value, identity);
      }
      if digits :| IsEventCursor(cursor.value, identity, digits) && ParseU64(digits).Some? {
        EventCursorParts(cursor.value, identity, digits);
        assert |cursor.value| >= |EVENT_CURSOR|;
      }
    }
  }

  /** A page is as long as its limit and the log allow, holds the next versions in order, and says if more follow. */
  lemma PageIsFull<E>(identity: string, log: seq<E>, cursor: Option<string>, at: nat, limit: nat)
    requires PositionOf(identity, cursor) == Some(at) && cursor != Some("") && at <= |log| && 1 <= limit <= 1000
    ensures var page := EventsPage(true, identity, log, cursor, limit);
      && page.Page? && |page.events| == (if limit <= |log| - at then limit else |log| - at)
      && (forall i :: 0 <= i < |page.events| ==> page.events[i] == Numbered(at + i + 1, log[at + i]))
      && (page.hasMore <==> at + |page.events| < |log|)
      && page.cursor == EncodeEventCursor(identity, at + |page.events|)
  {
    PageAt(identity, log, cursor, at, limit);
    var end := End(|log|, at, limit);
    SliceIs(log, at, end);
  }

  lemma SliceIs<E>(log: seq<E>, at: nat, end: nat)
    requires at <= end <= |log|
    ensures |Slice(log, at, end)| == end - at
    ensures forall i :: 0 <= i < end - at ==> Slice(log, at, end)[i] == Numbered(at + i + 1, log[at + i])
  {
  }

  // ---- a reader among writers ----

  datatype Action<E> = Write(batch: seq<E>) | Read(allowed: bool, limit: nat)

  /** The log, what the reader has collected, and the cursor it will present next. */
  datatype Reader<E> = Reader(log: seq<E>, seen: seq<Numbered<E>>, cursor: Option<string>, caughtUp: bool)

  function Act<E>(identity: string, r: Reader<E>, a: Action<E>): Reader<E> {
    match a
    case Write(batch) => r.(log := r.log + batch, caughtUp := r.caughtUp && batch == [])
    case Read(allowed, limit) =>
      match EventsPage(allowed, identity, r.log, r.cursor, limit)
      case Page(events, cursor, hasMore) => r.(seen := r.seen + events, cursor := Some(cursor), caughtUp := !hasMore)
      case _ => r
  }

  function RunReader<E>(identity: string, actions: seq<Action<E>>): Reader<E> {
    if actions == [] then Reader([], [], None, false)
    else Act(identity, RunReader(identity, actions[..|actions| - 1]), actions[|actions| - 1])
  }

  /** Gap-free, duplicate-free, in order: the collected events are a numbered prefix of the log. */
  ghost predicate Faithful<E>(identity: string, r: Reader<E>) {
    && |r.seen| <= |r.log| && r.seen == Slice(r.log, 0, |r.seen|)
    && (r.cursor.None? ==> r.seen == [])
    && (r.cursor.Some? ==> r.cursor.value == EncodeEventCursor(identity, |r.seen|))
    && (r.caughtUp ==> |r.seen| == |r.log|)
  }

  lemma SliceConcat<E>(log: seq<E>, mid: nat, end: nat)
    requires mid <= end <= |log|
    ensures Slice(log, 0, mid) + Slice(log, mid, end) == Slice(log, 0, end)
  {
    assert |Slice(log, 0, mid)| == mid && |Slice(log, mid, end)| == end - mid;
  }

  lemma CursorNamesPosition(identity: string, cursor: Option<string>, at: nat)
    requires ':' !in identity && at < U64_LIMIT
    requires if cursor.None? then at == 0 else cursor.value == EncodeEventCursor(identity, at)
    ensures PositionOf(identity, cursor) == Some(at) && cursor != Some("")
  {
    EventCursorRoundTrip(identity, at, identity);
    assert |EncodeEventCursor(identity, at)| >= |EVENT_CURSOR|;
  }

  lemma PageAfterIs<E>(identity: string, log: seq<E>, at: nat, limit: nat)
    requires at <= |log|
    ensures var end := End(|log|, at, limit);
      PageAfter(identity, log, at, limit) == Page(Slice(log, at, end), EncodeEventCursor(identity, end), end < |log|)
  {
    var end := End(|log|, at, limit);
    if at < end { assert Slice(log, at, end)[end - at - 1].version == end; }
  }

  /** The page handed out at a position, under the cursor that names it. */
  lemma PageAt<E>(identity: string, log: seq<E>, cursor: Option<string>, at: nat, limit: nat)
    requires PositionOf(identity, cursor) == Some(at) && cursor != Some("") && at <= |log|
    requires 1 <= limit <= MAX_PAGE_ROWS
    ensures var end := End(|log|, at, limit);
      EventsPage(true, identity, log, cursor, limit)
        == Page(Slice(log, at, end), EncodeEventCursor(identity, end), end < |log|)
  {
    PageAfterIs(identity, log, at, limit);
  }

  lemma ReadKeepsFaithful<E>(identity: string, r: Reader<E>, allowed: bool, limit: nat)
    requires ':' !in identity && |r.log| < U64_LIMIT && Faithful(identity, r)
    ensures Faithful(identity, Act(identity, r, Read(allowed, limit)))
    ensures allowed && 1 <= limit <= MAX_PAGE_ROWS ==>
      var next := Act(identity, r, Read(allowed, limit));
      |next.seen| == End(|r.log|, |r.seen|, limit) && next.log == r.log && (next.caughtUp <==> |next.seen| == |r.log|)
  {
    if allowed && 1 <= limit <= MAX_PAGE_ROWS {
      var at := |r.seen|;
      CursorNamesPosition(identity, r.cursor, at);
      PageAt(identity, r.log, r.cursor, at, limit);
      SliceConcat(r.log, at, End(|r.log|, at, limit));
    }
  }

  lemma WriteKeepsFaithful<E>(identity: string, r: Reader<E>, batch: seq<E>)
    requires Faithful(identity, r)
    ensures Faithful(identity, Act(identity, r, Write(batch)))
  {
    var log, n := r.log + batch, |r.seen|;
    assert Slice(log, 0, n) == Slice(r.log, 0, n);
  }

  lemma LogGrows<E>(identity: string, r: Reader<E>, a: Action<E>)
    ensures |r.log| <= |Act(identity, r, a).log|
  {
  }

  /** Whatever is written between reads, and whatever page sizes are used, the reader stays faithful. */
  lemma {:induction false} RunIsFaithful<E>(identity: string, actions: seq<Action<E>>)
    requires ':' !in identity && |RunReader(identity, actions).log| < U64_LIMIT
    ensures Faithful(identity, RunReader(identity, actions))
  {
    if actions != [] {
      var n := |actions| - 1;
      var before := RunReader(identity, actions[..n]);
      LogGrows(identity, before, actions[n]);
      RunIsFaithful(identity, actions[..n]);
      match actions[n]
      case Write(batch) => WriteKeepsFaithful(identity, before, batch);
      case Read(allowed, limit) => ReadKeepsFaithful(identity, before, allowed, limit);
    }
  }

  /** A denied read, or one with a page size out of bounds, shows the reader nothing and leaves its cursor. */
  lemma DeniedReadShowsNothing<E>(identity: string, actions: seq<Action<E>>, allowed: bool, limit: nat)
    requires !allowed || limit == 0 || limit > 1000
    ensures RunReader(identity, actions + [Read(allowed, limit)]) == RunReader(identity, actions)
  {
    assert (actions + [Read(allowed, limit)])[..|actions|] == actions;
  }

  /** A read either advances or tells the reader that it has everything. */
  lemma ReadMakesProgress<E>(identity: string, actions: seq<Action<E>>, limit: nat)
    requires ':' !in identity && |RunReader(identity, actions).log| < U64_LIMIT && 1 <= limit <= MAX_PAGE_ROWS
    ensures var r := RunReader(identity, actions);
      var next := Act(identity, r, Read(true, limit));
      |next.seen| > |r.seen| || (next.caughtUp && |next.seen| == |next.log|)
  {
    RunIsFaithful(identity, actions);
    var r := RunReader(identity, actions);
    ReadKeepsFaithful(identity, r, true, limit);
  }

  /** A cursor presented to any other stream, tenant, kind or store is refused. */
  lemma ForeignCursorRefused<E>(h: string -> string, store: string, tenant: string, kind: string, id: string,
                                store': string, tenant': string, kind': string, id': string,
                                position: nat, log: seq<E>, limit: nat)
    requires IsDigest(h) && position < U64_LIMIT
    requires Fits(store) && Fits(tenant) && Fits(kind) && Fits(id)
    requires Fits(store') && Fits(tenant') && Fits(kind') && Fits(id')
    requires (store, tenant, kind, id) != (store', tenant', kind', id')
    ensures var cursor := EncodeEventCursor(FeedIdentity(h, store, tenant, kind, id), position);
      EventsPage(true, FeedIdentity(h, store', tenant', kind', id'), log, Some(cursor), limit) == BadCursor
  {
    var mine, other := FeedIdentity(h, store, tenant, kind, id), FeedIdentity(h, store', tenant', kind', id');
    if mine == other {
      FeedIdentityInjective(h, store, tenant, kind, id, store', tenant', kind', id');
    }
    HexFree(h, FrameAll(["service-event-feed/1", store, tenant, kind, id]), ':');
    EventCursorRoundTrip(mine, position, other);
  }
}
