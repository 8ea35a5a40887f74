/** The replay event table: an append-only log that skips what it already has
    (`append_events`). */
module EventLog {
  import opened Sequences

  datatype Event = Event(id: string, planId: Option<string>, symbol: string, eventDate: int, workflow: string,
                         eventType: string, dedupeKey: string, body: string)

  datatype Key = Key(symbol: string, eventDate: int, workflow: string, eventType: string, dedupeKey: string)

  function KeyOf(e: Event): Key {
    Key(e.symbol, e.eventDate, e.workflow, e.eventType, e.dedupeKey)
  }

  type Table = seq<Event>

  /** The insert violates the primary key, the unique key or the reference to a plan. */
  predicate Rejected(t: Table, plans: set<string>, e: Event) {
    || (e.planId.Some? && e.planId.value !in plans)
    || exists i :: 0 <= i < |t| && (t[i].id == e.id || KeyOf(t[i]) == KeyOf(e))
  }

  predicate Valid(t: Table, plans: set<string>) {
    && (forall i, j :: 0 <= i < j < |t| ==> t[i].id != t[j].id && KeyOf(t[i]) != KeyOf(t[j]))
    && (forall i :: 0 <= i < |t| && t[i].planId.Some? ==> t[i].planId.value in plans)
  }

  function Append(t: Table, plans: set<string>, batch: seq<Event>): Table {
    if batch == [] then t
    else
      var before := Append(t, plans, batch[..|batch| - 1]);
      var e := batch[|batch| - 1];
      if Rejected(before, plans, e) then before else before + [e]
  }

  // ----- what is appended, field by field -----

  /** The database refuses an event after another one with its id, or with its symbol, date, workflow, type
      and key. */
  predicate Clash(d: Event, e: Event) {
    || d.id == e.id
    || (d.symbol == e.symbol && d.eventDate == e.eventDate && d.workflow == e.workflow && d.eventType == e.eventType
        && d.dedupeKey == e.dedupeKey)
  }

  /** An event refers to a known plan or to none. */
  function HasKnownPlan(plans: set<string>): Event -> bool {
    (e: Event) => e.planId.None? || e.planId.value in plans
  }

  type Clashes = (Event, Event) -> bool

  /** The events at the positions `at` of the batch follow the table in order. Those do not clash with any
      row before them; every other event does, or is not accepted at all. */
  ghost predicate AppendsFirst(after: Table, t: Table, batch: seq<Event>, at: seq<nat>, clash: Clashes,
                               accepted: Event -> bool)
  {
    && |after| == |t| + |at| && t <= after
    && (forall m :: 0 <= m < |at| ==>
          && at[m] < |batch| && after[|t| + m] == batch[at[m]] && accepted(batch[at[m]])
          && forall i :: 0 <= i < |t| + m ==> !clash(after[i], batch[at[m]]))
    && (forall l, m :: 0 <= l < m < |at| ==> at[l] < at[m])
    && (forall k: nat :: k < |batch| && k !in at ==>
          !accepted(batch[k]) || ClashesBefore(after, t, batch, at, clash, k))
  }

  /** The event clashes with a row of the table or an event appended before it. */
  ghost predicate ClashesBefore(after: Table, t: Table, batch: seq<Event>, at: seq<nat>, clash: Clashes, k: nat)
    requires k < |batch| && |after| == |t| + |at|
  {
    exists i :: 0 <= i < |after| && clash(after[i], batch[k]) && (i < |t| || at[i - |t|] < k)
  }

  lemma OneMoreAppended(before: Table, t: Table, batch: seq<Event>, at: seq<nat>, clash: Clashes,
                        accepted: Event -> bool)
    requires batch != [] && AppendsFirst(before, t, batch[..|batch| - 1], at, clash, accepted)
    requires accepted(batch[|batch| - 1])
    requires forall i :: 0 <= i < |before| ==> !clash(before[i], batch[|batch| - 1])
    ensures AppendsFirst(before + [batch[|batch| - 1]], t, batch, at + [|batch| - 1], clash, accepted)
  {
    var n := |batch| - 1;
    var after, now := before + [batch[n]], at + [n];
    forall k: nat | k < |batch| && k !in now
      ensures !accepted(batch[k]) || ClashesBefore(after, t, batch, now, clash, k)
    {
      assert now[|at|] == n;
      assert k < n && k !in at by {
        assert forall m :: 0 <= m < |at| ==> now[m] == at[m];
      }
      if accepted(batch[k]) {
        assert batch[k] == batch[..n][k];
        assert ClashesBefore(before, t, batch[..n], at, clash, k);
        var i :| 0 <= i < |before| && clash(before[i], batch[k]) && (i < |t| || at[i - |t|] < k);
        assert after[i] == before[i];
      }
    }
  }

  lemma OneMoreLeftOut(before: Table, t: Table, batch: seq<Event>, at: seq<nat>, clash: Clashes,
                       accepted: Event -> bool)
    requires batch != [] && AppendsFirst(before, t, batch[..|batch| - 1], at, clash, accepted)
    requires accepted(batch[|batch| - 1]) ==> exists i :: 0 <= i < |before| && clash(before[i], batch[|batch| - 1])
    ensures AppendsFirst(before, t, batch, at, clash, accepted)
  {
    var n := |batch| - 1;
    forall k: nat | k < |batch| && k !in at
      ensures !accepted(batch[k]) || ClashesBefore(before, t, batch, at, clash, k)
    {
      if accepted(batch[k]) {
        if k < n {
          assert batch[k] == batch[..n][k];
          assert ClashesBefore(before, t, batch[..n], at, clash, k);
        } else {
          var i :| 0 <= i < |before| && clash(before[i], batch[n]);
          assert i < |t| || at[i - |t|] < n;
        }
      }
    }
  }

  lemma {:induction false} AppendFieldByField(t: Table, plans: set<string>, batch: seq<Event>) returns (at: seq<nat>)
    ensures AppendsFirst(Append(t, plans, batch), t, batch, at, Clash, HasKnownPlan(plans))
  {
    at := [];
    if batch != [] {
      var n := |batch| - 1;
      at := AppendFieldByField(t, plans, batch[..n]);
      var before := Append(t, plans, batch[..n]);
      assert Rejected(before, plans, batch[n]) <==>
             !HasKnownPlan(plans)(batch[n]) || exists i :: 0 <= i < |before| && Clash(before[i], batch[n]);
      if Rejected(before, plans, batch[n]) {
        OneMoreLeftOut(before, t, batch, at, Clash, HasKnownPlan(plans));
      } else {
        OneMoreAppended(before, t, batch, at, Clash, HasKnownPlan(plans));
        at := at + [n];
      }
    }
  }

  class EventStore {
    var rows: Table

    constructor ()
      ensures rows == []
    {
      rows := [];
    }

    method AppendEvents(plans: set<string>, batch: seq<Event>) returns (created: nat)
      modifies this
      ensures rows == Append(old(rows), plans, batch)
      ensures |rows| == |old(rows)| + created
      ensures exists at :: AppendsFirst(rows, old(rows), batch, at, Clash, HasKnownPlan(plans))
    {
      var at := AppendFieldByField(rows, plans, batch);
      created := 0;
      for k := 0 to |batch|
        invariant rows == Append(old(rows), plans, batch[..k])
        invariant |rows| == |old(rows)| + created
      {
        assert batch[..k + 1][..k] == batch[..k];
        if Rejected(rows, plans, batch[k]) {
          continue;
        }
        rows := rows + [batch[k]];
        created := created + 1;
      }
      assert batch[..|batch|] == batch;
    }
  }

  /** The log only grows, by events of the batch, and keeps its constraints. */
  lemma {:induction false} AppendKeepsLog(t: Table, plans: set<string>, batch: seq<Event>)
    ensures t <= Append(t, plans, batch)
    ensures forall e :: e in Append(t, plans, batch) ==> e in t || e in batch
    ensures Valid(t, plans) ==> Valid(Append(t, plans, batch), plans)
  {
    if batch != [] {
      AppendKeepsLog(t, plans, batch[..|batch| - 1]);
    }
  }

  /** One batch or the same events in two batches: the same table. */
  lemma {:induction false} SplittingBatchesChangesNothing(t: Table, plans: set<string>, first: seq<Event>,
                                                          second: seq<Event>)
    ensures Append(t, plans, first + second) == Append(Append(t, plans, first), plans, second)
  {
    if second == [] {
      assert first + second == first;
    } else {
      assert (first + second)[..|first + second| - 1] == first + second[..|second| - 1];
      SplittingBatchesChangesNothing(t, plans, first, second[..|second| - 1]);
    }
  }

  lemma RejectedForever(t: Table, more: Table, plans: set<string>, e: Event)
    requires t <= more && Rejected(t, plans, e)
    ensures Rejected(more, plans, e)
  {
    if i :| 0 <= i < |t| && (t[i].id == e.id || KeyOf(t[i]) == KeyOf(e)) {
      assert more[i] == t[i];
    }
  }

  /** After a batch, none of its events could be inserted again. */
  lemma {:induction false} NothingLeftToInsert(t: Table, plans: set<string>, batch: seq<Event>)
    ensures forall e :: e in batch ==> Rejected(Append(t, plans, batch), plans, e)
  {
    if batch != [] {
      var front, last := batch[..|batch| - 1], batch[|batch| - 1];
      var before, after := Append(t, plans, front), Append(t, plans, batch);
      NothingLeftToInsert(t, plans, front);
      forall e | e in batch ensures Rejected(after, plans, e) {
        if e in front {
          RejectedForever(before, after, plans, e);
        } else {
          assert e == last;
          assert after != before ==> after[|before|] == last;
        }
      }
    }
  }

  lemma {:induction false} AppendOfRejected(t: Table, plans: set<string>, batch: seq<Event>)
    requires forall e :: e in batch ==> Rejected(t, plans, e)
    ensures Append(t, plans, batch) == t
  {
    if batch != [] {
      AppendOfRejected(t, plans, batch[..|batch| - 1]);
    }
  }

  /** Replaying a batch, or any part of it in any order, adds nothing. */
  lemma ReplayAddsNothing(t: Table, plans: set<string>, batch: seq<Event>, replay: seq<Event>)
    requires forall e :: e in replay ==> e in batch
    ensures Append(Append(t, plans, batch), plans, replay) == Append(t, plans, batch)
  {
    NothingLeftToInsert(t, plans, batch);
    AppendOfRejected(Append(t, plans, batch), plans, replay);
  }

  /** The first event with a key wins: it is stored as it came if its plan is known and
      nothing before it, in the table or the batch, has its key or its id. */
  lemma FirstEventWins(t: Table, plans: set<string>, earlier: seq<Event>, e: Event, later: seq<Event>)
    requires e.planId.Some? ==> e.planId.value in plans
    requires forall x :: x in t || x in earlier ==> x.id != e.id && KeyOf(x) != KeyOf(e)
    ensures e in Append(t, plans, earlier + [e] + later)
  {
    var before := Append(t, plans, earlier);
    AppendKeepsLog(t, plans, earlier);
    forall i | 0 <= i < |before| ensures before[i].id != e.id && KeyOf(before[i]) != KeyOf(e) {
      assert before[i] in before;
    }
    assert (earlier + [e])[..|earlier|] == earlier;
    assert Append(t, plans, earlier + [e]) == before + [e];
    SplittingBatchesChangesNothing(t, plans, earlier + [e], later);
    AppendKeepsLog(before + [e], plans, later);
    var after := Append(t, plans, earlier + [e] + later);
    assert after[|before|] == e;
  }

  // ----- the in-memory store -----

  type Upper = string -> string

  function UpperKey(e: Event, upper: Upper): Key {
    KeyOf(e).(symbol := upper(e.symbol))
  }

  /** The store used locally and in tests: it looks at keys in upper case, and at nothing
      else. */
  function MemoryAppend(t: Table, batch: seq<Event>, upper: Upper): Table {
    if batch == [] then t
    else
      var before := MemoryAppend(t, batch[..|batch| - 1], upper);
      var e := batch[|batch| - 1];
      if exists i :: 0 <= i < |before| && UpperKey(before[i], upper) == UpperKey(e, upper) then before else before + [e]
  }

  predicate Anything(e: Event) {
    true
  }

  /** The in-memory store refuses an event after another one with the same fields, symbols in upper case. */
  function SameInUpperCase(upper: Upper): Clashes {
    (d: Event, e: Event) =>
      && upper(d.symbol) == upper(e.symbol) && d.eventDate == e.eventDate && d.workflow == e.workflow
      && d.eventType == e.eventType && d.dedupeKey == e.dedupeKey
  }

  lemma {:induction false} MemoryAppendFieldByField(t: Table, batch: seq<Event>, upper: Upper) returns (at: seq<nat>)
    ensures AppendsFirst(MemoryAppend(t, batch, upper), t, batch, at, SameInUpperCase(upper), Anything)
  {
    at := [];
    if batch != [] {
      var n := |batch| - 1;
      at := MemoryAppendFieldByField(t, batch[..n], upper);
      var before := MemoryAppend(t, batch[..n], upper);
      forall i | 0 <= i < |before|
        ensures SameInUpperCase(upper)(before[i], batch[n]) <==> UpperKey(before[i], upper) == UpperKey(batch[n], upper)
      {
      }
      if exists i :: 0 <= i < |before| && UpperKey(before[i], upper) == UpperKey(batch[n], upper) {
        OneMoreLeftOut(before, t, batch, at, SameInUpperCase(upper), Anything);
      } else {
        OneMoreAppended(before, t, batch, at, SameInUpperCase(upper), Anything);
        at := at + [n];
      }
    }
  }

  ghost predicate PlansKnown(events: iset<Event>, plans: set<string>) {
    forall e :: e in events && e.planId.Some? ==> e.planId.value in plans
  }

  /** Two of the events have the same key in upper case exactly when the database would refuse one
      after the other: same id, or same key as it stands. */
  ghost predicate KeysAgree(events: iset<Event>, upper: Upper) {
    forall d, e :: d in events && e in events ==>
      (UpperKey(d, upper) == UpperKey(e, upper) <==> d.id == e.id || KeyOf(d) == KeyOf(e))
  }

  ghost predicate DrawnFrom(s: seq<Event>, events: iset<Event>) {
    forall e :: e in s ==> e in events
  }

  /** On events whose plans are known and whose keys agree both stores give the same log. */
  lemma {:induction false} MemoryStoreAgrees(t: Table, plans: set<string>, batch: seq<Event>, upper: Upper,
                                             events: iset<Event>)
    requires PlansKnown(events, plans) && KeysAgree(events, upper) && DrawnFrom(t, events) && DrawnFrom(batch, events)
    ensures MemoryAppend(t, batch, upper) == Append(t, plans, batch)
  {
    if batch != [] {
      var front, last := batch[..|batch| - 1], batch[|batch| - 1];
      assert batch == front + [last];
      assert last in batch;
      MemoryStoreAgrees(t, plans, front, upper, events);
      AppendKeepsLog(t, plans, front);
      var before := Append(t, plans, front);
      forall i | 0 <= i < |before|
        ensures UpperKey(before[i], upper) == UpperKey(last, upper) <==>
                before[i].id == last.id || KeyOf(before[i]) == KeyOf(last)
      {
        assert before[i] in before;
      }
    }
  }

  /** The in-memory store is meant to have the same idempotency semantics. Over a set of events it
      has them, for every table and batch drawn from the set, if and only if the plans are known and
      the keys agree; it is enough to look at batches on an empty log. */
  lemma MemoryStoreAgreesExactlyWhen(events: iset<Event>, plans: set<string>, upper: Upper)
    ensures PlansKnown(events, plans) && KeysAgree(events, upper) <==>
      forall t, batch :: DrawnFrom(t, events) && DrawnFrom(batch, events) ==>
        MemoryAppend(t, batch, upper) == Append(t, plans, batch)
    ensures PlansKnown(events, plans) && KeysAgree(events, upper) <==>
      forall batch :: DrawnFrom(batch, events) ==> MemoryAppend([], batch, upper) == Append([], plans, batch)
  {
    if PlansKnown(events, plans) && KeysAgree(events, upper) {
      forall t, batch | DrawnFrom(t, events) && DrawnFrom(batch, events)
        ensures MemoryAppend(t, batch, upper) == Append(t, plans, batch)
      {
        MemoryStoreAgrees(t, plans, batch, upper, events);
      }
    } else {
      var batch := BatchToldApart(events, plans, upper);
      assert DrawnFrom([], events);
    }
  }

  lemma BatchToldApart(events: iset<Event>, plans: set<string>, upper: Upper) returns (batch: seq<Event>)
    requires !(PlansKnown(events, plans) && KeysAgree(events, upper))
    ensures DrawnFrom(batch, events) && MemoryAppend([], batch, upper) != Append([], plans, batch)
  {
    if e :| e in events && e.planId.Some? && e.planId.value !in plans {
      batch := [e];
      assert batch[..0] == [];
      assert MemoryAppend([], batch, upper) == [e] && Append([], plans, batch) == [];
    } else {
      var d, e :| d in events && e in events
        && !(UpperKey(d, upper) == UpperKey(e, upper) <==> d.id == e.id || KeyOf(d) == KeyOf(e));
      batch := [d, e];
      PairOfEvents(d, e, plans, upper);
    }
  }

  lemma PairOfEvents(d: Event, e: Event, plans: set<string>, upper: Upper)
    requires (d.planId.Some? ==> d.planId.value in plans) && (e.planId.Some? ==> e.planId.value in plans)
    ensures MemoryAppend([], [d, e], upper) == if UpperKey(d, upper) == UpperKey(e, upper) then [d] else [d, e]
    ensures Append([], plans, [d, e]) == if d.id == e.id || KeyOf(d) == KeyOf(e) then [d] else [d, e]
  {
    assert [d, e][..1] == [d] && [d][..0] == [];
    assert MemoryAppend([], [d], upper) == [d] && Append([], plans, [d]) == [d];
    assert [d][0] == d;
  }

  /** Two events of one key in different case: the in-memory store keeps the first, the database both. */
  lemma MixedCaseIsToldApart(e: Event, plans: set<string>, upper: Upper)
    requires upper("AB") == upper("ab") && (e.planId.Some? ==> e.planId.value in plans)
    ensures var d := e.(symbol := "AB", id := "1");
            var f := e.(symbol := "ab", id := "2");
            MemoryAppend([], [d, f], upper) == [d] && Append([], plans, [d, f]) == [d, f]
  {
    var d, f := e.(symbol := "AB", id := "1"), e.(symbol := "ab", id := "2");
    assert KeyOf(d).symbol[0] != KeyOf(f).symbol[0];
    assert d.id[0] != f.id[0];
    PairOfEvents(d, f, plans, upper);
  }
}
