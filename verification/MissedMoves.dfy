/** The missed-move table of the trade replay store
    (`app/adapters/trade_replay_oracle_store.py`): a primary key, two unique keys, an upsert
    on one of them and a fallback update on the other, in one transaction per batch. */
module MissedMoves {
  import opened Sequences

  datatype Scope = Scope(symbol: string, eventDate: int, workflow: string)

  datatype Move = Move(id: string, scope: Scope, setupType: string, direction: string, triggerId: string,
                       terminalId: string, details: string, createdAt: int, updatedAt: int)

  datatype NaturalKey = NaturalKey(scope: Scope, setupType: string, direction: string)

  datatype StoryKey = StoryKey(scope: Scope, triggerId: string, terminalId: string)

  function NaturalOf(m: Move): NaturalKey {
    NaturalKey(m.scope, m.setupType, m.direction)
  }

  function StoryOf(m: Move): StoryKey {
    StoryKey(m.scope, m.triggerId, m.terminalId)
  }

  /** Rows by primary key. */
  type Table = map<string, Move>

  predicate HasNatural(t: Table, k: NaturalKey) {
    exists id :: id in t && NaturalOf(t[id]) == k
  }

  predicate HasStory(t: Table, k: StoryKey) {
    exists id :: id in t && StoryOf(t[id]) == k
  }

  /** The constraints declared in `ensure_schema`. */
  predicate Valid(t: Table) {
    && (forall id :: id in t ==> t[id].id == id)
    && (forall a, b :: a in t && b in t && NaturalOf(t[a]) == NaturalOf(t[b]) ==> a == b)
    && (forall a, b :: a in t && b in t && StoryOf(t[a]) == StoryOf(t[b]) ==> a == b)
  }

  // ----- the SQL statements: each either applies or violates a constraint -----

  datatype Violation = ConstraintViolated

  function Checked(t: Table): Result<Table, Violation> {
    if Valid(t) then Success(t) else Failure(ConstraintViolated)
  }

  /** `WHEN MATCHED THEN UPDATE`: identity, keys matched on and creation time stay. */
  function Overwrite(row: Move, m: Move): Move {
    row.(triggerId := m.triggerId, terminalId := m.terminalId, details := m.details, updatedAt := m.updatedAt)
  }

  function MatchedUpdate(t: Table, m: Move): Table {
    map id | id in t :: if NaturalOf(t[id]) == NaturalOf(m) then Overwrite(t[id], m) else t[id]
  }

  /** `MERGE ... ON` the natural key. */
  function Merge(t: Table, m: Move): Result<Table, Violation> {
    if HasNatural(t, NaturalOf(m)) then Checked(MatchedUpdate(t, m))
    else if m.id in t then Failure(ConstraintViolated)
    else Checked(t[m.id := m])
  }

  /** `UPDATE ... WHERE` the story key: sets the natural key of the row instead. */
  function Rename(row: Move, m: Move): Move {
    row.(setupType := m.setupType, direction := m.direction, details := m.details, updatedAt := m.updatedAt)
  }

  function StoryUpdate(t: Table, m: Move): Table {
    map id | id in t :: if StoryOf(t[id]) == StoryOf(m) then Rename(t[id], m) else t[id]
  }

  function UpdateByStoryKey(t: Table, m: Move): Result<Table, Violation> {
    Checked(StoryUpdate(t, m))
  }

  // ----- saving -----

  /** The working state of a batch: uncommitted rows and the two counters. */
  datatype Work = Work(rows: Table, created: nat, updated: nat)

  type Upper = string -> string

  /** The existence check looks the symbol up in upper case, the statements do not. */
  function LookedUp(m: Move, upper: Upper): NaturalKey {
    NaturalOf(m.(scope := m.scope.(symbol := upper(m.scope.symbol))))
  }

  function SaveOne(w: Work, m: Move, upper: Upper): Result<Work, Violation> {
    var existed := HasNatural(w.rows, LookedUp(m, upper));
    var merged := Merge(w.rows, m);
    if merged.Success? then
      Success(if existed then Work(merged.value, w.created, w.updated + 1)
              else Work(merged.value, w.created + 1, w.updated))
    else
      var renamed := UpdateByStoryKey(w.rows, m);
      if renamed.Success? then Success(Work(renamed.value, w.created, w.updated + 1)) else Failure(ConstraintViolated)
  }

  function SaveAll(rows: Table, batch: seq<Move>, upper: Upper): Result<Work, Violation> {
    if batch == [] then Success(Work(rows, 0, 0))
    else
      var before := SaveAll(rows, batch[..|batch| - 1], upper);
      if before.Failure? then before else SaveOne(before.value, batch[|batch| - 1], upper)
  }

  // ----- what a save does, field by field -----

  predicate InScope(row: Move, m: Move) {
    row.scope.symbol == m.scope.symbol && row.scope.eventDate == m.scope.eventDate
    && row.scope.workflow == m.scope.workflow
  }

  predicate SameMove(row: Move, m: Move) {
    InScope(row, m) && row.setupType == m.setupType && row.direction == m.direction
  }

  predicate SameEvents(row: Move, m: Move) {
    InScope(row, m) && row.triggerId == m.triggerId && row.terminalId == m.terminalId
  }

  /** The move is that of one row and its two events are those of another. */
  ghost predicate BetweenTwoRows(t: Table, m: Move) {
    exists a, b :: a in t && b in t && a != b && SameMove(t[a], m) && SameEvents(t[b], m)
  }

  /** The row with the move, or else with the events, becomes the record, and keeps its id and its creation
      time. A record that is neither is inserted, unless its id is taken. */
  ghost predicate Puts(t: Table, after: Table, m: Move) {
    if exists id :: id in t && (SameMove(t[id], m) || SameEvents(t[id], m)) then
      exists id :: id in t && (SameMove(t[id], m) || SameEvents(t[id], m))
        && after == t[id := Move(t[id].id, m.scope, m.setupType, m.direction, m.triggerId, m.terminalId, m.details,
                                 t[id].createdAt, m.updatedAt)]
    else after == if m.id in t then t else t[m.id := m]
  }

  /** A record counts as created if no row has the move with the symbol in upper case, and the merge put it
      there: on the row with the move, or on a new one. */
  ghost predicate CountsAsCreated(t: Table, m: Move, upper: Upper) {
    && (forall id :: id in t ==>
          !SameMove(t[id], m.(scope := Scope(upper(m.scope.symbol), m.scope.eventDate, m.scope.workflow))))
    && ((exists id :: id in t && SameMove(t[id], m))
        || (m.id !in t && forall id :: id in t ==> !SameEvents(t[id], m)))
  }

  /** The tables a batch goes through. */
  ghost predicate IsHistory(states: seq<Table>, before: Table, batch: seq<Move>) {
    && |states| == |batch| + 1 && states[0] == before
    && forall k :: 0 <= k < |batch| ==> !BetweenTwoRows(states[k], batch[k]) && Puts(states[k], states[k + 1], batch[k])
  }

  ghost function CreatedAt(states: seq<Table>, batch: seq<Move>, upper: Upper): (at: set<nat>)
    requires |states| == |batch| + 1
    ensures forall k: nat :: k in at <==> k < |batch| && CountsAsCreated(states[k], batch[k], upper)
  {
    set k: nat | k < |batch| && CountsAsCreated(states[k], batch[k], upper)
  }

  /** A batch that gets through its history is stored and counted. */
  ghost predicate Commits(before: Table, after: Table, created: nat, batch: seq<Move>, upper: Upper) {
    exists states ::
      IsHistory(states, before, batch) && after == states[|batch|] && created == |CreatedAt(states, batch, upper)|
  }

  /** Some record of the batch finds its move and its events on two rows. */
  ghost predicate Aborts(before: Table, batch: seq<Move>) {
    exists states, k :: 0 <= k < |batch| && IsHistory(states, before, batch[..k]) && BetweenTwoRows(states[k], batch[k])
  }

  lemma KeysFieldByField(row: Move, m: Move)
    ensures NaturalOf(row) == NaturalOf(m) <==> SameMove(row, m)
    ensures StoryOf(row) == StoryOf(m) <==> SameEvents(row, m)
  {
  }

  lemma ClashFieldByField(t: Table, m: Move)
    ensures KeysClash(t, m) <==> BetweenTwoRows(t, m)
  {
    forall id | id in t
      ensures NaturalOf(t[id]) == NaturalOf(m) <==> SameMove(t[id], m)
      ensures StoryOf(t[id]) == StoryOf(m) <==> SameEvents(t[id], m)
    {
      KeysFieldByField(t[id], m);
    }
  }

  function RecordOn(row: Move, m: Move): Move {
    Move(row.id, m.scope, m.setupType, m.direction, m.triggerId, m.terminalId, m.details, row.createdAt, m.updatedAt)
  }

  lemma MergedFieldByField(t: Table, m: Move)
    requires Valid(t) && HasNatural(t, NaturalOf(m)) && !KeysClash(t, m)
    ensures Puts(t, MatchedUpdate(t, m), m)
  {
    var a :| a in t && NaturalOf(t[a]) == NaturalOf(m);
    KeysFieldByField(t[a], m);
    assert MatchedUpdate(t, m) == t[a := RecordOn(t[a], m)];
  }

  lemma RenamedFieldByField(t: Table, m: Move)
    requires Valid(t) && HasStory(t, StoryOf(m)) && !HasNatural(t, NaturalOf(m))
    ensures Puts(t, StoryUpdate(t, m), m)
  {
    var b :| b in t && StoryOf(t[b]) == StoryOf(m);
    KeysFieldByField(t[b], m);
    assert StoryUpdate(t, m) == t[b := RecordOn(t[b], m)];
  }

  lemma NewFieldByField(t: Table, after: Table, m: Move)
    requires !HasNatural(t, NaturalOf(m)) && !HasStory(t, StoryOf(m))
    requires after == if m.id in t then t else t[m.id := m]
    ensures Puts(t, after, m)
  {
    forall id | id in t ensures !SameMove(t[id], m) && !SameEvents(t[id], m) {
      KeysFieldByField(t[id], m);
    }
  }

  lemma MergedRows(t: Table, m: Move)
    ensures Merge(t, m).Success? ==>
      Merge(t, m).value == if HasNatural(t, NaturalOf(m)) then MatchedUpdate(t, m) else t[m.id := m]
  {
  }

  lemma SaveOneRows(w: Work, m: Move, upper: Upper)
    requires Valid(w.rows) && !KeysClash(w.rows, m)
    ensures SaveOne(w, m, upper).Success? && SaveOne(w, m, upper).value.rows ==
      if HasNatural(w.rows, NaturalOf(m)) then MatchedUpdate(w.rows, m)
      else if HasStory(w.rows, StoryOf(m)) then StoryUpdate(w.rows, m)
      else if m.id in w.rows then w.rows else w.rows[m.id := m]
  {
    MergeOutcome(w.rows, m);
    MergedRows(w.rows, m);
    StoryUpdatedRows(w.rows, m);
  }

  lemma StoryUpdatedRows(t: Table, m: Move)
    requires Valid(t) && !KeysClash(t, m)
    ensures UpdateByStoryKey(t, m) == Success(if HasStory(t, StoryOf(m)) then StoryUpdate(t, m) else t)
  {
    StoryUpdateOutcome(t, m);
  }

  lemma SaveOnePuts(w: Work, m: Move, upper: Upper)
    requires Valid(w.rows) && SaveOne(w, m, upper).Success?
    ensures !BetweenTwoRows(w.rows, m) && Puts(w.rows, SaveOne(w, m, upper).value.rows, m)
  {
    SaveOneOutcome(w, m, upper);
    ClashFieldByField(w.rows, m);
    RowsArePut(w.rows, m);
    SaveOneRows(w, m, upper);
  }

  lemma RowsArePut(t: Table, m: Move)
    requires Valid(t) && !KeysClash(t, m)
    ensures Puts(t, if HasNatural(t, NaturalOf(m)) then MatchedUpdate(t, m)
                    else if HasStory(t, StoryOf(m)) then StoryUpdate(t, m)
                    else if m.id in t then t else t[m.id := m], m)
  {
    if HasNatural(t, NaturalOf(m)) {
      MergedFieldByField(t, m);
    } else if HasStory(t, StoryOf(m)) {
      RenamedFieldByField(t, m);
    } else {
      NewFieldByField(t, if m.id in t then t else t[m.id := m], m);
    }
  }

  lemma LookUpFieldByField(t: Table, m: Move, upper: Upper)
    ensures HasNatural(t, LookedUp(m, upper)) <==>
      exists id :: id in t
        && SameMove(t[id], m.(scope := Scope(upper(m.scope.symbol), m.scope.eventDate, m.scope.workflow)))
  {
    var up := m.(scope := Scope(upper(m.scope.symbol), m.scope.eventDate, m.scope.workflow));
    forall id | id in t ensures NaturalOf(t[id]) == LookedUp(m, upper) <==> SameMove(t[id], up) {
      KeysFieldByField(t[id], up);
    }
  }

  lemma MergeCounts(t: Table, m: Move)
    requires Valid(t) && !KeysClash(t, m)
    ensures Merge(t, m).Success? <==>
      (exists id :: id in t && SameMove(t[id], m)) || (m.id !in t && forall id :: id in t ==> !SameEvents(t[id], m))
  {
    MergeOutcome(t, m);
    forall id | id in t
      ensures NaturalOf(t[id]) == NaturalOf(m) <==> SameMove(t[id], m)
      ensures StoryOf(t[id]) == StoryOf(m) <==> SameEvents(t[id], m)
    {
      KeysFieldByField(t[id], m);
    }
  }

  lemma SaveOneCounts(w: Work, m: Move, upper: Upper)
    requires Valid(w.rows) && SaveOne(w, m, upper).Success?
    ensures SaveOne(w, m, upper).value.created
            == w.created + if CountsAsCreated(w.rows, m, upper) then 1 else 0
  {
    SaveOneOutcome(w, m, upper);
    LookUpFieldByField(w.rows, m, upper);
    MergeCounts(w.rows, m);
  }

  lemma OneMoreInHistory(states: seq<Table>, before: Table, batch: seq<Move>, after: Table)
    requires batch != [] && IsHistory(states, before, batch[..|batch| - 1])
    requires !BetweenTwoRows(states[|batch| - 1], batch[|batch| - 1])
    requires Puts(states[|batch| - 1], after, batch[|batch| - 1])
    ensures IsHistory(states + [after], before, batch)
  {
    var n := |batch| - 1;
    var now := states + [after];
    forall k | 0 <= k < |batch| ensures !BetweenTwoRows(now[k], batch[k]) && Puts(now[k], now[k + 1], batch[k]) {
      if k < n {
        assert now[k] == states[k] && now[k + 1] == states[k + 1] && batch[k] == batch[..n][k];
      }
    }
  }

  lemma OneMoreCounted(states: seq<Table>, batch: seq<Move>, after: Table, upper: Upper)
    requires batch != [] && |states| == |batch|
    ensures |CreatedAt(states + [after], batch, upper)| == |CreatedAt(states, batch[..|batch| - 1], upper)|
              + if CountsAsCreated(states[|batch| - 1], batch[|batch| - 1], upper) then 1 else 0
  {
    var n := |batch| - 1;
    var at, now := CreatedAt(states, batch[..n], upper), CreatedAt(states + [after], batch, upper);
    forall k: nat ensures k in now <==> k in at || (k == n && CountsAsCreated(states[n], batch[n], upper)) {
      if k < n {
        assert (states + [after])[k] == states[k] && batch[k] == batch[..n][k];
      }
    }
    assert now == if CountsAsCreated(states[n], batch[n], upper) then at + {n} else at;
  }

  lemma {:induction false} SaveAllHasHistory(rows: Table, batch: seq<Move>, upper: Upper) returns (states: seq<Table>)
    requires Valid(rows) && SaveAll(rows, batch, upper).Success?
    ensures IsHistory(states, rows, batch) && states[|batch|] == SaveAll(rows, batch, upper).value.rows
    ensures SaveAll(rows, batch, upper).value.created == |CreatedAt(states, batch, upper)|
  {
    if batch == [] {
      states := [rows];
      assert CreatedAt(states, batch, upper) == {};
    } else {
      var n := |batch| - 1;
      states := SaveAllHasHistory(rows, batch[..n], upper);
      var w := SaveAll(rows, batch[..n], upper).value;
      BatchKeepsConstraintsAndCounts(rows, batch[..n], upper);
      SaveOnePuts(w, batch[n], upper);
      SaveOneCounts(w, batch[n], upper);
      var after := SaveAll(rows, batch, upper).value.rows;
      OneMoreInHistory(states, rows, batch, after);
      OneMoreCounted(states, batch, after, upper);
      states := states + [after];
    }
  }

  lemma {:induction false} SaveAllAborts(rows: Table, batch: seq<Move>, upper: Upper)
    requires Valid(rows) && SaveAll(rows, batch, upper).Failure?
    ensures Aborts(rows, batch)
  {
    var n := |batch| - 1;
    if SaveAll(rows, batch[..n], upper).Failure? {
      SaveAllAborts(rows, batch[..n], upper);
      var states, k :|
        0 <= k < n && IsHistory(states, rows, batch[..n][..k]) && BetweenTwoRows(states[k], batch[..n][k]);
      assert batch[..n][..k] == batch[..k];
    } else {
      var states := SaveAllHasHistory(rows, batch[..n], upper);
      var w := SaveAll(rows, batch[..n], upper).value;
      BatchKeepsConstraintsAndCounts(rows, batch[..n], upper);
      SaveOneOutcome(w, batch[n], upper);
      ClashFieldByField(w.rows, batch[n]);
    }
  }

  lemma SaveAllFieldByField(rows: Table, batch: seq<Move>, upper: Upper)
    requires Valid(rows)
    ensures var saved := SaveAll(rows, batch, upper);
            if saved.Success? then
              Valid(saved.value.rows) && Commits(rows, saved.value.rows, saved.value.created, batch, upper)
            else Aborts(rows, batch)
  {
    if SaveAll(rows, batch, upper).Success? {
      var states := SaveAllHasHistory(rows, batch, upper);
      BatchKeepsConstraintsAndCounts(rows, batch, upper);
    } else {
      SaveAllAborts(rows, batch, upper);
    }
  }

  class MissedMoveStore {
    var rows: Table

    constructor ()
      ensures rows == map[] && Valid(rows)
    {
      rows := map[];
    }

    /** Saves a batch in one transaction. A violation in the fallback update aborts it: the
        exception leaves before the commit and nothing is kept. */
    method SaveMissedMoves(batch: seq<Move>, upper: Upper) returns (r: Result<nat, Violation>)
      modifies this
      ensures var saved := SaveAll(old(rows), batch, upper);
              && rows == (if saved.Success? then saved.value.rows else old(rows))
              && r == (if saved.Success? then Success(saved.value.created) else Failure(ConstraintViolated))
      ensures Valid(old(rows)) ==> Valid(rows)
      ensures Valid(old(rows)) && r.Success? ==> Commits(old(rows), rows, r.value, batch, upper)
      ensures Valid(old(rows)) && r.Failure? ==> rows == old(rows) && Aborts(rows, batch)
    {
      if Valid(rows) {
        SaveAllFieldByField(rows, batch, upper);
      }
      if batch == [] {
        return Success(0);
      }
      var work := Work(rows, 0, 0);
      for k := 0 to |batch|
        invariant rows == old(rows) && SaveAll(rows, batch[..k], upper) == Success(work)
      {
        assert batch[..k + 1][..k] == batch[..k];
        var m := batch[k];
        var existed := HasNatural(work.rows, LookedUp(m, upper));
        var merged := Merge(work.rows, m);
        if merged.Success? {
          if existed {
            work := Work(merged.value, work.created, work.updated + 1);
          } else {
            work := Work(merged.value, work.created + 1, work.updated);
          }
        } else {
          var renamed := UpdateByStoryKey(work.rows, m);
          if renamed.Failure? {
            AbortLasts(rows, batch, k + 1, upper);
            return Failure(ConstraintViolated);
          }
          work := Work(renamed.value, work.created, work.updated + 1);
        }
      }
      assert batch[..|batch|] == batch;
      rows := work.rows;
      return Success(work.created);
    }
  }

  lemma {:induction false} AbortLasts(rows: Table, batch: seq<Move>, k: nat, upper: Upper)
    requires k <= |batch| && SaveAll(rows, batch[..k], upper).Failure?
    ensures SaveAll(rows, batch, upper).Failure?
  {
    if k == |batch| {
      assert batch[..k] == batch;
    } else {
      assert batch[..|batch| - 1][..k] == batch[..k];
      AbortLasts(rows, batch[..|batch| - 1], k, upper);
    }
  }

  // ----- what one save does -----

  /** The row that carries what was saved. */
  predicate Stores(t: Table, m: Move) {
    exists id :: id in t && Carries(t[id], m)
  }

  predicate Carries(row: Move, m: Move) {
    NaturalOf(row) == NaturalOf(m) && StoryOf(row) == StoryOf(m) && row.details == m.details &&
      row.updatedAt == m.updatedAt
  }

  /** The two keys of the record belong to two different rows. */
  predicate KeysClash(t: Table, m: Move) {
    exists a, b :: a in t && b in t && a != b && NaturalOf(t[a]) == NaturalOf(m) && StoryOf(t[b]) == StoryOf(m)
  }

  predicate IsNew(t: Table, m: Move) {
    !HasNatural(t, NaturalOf(m)) && !HasStory(t, StoryOf(m))
  }

  /** Rows with neither key of the record are left alone, and no row disappears. */
  predicate OthersKept(before: Table, after: Table, m: Move) {
    && before.Keys <= after.Keys
    && forall id :: id in before && NaturalOf(before[id]) != NaturalOf(m) && StoryOf(before[id]) != StoryOf(m) ==>
         after[id] == before[id]
  }

  lemma MergeOutcome(t: Table, m: Move)
    requires Valid(t)
    ensures Merge(t, m).Success? <==>
      if HasNatural(t, NaturalOf(m)) then !KeysClash(t, m) else !HasStory(t, StoryOf(m)) && m.id !in t
    ensures Merge(t, m).Success? ==>
      var after := Merge(t, m).value;
      && Valid(after) && OthersKept(t, after, m) && Stores(after, m)
      && |after| == |t| + if HasNatural(t, NaturalOf(m)) then 0 else 1
  {
    if HasNatural(t, NaturalOf(m)) {
      MatchedUpdateOutcome(t, m);
    } else if m.id !in t {
      InsertOutcome(t, m);
    }
  }

  lemma MatchedUpdateOutcome(t: Table, m: Move)
    requires Valid(t) && HasNatural(t, NaturalOf(m))
    ensures Valid(MatchedUpdate(t, m)) <==> !KeysClash(t, m)
    ensures OthersKept(t, MatchedUpdate(t, m), m) && Stores(MatchedUpdate(t, m), m)
    ensures |MatchedUpdate(t, m)| == |t|
  {
    var after := MatchedUpdate(t, m);
    var a :| a in t && NaturalOf(t[a]) == NaturalOf(m);
    assert after.Keys == t.Keys;
    assert after == t[a := Overwrite(t[a], m)];
    assert Carries(after[a], m);
    if KeysClash(t, m) {
      var b :| b in t && a != b && StoryOf(t[b]) == StoryOf(m);
      assert StoryOf(after[a]) == StoryOf(after[b]);
    }
  }

  lemma InsertOutcome(t: Table, m: Move)
    requires Valid(t) && !HasNatural(t, NaturalOf(m)) && m.id !in t
    ensures Valid(t[m.id := m]) <==> !HasStory(t, StoryOf(m))
    ensures OthersKept(t, t[m.id := m], m) && Stores(t[m.id := m], m)
    ensures |t[m.id := m]| == |t| + 1
  {
    var after := t[m.id := m];
    assert Carries(after[m.id], m);
    assert after.Keys == t.Keys + {m.id};
    InsertKeepsKeys(t, m);
  }

  lemma InsertKeepsKeys(t: Table, m: Move)
    requires Valid(t) && !HasNatural(t, NaturalOf(m)) && m.id !in t
    ensures Valid(t[m.id := m]) <==> !HasStory(t, StoryOf(m))
  {
    var after := t[m.id := m];
    if HasStory(t, StoryOf(m)) {
      var b :| b in t && StoryOf(t[b]) == StoryOf(m);
      assert StoryOf(after[b]) == StoryOf(after[m.id]);
    }
  }

  lemma StoryUpdateOutcome(t: Table, m: Move)
    requires Valid(t)
    ensures Valid(StoryUpdate(t, m)) <==> !KeysClash(t, m)
    ensures OthersKept(t, StoryUpdate(t, m), m) && |StoryUpdate(t, m)| == |t|
    ensures if HasStory(t, StoryOf(m)) then Stores(StoryUpdate(t, m), m) else StoryUpdate(t, m) == t
  {
    assert StoryUpdate(t, m).Keys == t.Keys;
    if HasStory(t, StoryOf(m)) {
      var b :| b in t && StoryOf(t[b]) == StoryOf(m);
      RenameOutcome(t, m, b);
      assert StoryUpdate(t, m) == t[b := Rename(t[b], m)];
    } else {
      assert StoryUpdate(t, m) == t;
    }
  }

  lemma RenameOutcome(t: Table, m: Move, b: string)
    requires Valid(t) && b in t && StoryOf(t[b]) == StoryOf(m)
    ensures Valid(t[b := Rename(t[b], m)]) <==> !KeysClash(t, m)
    ensures Stores(t[b := Rename(t[b], m)], m)
  {
    var after := t[b := Rename(t[b], m)];
    assert Carries(after[b], m);
    if KeysClash(t, m) {
      var a :| a in t && a != b && NaturalOf(t[a]) == NaturalOf(m);
      assert NaturalOf(after[a]) == NaturalOf(after[b]);
    }
  }

  /** Saving one record aborts exactly when its two keys belong to different rows. Otherwise
      the record is stored, one way or another, unless it is new and its id is taken: then
      nothing is written and it still counts as updated. */
  lemma SaveOneOutcome(w: Work, m: Move, upper: Upper)
    requires Valid(w.rows)
    ensures SaveOne(w, m, upper).Failure? <==> KeysClash(w.rows, m)
    ensures SaveOne(w, m, upper).Success? ==>
      var after := SaveOne(w, m, upper).value;
      var lost := IsNew(w.rows, m) && m.id in w.rows;
      var added := IsNew(w.rows, m) && m.id !in w.rows;
      && Valid(after.rows) && OthersKept(w.rows, after.rows, m)
      && (if lost then after.rows == w.rows else Stores(after.rows, m))
      && |after.rows| == |w.rows| + (if added then 1 else 0)
      && after.created + after.updated == w.created + w.updated + 1
      && (lost ==> after.created == w.created)
      && (upper(m.scope.symbol) == m.scope.symbol ==> after.created == w.created + (if added then 1 else 0))
  {
    MergeOutcome(w.rows, m);
    if Merge(w.rows, m).Failure? {
      StoryUpdateOutcome(w.rows, m);
    }
    if SaveOne(w, m, upper).Success? && upper(m.scope.symbol) == m.scope.symbol {
      assert LookedUp(m, upper) == NaturalOf(m);
    }
  }

  // ----- batches and runs -----

  /** Over a batch that commits: the constraints hold, every record is counted once, and for
      upper-case symbols `created` is the number of rows added. */
  lemma {:induction false} BatchKeepsConstraintsAndCounts(rows: Table, batch: seq<Move>, upper: Upper)
    requires Valid(rows) && SaveAll(rows, batch, upper).Success?
    ensures var w := SaveAll(rows, batch, upper).value;
            && Valid(w.rows) && rows.Keys <= w.rows.Keys
            && w.created + w.updated == |batch|
            && ((forall m :: m in batch ==> upper(m.scope.symbol) == m.scope.symbol) ==> |w.rows| == |rows| + w.created)
  {
    if batch != [] {
      var front, last := batch[..|batch| - 1], batch[|batch| - 1];
      assert forall m :: m in front ==> m in batch;
      BatchKeepsConstraintsAndCounts(rows, front, upper);
      SaveOneOutcome(SaveAll(rows, front, upper).value, last, upper);
    }
  }

  /** The count is right for every table exactly for symbols that are their own upper case:
      saving any other symbol twice counts two creations for one row. */
  lemma CreatedCountsRowsExactlyForUpperCase(m: Move, upper: Upper)
    ensures upper(m.scope.symbol) == m.scope.symbol <==>
      forall rows :: Valid(rows) && SaveAll(rows, [m], upper).Success? ==>
        |SaveAll(rows, [m], upper).value.rows| == |rows| + SaveAll(rows, [m], upper).value.created
  {
    if upper(m.scope.symbol) == m.scope.symbol {
      forall rows | Valid(rows) && SaveAll(rows, [m], upper).Success?
        ensures |SaveAll(rows, [m], upper).value.rows| == |rows| + SaveAll(rows, [m], upper).value.created
      {
        BatchKeepsConstraintsAndCounts(rows, [m], upper);
      }
    } else {
      var rows: Table := map[m.id := m];
      assert HasNatural(rows, NaturalOf(m)) && !KeysClash(rows, m) && !HasNatural(rows, LookedUp(m, upper));
      assert Valid(rows);
      assert [m][..0] == [] && SaveAll(rows, [], upper) == Success(Work(rows, 0, 0));
      SaveOneOutcome(Work(rows, 0, 0), m, upper);
      MergeOutcome(rows, m);
      assert SaveAll(rows, [m], upper) == SaveOne(Work(rows, 0, 0), m, upper);
    }
  }

  /** The record shares no key with any of the others. */
  predicate KeysUnusedBy(m: Move, others: seq<Move>) {
    forall x :: x in others ==> NaturalOf(x) != NaturalOf(m) && StoryOf(x) != StoryOf(m)
  }

  lemma StoredUntilKeyIsReused(t: Table, after: Table, m: Move, x: Move)
    requires Stores(t, m) && OthersKept(t, after, x) && NaturalOf(x) != NaturalOf(m) && StoryOf(x) != StoryOf(m)
    ensures Stores(after, m)
  {
    var id :| id in t && Carries(t[id], m);
    assert after[id] == t[id];
  }

  /** The latest write wins: a saved record is in the table after the batch unless a later
      one used one of its keys, or it was lost to a taken id. */
  lemma {:induction false} LatestWriteWins(rows: Table, earlier: seq<Move>, m: Move, later: seq<Move>, upper: Upper)
    requires Valid(rows) && SaveAll(rows, earlier + [m] + later, upper).Success? && KeysUnusedBy(m, later)
    ensures SaveAll(rows, earlier, upper).Success?
    ensures var before := SaveAll(rows, earlier, upper).value.rows;
            (IsNew(before, m) && m.id in before) || Stores(SaveAll(rows, earlier + [m] + later, upper).value.rows, m)
  {
    var batch := earlier + [m] + later;
    if later == [] {
      assert batch[..|batch| - 1] == earlier && batch[|batch| - 1] == m;
      LastIsSaved(rows, batch, upper);
    } else {
      var fewer, x := later[..|later| - 1], later[|later| - 1];
      assert x in later && KeysUnusedBy(m, fewer);
      assert batch[..|batch| - 1] == earlier + [m] + fewer && batch[|batch| - 1] == x;
      LastIsSaved(rows, batch, upper);
      LatestWriteWins(rows, earlier, m, fewer, upper);
      var before := SaveAll(rows, earlier, upper).value.rows;
      if !(IsNew(before, m) && m.id in before) {
        StoredUntilKeyIsReused(SaveAll(rows, batch[..|batch| - 1], upper).value.rows,
                               SaveAll(rows, batch, upper).value.rows,
                               m, x);
      }
    }
  }

  lemma LastIsSaved(rows: Table, batch: seq<Move>, upper: Upper)
    requires Valid(rows) && batch != [] && SaveAll(rows, batch, upper).Success?
    ensures SaveAll(rows, batch[..|batch| - 1], upper).Success?
    ensures var before := SaveAll(rows, batch[..|batch| - 1], upper).value.rows;
            var after := SaveAll(rows, batch, upper).value.rows;
            var m := batch[|batch| - 1];
            && OthersKept(before, after, m)
            && ((IsNew(before, m) && m.id in before) || Stores(after, m))
  {
    var front := batch[..|batch| - 1];
    BatchKeepsConstraintsAndCounts(rows, front, upper);
    SaveOneOutcome(SaveAll(rows, front, upper).value, batch[|batch| - 1], upper);
  }

  /** The table after any sequence of saves, aborted ones included. */
  function Committed(rows: Table, batches: seq<seq<Move>>, upper: Upper): Table {
    if batches == [] then rows
    else
      var before := Committed(rows, batches[..|batches| - 1], upper);
      var saved := SaveAll(before, batches[|batches| - 1], upper);
      if saved.Success? then saved.value.rows else before
  }

  /** In every reachable state all three keys are unique, and no row ever disappears. */
  lemma {:induction false} ReachableTablesAreValid(rows: Table, batches: seq<seq<Move>>, upper: Upper)
    requires Valid(rows)
    ensures Valid(Committed(rows, batches, upper)) && rows.Keys <= Committed(rows, batches, upper).Keys
  {
    if batches != [] {
      var before := Committed(rows, batches[..|batches| - 1], upper);
      ReachableTablesAreValid(rows, batches[..|batches| - 1], upper);
      if SaveAll(before, batches[|batches| - 1], upper).Success? {
        BatchKeepsConstraintsAndCounts(before, batches[|batches| - 1], upper);
      }
    }
  }
}
