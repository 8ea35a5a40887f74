/** Which records a caller can save together: when no batch of them aborts, and when none of them is
    dropped (`save_missed_moves` in `app/adapters/trade_replay_oracle_store.py`). */
module MissedMoveBatches {
  import opened MissedMoves
  import opened Sequences

  predicate ShareKey(a: Move, b: Move) {
    NaturalOf(a) == NaturalOf(b) || StoryOf(a) == StoryOf(b)
  }

  /** `c` has the natural key of `a` and the story key of `b`, each of which differs from it in the other. */
  predicate Clash(a: Move, b: Move, c: Move) {
    && NaturalOf(a) == NaturalOf(c) && StoryOf(b) == StoryOf(c)
    && StoryOf(a) != StoryOf(c) && NaturalOf(b) != NaturalOf(c)
  }

  ghost predicate NoKeysClash(records: iset<Move>) {
    forall a, b, c {:trigger Clash(a, b, c)} :: a in records && b in records && c in records ==> !Clash(a, b, c)
  }

  /** An id repeats only with a key. */
  ghost predicate IdsFollowKeys(records: iset<Move>) {
    forall a, b :: a in records && b in records && a.id == b.id ==> ShareKey(a, b)
  }

  ghost predicate DrawnFrom(batch: seq<Move>, records: iset<Move>) {
    forall m :: m in batch ==> m in records
  }

  lemma SharingIsTransitive(records: iset<Move>, x: Move, y: Move, z: Move)
    requires NoKeysClash(records) && x in records && y in records && z in records
    requires ShareKey(x, y) && ShareKey(y, z)
    ensures ShareKey(x, z)
  {
    assert !Clash(x, z, y) && !Clash(z, x, y);
  }

  // ----- what one save does to each row -----

  /** The row with this id after a save: untouched, or carrying the record that shares a key with it. */
  predicate RowAfter(before: Table, after: Table, m: Move, id: string)
    requires id in after
  {
    if id in before && !ShareKey(before[id], m) then after[id] == before[id]
    else Carries(after[id], m) && (id in before || id == m.id)
  }

  lemma RowsAfterSave(w: Work, m: Move, upper: Upper)
    requires Valid(w.rows) && SaveOne(w, m, upper).Success?
    ensures forall id :: id in SaveOne(w, m, upper).value.rows ==>
      RowAfter(w.rows, SaveOne(w, m, upper).value.rows, m, id)
  {
    SaveOneOutcome(w, m, upper);
    if Merge(w.rows, m).Success? {
      RowsAfterMerge(w.rows, m);
    } else {
      RowsAfterStoryUpdate(w.rows, m);
    }
  }

  lemma RowsAfterMerge(t: Table, m: Move)
    requires Valid(t) && Merge(t, m).Success? && !KeysClash(t, m)
    ensures forall id :: id in Merge(t, m).value ==> RowAfter(t, Merge(t, m).value, m, id)
  {
    MergeOutcome(t, m);
    if HasNatural(t, NaturalOf(m)) {
      RowsAfterMatch(t, m);
    } else {
      RowsAfterInsert(t, m);
    }
  }

  lemma RowsAfterMatch(t: Table, m: Move)
    requires HasNatural(t, NaturalOf(m)) && !KeysClash(t, m)
    ensures forall id :: id in MatchedUpdate(t, m) ==> RowAfter(t, MatchedUpdate(t, m), m, id)
  {
    var a :| a in t && NaturalOf(t[a]) == NaturalOf(m);
    forall id | id in t && ShareKey(t[id], m) ensures NaturalOf(t[id]) == NaturalOf(m) {
      assert a == id || StoryOf(t[id]) != StoryOf(m);
    }
  }

  lemma RowsAfterInsert(t: Table, m: Move)
    requires !HasNatural(t, NaturalOf(m)) && !HasStory(t, StoryOf(m)) && m.id !in t
    ensures var after := t[m.id := m]; forall id :: id in after ==> RowAfter(t, after, m, id)
  {
  }

  lemma RowsAfterStoryUpdate(t: Table, m: Move)
    requires !KeysClash(t, m) && Merge(t, m).Failure?
    requires Valid(t)
    ensures forall id :: id in StoryUpdate(t, m) ==> RowAfter(t, StoryUpdate(t, m), m, id)
  {
    MergeOutcome(t, m);
    assert !HasNatural(t, NaturalOf(m));
  }

  // ----- records without clashes -----

  /** Every row was created by one of the records and has the keys of one that shares a key with it. */
  ghost predicate KeptBy(t: Table, records: iset<Move>) {
    forall id :: id in t ==> exists x, y :: CameFrom(t[id], id, x, y, records)
  }

  ghost predicate CameFrom(row: Move, id: string, x: Move, y: Move, records: iset<Move>) {
    && x in records && y in records && x.id == id && ShareKey(x, y)
    && NaturalOf(row) == NaturalOf(y) && StoryOf(row) == StoryOf(y)
  }

  lemma RecordOf(t: Table, id: string, records: iset<Move>) returns (x: Move, y: Move)
    requires KeptBy(t, records) && id in t
    ensures CameFrom(t[id], id, x, y, records)
  {
    x, y :| CameFrom(t[id], id, x, y, records);
  }

  lemma SharesWithRow(row: Move, id: string, x: Move, y: Move, m: Move, records: iset<Move>)
    requires CameFrom(row, id, x, y, records)
    ensures ShareKey(row, m) <==> ShareKey(y, m)
  {
  }

  lemma RecordsDoNotClash(t: Table, m: Move, records: iset<Move>)
    requires Valid(t) && KeptBy(t, records) && NoKeysClash(records) && m in records
    ensures !KeysClash(t, m)
  {
    forall a, b | a in t && b in t && NaturalOf(t[a]) == NaturalOf(m) && StoryOf(t[b]) == StoryOf(m) ensures a == b {
      RowsOfOneRecord(t, a, b, m, records);
    }
  }

  lemma RowsOfOneRecord(t: Table, a: string, b: string, m: Move, records: iset<Move>)
    requires Valid(t) && KeptBy(t, records) && NoKeysClash(records) && m in records
    requires a in t && b in t && NaturalOf(t[a]) == NaturalOf(m) && StoryOf(t[b]) == StoryOf(m)
    ensures a == b
  {
    var _, y := RecordOf(t, a, records);
    var _, z := RecordOf(t, b, records);
    assert !Clash(y, z, m);
  }

  lemma RecordIsNotLost(t: Table, m: Move, records: iset<Move>)
    requires KeptBy(t, records) && NoKeysClash(records) && IdsFollowKeys(records) && m in records && m.id in t
    ensures !IsNew(t, m)
  {
    var x, y := RecordOf(t, m.id, records);
    SharingIsTransitive(records, y, x, m);
    SharesWithRow(t[m.id], m.id, x, y, m, records);
    SharedIsNotNew(t, m.id, m);
  }

  lemma SharedIsNotNew(t: Table, id: string, m: Move)
    requires id in t && ShareKey(t[id], m)
    ensures !IsNew(t, m)
  {
  }

  lemma SaveKeepsRecords(w: Work, m: Move, upper: Upper, records: iset<Move>)
    requires Valid(w.rows) && KeptBy(w.rows, records) && NoKeysClash(records) && m in records
    ensures SaveOne(w, m, upper).Success?
    ensures Valid(SaveOne(w, m, upper).value.rows) && KeptBy(SaveOne(w, m, upper).value.rows, records)
    ensures IdsFollowKeys(records) ==> Stores(SaveOne(w, m, upper).value.rows, m)
  {
    var t := w.rows;
    RecordsDoNotClash(t, m, records);
    SaveOneOutcome(w, m, upper);
    RowsAfterSave(w, m, upper);
    var after := SaveOne(w, m, upper).value.rows;
    forall id | id in after ensures exists x, y :: CameFrom(after[id], id, x, y, records) {
      RowKeepsRecord(t, after, m, id, records);
    }
    if IdsFollowKeys(records) && m.id in t {
      RecordIsNotLost(t, m, records);
    }
  }

  lemma RowKeepsRecord(t: Table, after: Table, m: Move, id: string, records: iset<Move>)
    requires KeptBy(t, records) && NoKeysClash(records) && m in records && id in after && RowAfter(t, after, m, id)
    ensures exists x, y :: CameFrom(after[id], id, x, y, records)
  {
    if id !in t {
      CarriesItself(after[id], id, m, m, records);
    } else {
      var x, y := RecordOf(t, id, records);
      SharesWithRow(t[id], id, x, y, m, records);
      if ShareKey(t[id], m) {
        SharingIsTransitive(records, x, y, m);
        CarriesItself(after[id], id, x, m, records);
      } else {
        assert CameFrom(after[id], id, x, y, records);
      }
    }
  }

  lemma CarriesItself(row: Move, id: string, x: Move, m: Move, records: iset<Move>)
    requires Carries(row, m) && x in records && m in records && x.id == id && ShareKey(x, m)
    ensures CameFrom(row, id, x, m, records)
  {
  }

  lemma {:induction false} BatchKeepsRecords(t: Table, batch: seq<Move>, upper: Upper, records: iset<Move>)
    requires Valid(t) && KeptBy(t, records) && NoKeysClash(records) && DrawnFrom(batch, records)
    ensures SaveAll(t, batch, upper).Success?
    ensures Valid(SaveAll(t, batch, upper).value.rows) && KeptBy(SaveAll(t, batch, upper).value.rows, records)
    ensures batch != [] && IdsFollowKeys(records) ==> Stores(SaveAll(t, batch, upper).value.rows, batch[|batch| - 1])
  {
    if batch != [] {
      var front, last := batch[..|batch| - 1], batch[|batch| - 1];
      assert last in batch && forall m :: m in front ==> m in batch;
      BatchKeepsRecords(t, front, upper, records);
      SaveKeepsRecords(SaveAll(t, front, upper).value, last, upper, records);
    }
  }

  /** With records that do not clash no batch of any sequence of saves aborts. */
  lemma {:induction false} NoBatchOfRunAborts(batches: seq<seq<Move>>, batch: seq<Move>, upper: Upper,
                                              records: iset<Move>)
    requires NoKeysClash(records) && DrawnFrom(batch, records)
    requires forall k :: 0 <= k < |batches| ==> DrawnFrom(batches[k], records)
    ensures var t := Committed(map[], batches, upper);
            Valid(t) && KeptBy(t, records) && SaveAll(t, batch, upper).Success?
  {
    if batches != [] {
      NoBatchOfRunAborts(batches[..|batches| - 1], batches[|batches| - 1], upper, records);
      BatchKeepsRecords(Committed(map[], batches[..|batches| - 1], upper), batches[|batches| - 1], upper, records);
    }
    BatchKeepsRecords(Committed(map[], batches, upper), batch, upper, records);
  }

  /** With ids that follow keys as well, the latest write wins without exception. */
  lemma LatestRecordWins(earlier: seq<Move>, m: Move, later: seq<Move>, upper: Upper, records: iset<Move>)
    requires NoKeysClash(records) && IdsFollowKeys(records) && DrawnFrom(earlier + [m] + later, records)
    requires KeysUnusedBy(m, later)
    ensures var saved := SaveAll(map[], earlier + [m] + later, upper); saved.Success? && Stores(saved.value.rows, m)
  {
    var batch := earlier + [m] + later;
    assert m in batch && forall x :: x in earlier ==> x in batch;
    BatchKeepsRecords(map[], batch, upper, records);
    BatchKeepsRecords(map[], earlier, upper, records);
    LatestWriteWins(map[], earlier, m, later, upper);
    var before := SaveAll(map[], earlier, upper).value.rows;
    if m.id in before {
      RecordIsNotLost(before, m, records);
    }
  }

  // ----- records with clashes -----

  lemma FirstIsInserted(a: Move, upper: Upper)
    ensures SaveAll(map[], [a], upper) == Success(Work(map[a.id := a], 1, 0))
  {
    var none: Table := map[];
    assert [a][..0] == [] && SaveAll(none, [], upper) == Success(Work(none, 0, 0));
    assert !HasNatural(none, NaturalOf(a)) && !HasNatural(none, LookedUp(a, upper));
    assert Valid(none[a.id := a]);
    assert none[a.id := a] == map[a.id := a];
  }

  lemma PairIsInserted(a: Move, b: Move, upper: Upper)
    requires !ShareKey(a, b) && a.id != b.id
    ensures SaveAll(map[], [a, b], upper).Success?
    ensures SaveAll(map[], [a, b], upper).value.rows == map[a.id := a, b.id := b]
  {
    FirstIsInserted(a, upper);
    var one: Table := map[a.id := a];
    assert [a, b][..1] == [a];
    assert !HasNatural(one, NaturalOf(b));
    assert one[b.id := b] == map[a.id := a, b.id := b];
    assert Valid(one[b.id := b]);
  }

  /** Two records that share nothing, and a third with the natural key of one and the story key of
      the other: the three together abort. */
  lemma ClashAborts(a: Move, b: Move, c: Move, upper: Upper)
    requires !ShareKey(a, b) && a.id != b.id && NaturalOf(a) == NaturalOf(c) && StoryOf(b) == StoryOf(c)
    ensures SaveAll(map[], [a, b], upper).Success? && SaveAll(map[], [a, b, c], upper).Failure?
  {
    PairIsInserted(a, b, upper);
    assert [a, b, c][..2] == [a, b];
    ThirdAborts(SaveAll(map[], [a, b], upper).value, a, b, c, upper);
  }

  lemma ThirdAborts(w: Work, a: Move, b: Move, c: Move, upper: Upper)
    requires !ShareKey(a, b) && a.id != b.id && w.rows == map[a.id := a, b.id := b]
    requires NaturalOf(a) == NaturalOf(c) && StoryOf(b) == StoryOf(c)
    ensures SaveOne(w, c, upper).Failure?
  {
    assert w.rows[a.id] == a && w.rows[b.id] == b;
    assert Valid(w.rows);
    assert KeysClash(w.rows, c);
    SaveOneOutcome(w, c, upper);
  }

  /** Two records with one id that share no key: the second is dropped and counted as updated. */
  lemma TakenIdDrops(a: Move, b: Move, upper: Upper)
    requires a.id == b.id && !ShareKey(a, b)
    ensures SaveAll(map[], [a, b], upper) == Success(Work(map[a.id := a], 1, 1))
    ensures !Stores(map[a.id := a], b)
  {
    FirstIsInserted(a, upper);
    var one: Table := map[a.id := a];
    assert [a, b][..1] == [a];
    assert !HasNatural(one, NaturalOf(b)) && !HasStory(one, StoryOf(b));
    assert StoryUpdate(one, b) == one;
    assert Valid(one);
  }

  // ----- exactly when -----

  /** Records whose ids follow their keys: every batch of them commits if and only if no keys clash. */
  lemma BatchesCommitExactlyWhen(records: iset<Move>, upper: Upper)
    requires IdsFollowKeys(records)
    ensures NoKeysClash(records) <==> forall batch :: DrawnFrom(batch, records) ==>
            SaveAll(map[], batch, upper).Success?
  {
    if NoKeysClash(records) {
      forall batch | DrawnFrom(batch, records) ensures SaveAll(map[], batch, upper).Success? {
        BatchKeepsRecords(map[], batch, upper, records);
      }
    } else {
      var batch := BatchThatAborts(records, upper);
    }
  }

  lemma BatchThatAborts(records: iset<Move>, upper: Upper) returns (batch: seq<Move>)
    requires IdsFollowKeys(records) && !NoKeysClash(records)
    ensures batch != [] && DrawnFrom(batch, records) && SaveAll(map[], batch, upper).Failure?
  {
    var a, b, c :| a in records && b in records && c in records && Clash(a, b, c);
    ClashAborts(a, b, c, upper);
    batch := [a, b, c];
  }

  /** Any records: every batch of them commits and stores its last record if and only if no keys clash
      and ids follow keys. */
  lemma RecordsAreStoredExactlyWhen(records: iset<Move>, upper: Upper)
    ensures NoKeysClash(records) && IdsFollowKeys(records) <==>
      forall batch :: DrawnFrom(batch, records) && batch != [] ==>
        SaveAll(map[], batch, upper).Success? && Stores(SaveAll(map[], batch, upper).value.rows, batch[|batch| - 1])
  {
    if NoKeysClash(records) && IdsFollowKeys(records) {
      forall batch | DrawnFrom(batch, records) && batch != []
        ensures SaveAll(map[], batch, upper).Success?
        ensures Stores(SaveAll(map[], batch, upper).value.rows, batch[|batch| - 1])
      {
        BatchKeepsRecords(map[], batch, upper, records);
      }
    } else if IdsFollowKeys(records) {
      var batch := BatchThatAborts(records, upper);
    } else {
      var a, b :| a in records && b in records && a.id == b.id && !ShareKey(a, b);
      TakenIdDrops(a, b, upper);
      assert DrawnFrom([a, b], records) && [a, b][1] == b;
    }
  }

  // ----- failing inputs -----

  function Example(id: string, setup: string, story: string): Move {
    Move(id, Scope("SPY", 0, "day"), setup, "long", story, story, "", 0, 0)
  }

  /** Three records of which the third aborts the batch. */
  lemma ThreeRecordsAbort(upper: Upper)
    ensures var a, b, c := Example("1", "A", "x"), Example("2", "B", "y"), Example("3", "A", "y");
            SaveAll(map[], [a, b], upper).Success? && SaveAll(map[], [a, b, c], upper).Failure?
  {
    var a, b, c := Example("1", "A", "x"), Example("2", "B", "y"), Example("3", "A", "y");
    assert a.id[0] != b.id[0] && a.setupType[0] != b.setupType[0] && a.triggerId[0] != b.triggerId[0];
    ClashAborts(a, b, c, upper);
  }

  /** Two records of which the second is dropped. */
  lemma SecondRecordIsDropped(upper: Upper)
    ensures var a, b := Example("1", "A", "x"), Example("1", "B", "y");
            SaveAll(map[], [a, b], upper) == Success(Work(map["1" := a], 1, 1)) && !Stores(map["1" := a], b)
  {
    var a, b := Example("1", "A", "x"), Example("1", "B", "y");
    assert a.setupType[0] != b.setupType[0] && a.triggerId[0] != b.triggerId[0];
    TakenIdDrops(a, b, upper);
  }
}
