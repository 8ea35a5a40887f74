/** The trade plan table of the replay store: a plan is saved unless the latest one already
    has its signature (`save_plan_if_changed`). */
module PlanLog {
  import opened Sequences

  datatype Plan = Plan(id: string, symbol: string, workflow: string, planDate: int, generatedAt: int, signature: string,
                       payload: string)

  datatype SaveResult = SaveResult(plan: Plan, created: bool)

  datatype SaveError = IntegrityError

  type Upper = string -> string

  /** Rows in the order they were created. */
  type Table = seq<Plan>

  predicate SameSlot(row: Plan, symbol: string, p: Plan) {
    row.symbol == symbol && row.workflow == p.workflow && row.planDate == p.planDate
  }

  /** The primary key and the unique signature. */
  predicate Valid(t: Table) {
    && (forall i, j :: 0 <= i < j < |t| ==> t[i].id != t[j].id)
    && (forall i, j :: 0 <= i < j < |t| ==> !(SameSlot(t[i], t[j].symbol, t[j]) && t[i].signature == t[j].signature))
  }

  /** `ORDER BY generated_at DESC, created_at DESC`, first row. */
  function Latest(t: Table, symbol: string, p: Plan): (r: Option<Plan>)
    ensures r.Some? ==> r.value in t && SameSlot(r.value, symbol, p)
  {
    if t == [] then None
    else
      var before, row := Latest(t[..|t| - 1], symbol, p), t[|t| - 1];
      if SameSlot(row, symbol, p) && (before.None? || before.value.generatedAt <= row.generatedAt) then Some(row)
      else before
  }

  /** `_find_plan_by_signature`; in a valid table there is at most one. */
  function FindBySignature(t: Table, symbol: string, p: Plan): (r: Option<Plan>)
    ensures r.Some? ==> r.value in t && SameSlot(r.value, symbol, p) && r.value.signature == p.signature
    ensures r.None? ==> forall row :: row in t ==> !(SameSlot(row, symbol, p) && row.signature == p.signature)
  {
    if t == [] then None
    else
      var row := t[|t| - 1];
      assert t == t[..|t| - 1] + [row];
      if SameSlot(row, symbol, p) && row.signature == p.signature then Some(row)
      else FindBySignature(t[..|t| - 1], symbol, p)
  }

  predicate IdTaken(t: Table, p: Plan) {
    exists i :: 0 <= i < |t| && t[i].id == p.id
  }

  predicate SignatureTaken(t: Table, p: Plan) {
    exists i :: 0 <= i < |t| && SameSlot(t[i], p.symbol, p) && t[i].signature == p.signature
  }

  predicate SomeKeyTaken(t: Table, p: Plan) {
    IdTaken(t, p) || SignatureTaken(t, p)
  }

  function Save(t: Table, p: Plan, upper: Upper): (Table, Result<SaveResult, SaveError>) {
    var existing := Latest(t, upper(p.symbol), p);
    if existing.Some? && existing.value.signature == p.signature then (t, Success(SaveResult(existing.value, false)))
    else if !SomeKeyTaken(t, p) then (t + [p], Success(SaveResult(p, true)))
    else
      var same := FindBySignature(t, upper(p.symbol), p);
      (t, if same.Some? then Success(SaveResult(same.value, false)) else Failure(IntegrityError))
  }

  // ----- what a save does, field by field -----

  predicate InSlot(row: Plan, symbol: string, p: Plan) {
    row.symbol == symbol && row.workflow == p.workflow && row.planDate == p.planDate
  }

  /** The row was generated last of its slot, or stands behind all others generated then. */
  ghost predicate IsLatestAt(t: Table, i: nat, symbol: string, p: Plan) {
    && i < |t| && InSlot(t[i], symbol, p)
    && forall j :: 0 <= j < |t| && InSlot(t[j], symbol, p) ==>
         t[j].generatedAt < t[i].generatedAt || (t[j].generatedAt == t[i].generatedAt && j <= i)
  }

  /** The plan can be inserted: its id is new, and so is its signature in its slot. */
  ghost predicate IsNew(t: Table, p: Plan) {
    forall row :: row in t ==>
      row.id != p.id && !(InSlot(row, p.symbol, p) && row.signature == p.signature)
  }

  /** The latest plan of the upper-case slot is returned if it has the signature. Otherwise a new plan is
      added, and one that is not new makes do with any stored plan that has the signature. */
  ghost predicate SavesPlan(t: Table, after: Table, r: Result<SaveResult, SaveError>, p: Plan, upper: Upper) {
    if exists i: nat :: IsLatestAt(t, i, upper(p.symbol), p) && t[i].signature == p.signature then
      && after == t
      && exists i: nat :: IsLatestAt(t, i, upper(p.symbol), p) && r == Success(SaveResult(t[i], false))
                     && t[i].signature == p.signature
    else if IsNew(t, p) then after == t + [p] && r == Success(SaveResult(p, true))
    else
      && after == t
      && if exists row :: row in t && InSlot(row, upper(p.symbol), p) && row.signature == p.signature then
           && r.Success? && !r.value.created && r.value.plan in t
           && InSlot(r.value.plan, upper(p.symbol), p) && r.value.plan.signature == p.signature
         else r == Failure(IntegrityError)
  }

  lemma {:induction false} LatestFieldByField(t: Table, symbol: string, p: Plan)
    ensures Latest(t, symbol, p).Some? ==>
      exists i: nat :: IsLatestAt(t, i, symbol, p) && t[i] == Latest(t, symbol, p).value
    ensures Latest(t, symbol, p).None? ==> forall row :: row in t ==> !InSlot(row, symbol, p)
  {
    if t != [] {
      var n := |t| - 1;
      LatestFieldByField(t[..n], symbol, p);
      assert t == t[..n] + [t[n]];
      var before := Latest(t[..n], symbol, p);
      if InSlot(t[n], symbol, p) && (before.None? || before.value.generatedAt <= t[n].generatedAt) {
        LatestIsNow(t, symbol, p);
      } else if before.Some? {
        var i: nat :| IsLatestAt(t[..n], i, symbol, p) && t[..n][i] == before.value;
        assert IsLatestAt(t, i, symbol, p);
      }
    }
  }

  lemma LatestIsNow(t: Table, symbol: string, p: Plan)
    requires t != [] && InSlot(t[|t| - 1], symbol, p)
    requires forall row :: row in t[..|t| - 1] && InSlot(row, symbol, p) ==> row.generatedAt <= t[|t| - 1].generatedAt
    ensures IsLatestAt(t, |t| - 1, symbol, p)
  {
    forall j | 0 <= j < |t| && InSlot(t[j], symbol, p) ensures t[j].generatedAt <= t[|t| - 1].generatedAt {
      assert j < |t| - 1 ==> t[j] in t[..|t| - 1];
    }
  }

  lemma OneLatest(t: Table, i: nat, j: nat, symbol: string, p: Plan)
    requires IsLatestAt(t, i, symbol, p) && IsLatestAt(t, j, symbol, p)
    ensures i == j
  {
  }

  lemma NewFieldByField(t: Table, p: Plan)
    ensures SomeKeyTaken(t, p) <==> !IsNew(t, p)
  {
    if SomeKeyTaken(t, p) {
      var i :| 0 <= i < |t|
        && (t[i].id == p.id || (SameSlot(t[i], p.symbol, p) && t[i].signature == p.signature));
      assert t[i] in t;
    } else {
      forall row | row in t ensures row.id != p.id && !(InSlot(row, p.symbol, p) && row.signature == p.signature) {
        var i :| 0 <= i < |t| && t[i] == row;
      }
    }
  }

  lemma SaveFieldByField(t: Table, p: Plan, upper: Upper)
    ensures var (after, r) := Save(t, p, upper); SavesPlan(t, after, r, p, upper)
  {
    LatestFieldByField(t, upper(p.symbol), p);
    NewFieldByField(t, p);
    forall i: nat, j: nat | IsLatestAt(t, i, upper(p.symbol), p) && IsLatestAt(t, j, upper(p.symbol), p)
      ensures i == j
    {
      OneLatest(t, i, j, upper(p.symbol), p);
    }
    var existing := Latest(t, upper(p.symbol), p);
    if existing.Some? {
      var i: nat :| IsLatestAt(t, i, upper(p.symbol), p) && t[i] == existing.value;
    }
  }

  class PlanStore {
    var rows: Table

    constructor ()
      ensures rows == [] && Valid(rows)
    {
      rows := [];
    }

    method SavePlanIfChanged(p: Plan, upper: Upper) returns (r: Result<SaveResult, SaveError>)
      modifies this
      ensures Valid(old(rows)) ==> Valid(rows)
      ensures r.Success? ==>
        && r.value.plan.signature == p.signature && r.value.plan in rows
        && rows == if r.value.created then old(rows) + [p] else old(rows)
      ensures r.Failure? ==> rows == old(rows) && SomeKeyTaken(rows, p)
      ensures (rows, r) == Save(old(rows), p, upper)
      ensures SavesPlan(old(rows), rows, r, p, upper)
    {
      SaveFieldByField(rows, p, upper);
      SaveReturnsRequestedSignature(rows, p, upper);
      var existing := Latest(rows, upper(p.symbol), p);
      if existing.Some? && existing.value.signature == p.signature {
        return Success(SaveResult(existing.value, false));
      }
      if SomeKeyTaken(rows, p) {
        // the insert violates a constraint and is rolled back
        var same := FindBySignature(rows, upper(p.symbol), p);
        if same.None? {
          return Failure(IntegrityError);
        }
        return Success(SaveResult(same.value, false));
      }
      rows := rows + [p];
      return Success(SaveResult(p, true));
    }
  }

  // ----- what a save promises -----

  /** A successful save returns a plan with the requested signature, and reports a creation
      exactly when it added a row. Constraints hold throughout, and rows are only added. */
  lemma SaveReturnsRequestedSignature(t: Table, p: Plan, upper: Upper)
    ensures var (after, r) := Save(t, p, upper);
            && (Valid(t) ==> Valid(after)) && t <= after
            && (r.Success? ==>
                 && r.value.plan.signature == p.signature && r.value.plan in after
                 && (r.value.created <==> |after| == |t| + 1) && (!r.value.created ==> after == t))
            && (r.Failure? ==> after == t)
  {
    if !IdTaken(t, p) && !SignatureTaken(t, p) {
      forall i | 0 <= i < |t|
        ensures t[i].id != p.id && !(SameSlot(t[i], p.symbol, p) && t[i].signature == p.signature)
      {
      }
    }
  }

  /** For an upper-case symbol the save fails exactly when the id is taken by another plan
      and the signature is not. */
  lemma SaveFailsExactlyOnTakenId(t: Table, p: Plan, upper: Upper)
    requires Valid(t) && upper(p.symbol) == p.symbol
    ensures Save(t, p, upper).1.Failure? <==> IdTaken(t, p) && !SignatureTaken(t, p)
  {
    var same := FindBySignature(t, p.symbol, p);
    if SignatureTaken(t, p) {
      var i :| 0 <= i < |t| && SameSlot(t[i], p.symbol, p) && t[i].signature == p.signature;
      assert t[i] in t;
    }
    var existing := Latest(t, p.symbol, p);
    if existing.Some? && existing.value.signature == p.signature {
      var i :| 0 <= i < |t| && t[i] == existing.value;
    }
    if same.Some? {
      var i :| 0 <= i < |t| && t[i] == same.value;
    }
  }

  /** Saving the same plan again succeeds without adding a row exactly for upper-case
      symbols: any other plan is inserted once and then neither found nor insertable. */
  lemma ResavingSucceedsExactlyForUpperCase(p: Plan, upper: Upper)
    ensures upper(p.symbol) == p.symbol <==>
      forall t :: Valid(t) && Save(t, p, upper).1.Success? ==>
        var again := Save(Save(t, p, upper).0, p, upper);
        again.0 == Save(t, p, upper).0 && again.1.Success? && !again.1.value.created
  {
    if upper(p.symbol) == p.symbol {
      forall t | Valid(t) && Save(t, p, upper).1.Success?
        ensures var again := Save(Save(t, p, upper).0, p, upper);
                again.0 == Save(t, p, upper).0 && again.1.Success? && !again.1.value.created
      {
        ResaveAddsNothing(t, p, upper);
      }
    } else {
      var none: Table := [];
      assert Latest(none, upper(p.symbol), p) == None && none + [p] == [p];
      assert Save(none, p, upper).0 == [p] && Save(none, p, upper).1.Success?;
      OnlyPlan(p, upper);
    }
  }

  lemma OnlyPlan(p: Plan, upper: Upper)
    requires upper(p.symbol) != p.symbol
    ensures Save([p], p, upper) == ([p], Failure(IntegrityError))
  {
    assert [p][..0] == [];
    assert Latest([p], upper(p.symbol), p) == None;
    assert [p][0].id == p.id;
    assert IdTaken([p], p);
  }

  lemma ResaveAddsNothing(t: Table, p: Plan, upper: Upper)
    requires Valid(t) && upper(p.symbol) == p.symbol && Save(t, p, upper).1.Success?
    ensures var again := Save(Save(t, p, upper).0, p, upper);
            again.0 == Save(t, p, upper).0 && again.1.Success? && !again.1.value.created
  {
    var (after, r) := Save(t, p, upper);
    SaveReturnsRequestedSignature(t, p, upper);
    SaveFailsExactlyOnTakenId(after, p, upper);
    var saved := r.value.plan;
    assert saved in after && SameSlot(saved, p.symbol, p);
    var i :| 0 <= i < |after| && after[i] == saved;
    assert SignatureTaken(after, p);
  }

  /** Which plan is current after a save. Saving A, then B, then A again returns A but leaves
      B the latest plan: the signature saved is the latest one exactly when it already was,
      or is not in the table yet and the plan is not older than the latest. */
  lemma SavedIsLatestExactlyWhen(t: Table, p: Plan, upper: Upper)
    requires Valid(t) && upper(p.symbol) == p.symbol && Save(t, p, upper).1.Success?
    ensures var (after, r) := Save(t, p, upper);
            var before := Latest(t, p.symbol, p);
            var now := Latest(after, p.symbol, p);
            now.Some? && now.value.signature == p.signature <==>
              || (before.Some? && before.value.signature == p.signature)
              || (!SignatureTaken(t, p) && (before.None? || before.value.generatedAt <= p.generatedAt))
  {
    assert (t + [p])[..|t|] == t;
    SaveFailsExactlyOnTakenId(t, p, upper);
    var before := Latest(t, p.symbol, p);
    if before.Some? && before.value.signature == p.signature {
      var i :| 0 <= i < |t| && t[i] == before.value;
    }
  }

  /** The A, B, A history on an empty table. */
  lemma SavingAgainDoesNotMakeLatest(a: Plan, b: Plan, again: Plan, upper: Upper)
    requires upper(a.symbol) == a.symbol && SameSlot(a, b.symbol, b) && SameSlot(a, again.symbol, again)
    requires a.signature == again.signature != b.signature && a.generatedAt <= b.generatedAt
    requires a.id != b.id && a.id != again.id && b.id != again.id
    ensures var t := Save(Save([], a, upper).0, b, upper).0;
            && t == [a, b]
            && Save(t, again, upper) == (t, Success(SaveResult(a, false)))
            && Latest(t, again.symbol, again) == Some(b)
  {
    assert [a][..0] == [] && [a, b][..1] == [a];
    assert Latest([a], b.symbol, b) == Some(a);
    assert Latest([a], again.symbol, again) == Some(a);
    assert Latest([a, b], again.symbol, again) == Some(b);
    assert SameSlot([a, b][0], again.symbol, again);
    assert SignatureTaken([a, b], again);
    assert FindBySignature([a], again.symbol, again) == Some(a);
    assert FindBySignature([a, b], again.symbol, again) == Some(a);
  }

  /** Any sequence of saves keeps the constraints and every row. */
  function SaveEach(t: Table, plans: seq<Plan>, upper: Upper): Table {
    if plans == [] then t else Save(SaveEach(t, plans[..|plans| - 1], upper), plans[|plans| - 1], upper).0
  }

  lemma {:induction false} ReachablePlanTablesAreValid(t: Table, plans: seq<Plan>, upper: Upper)
    requires Valid(t)
    ensures Valid(SaveEach(t, plans, upper)) && t <= SaveEach(t, plans, upper)
  {
    if plans != [] {
      ReachablePlanTablesAreValid(t, plans[..|plans| - 1], upper);
      SaveReturnsRequestedSignature(SaveEach(t, plans[..|plans| - 1], upper), plans[|plans| - 1], upper);
    }
  }
}
