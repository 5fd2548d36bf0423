/** The goal store of database/goalService.mysql.ts over an in-memory table.

    The MySQL `goals` table is a map from the primary key `id` to a `Row`
    holding the columns the service reads and writes. The functions below
    give the effect of each statement on that table; the `GoalService`
    class performs the same steps in place and is proved against them. */
module GoalStore {
  import opened Wrappers
  import opened Types

  /** A row of the `goals` table; `None` is SQL NULL. */
  datatype Row = Row(
    id: string,
    title: string,
    description: Option<string>,
    parentId: Option<string>,
    progress: int,
    isCompleted: bool,
    createdAt: int,
    completedAt: Option<int>,
    scheduledDays: Option<seq<int>>,
    oneTimeTask: Option<int>,
    expanded: bool,
    reminder: Option<int>)

  type Table = map<string, Row>

  /** The body of a create request: a goal without its id. */
  datatype NewGoal = NewGoal(
    title: string,
    description: Option<string>,
    parentId: Option<string>,
    progress: int,
    isCompleted: bool,
    createdAt: int,
    completedAt: Option<int>,
    scheduledDays: Option<seq<int>>,
    oneTimeTask: Option<int>,
    expanded: Option<bool>,
    reminder: Option<int>)

  /** A `Partial<Goal>`: `None` is a key the update leaves out. For a field
      that is itself optional, `Some(None)` is the key given as null. */
  datatype Patch = Patch(
    id: Option<string>,
    title: Option<string>,
    description: Option<Option<string>>,
    parentId: Option<Option<string>>,
    progress: Option<int>,
    isCompleted: Option<bool>,
    createdAt: Option<int>,
    completedAt: Option<Option<int>>,
    scheduledDays: Option<Option<seq<int>>>,
    oneTimeTask: Option<Option<int>>,
    expanded: Option<Option<bool>>,
    reminder: Option<Option<int>>)

  /** The errors the service throws: "Goal not found", and the driver's
      duplicate-key error when the generated id is already a key. */
  datatype StoreError = GoalNotFound | DuplicateId

  /** Every row is stored under its own id. */
  predicate WellKeyed(t: Table) {
    forall k :: k in t ==> t[k].id == k
  }

  // ---------------------------------------------------------------------------
  // Column values: `x || null` on the way in, `x || undefined` on the way out.

  /** `out` is what `x || null` leaves of an optional text: `x` itself when
      it is a non-empty text, otherwise nothing. */
  predicate TextColumn(out: Option<string>, x: Option<string>) {
    (out.Some? <==> TruthyText(x)) && (out.Some? ==> out == x)
  }

  /** `out` is what `x || null` leaves of an optional number: `x` itself when
      it is a non-zero number, otherwise nothing. */
  predicate NumberColumn(out: Option<int>, x: Option<int>) {
    (out.Some? <==> TruthyNumber(x)) && (out.Some? ==> out == x)
  }

  /** `s || null` (or `|| undefined`): an empty or absent text becomes absent. */
  function TextOrNone(s: Option<string>): (r: Option<string>)
    ensures TextColumn(r, s)
  {
    if TruthyText(s) then s else None
  }

  /** `n || null` (or `|| undefined`): a zero or absent number becomes absent. */
  function NumberOrNone(n: Option<int>): (r: Option<int>)
    ensures NumberColumn(r, n)
  {
    if TruthyNumber(n) then n else None
  }

  /** `b || false`. */
  function FlagOrFalse(b: Option<bool>): (r: bool)
    ensures r <==> b == Some(true)
  {
    b.Some? && b.value
  }

  /** `mapRowToGoal`: booleans as they are, falsy description, completion
      time, one-time date and reminder dropped, `expanded` always present. */
  function MapRowToGoal(row: Row): (g: Goal)
    ensures g.id == row.id && g.title == row.title && g.parentId == row.parentId
    ensures g.progress == row.progress && g.isCompleted == row.isCompleted && g.createdAt == row.createdAt
    ensures g.scheduledDays == row.scheduledDays && g.expanded == Some(row.expanded)
    ensures TextColumn(g.description, row.description)
    ensures NumberColumn(g.completedAt, row.completedAt) && NumberColumn(g.oneTimeTask, row.oneTimeTask)
    ensures NumberColumn(g.reminder, row.reminder)
  {
    Goal(
      row.id, row.title, TextOrNone(row.description), row.parentId, row.progress, row.isCompleted,
      row.createdAt, NumberOrNone(row.completedAt), row.scheduledDays, NumberOrNone(row.oneTimeTask),
      Some(row.expanded), NumberOrNone(row.reminder))
  }

  /** The twelve values of the INSERT statement of `createGoal`. The
      `progress || 0` and `isCompleted || false` defaults leave an integer and
      a boolean as they are. */
  function InsertRow(id: string, g: NewGoal, now: int): (r: Row)
    ensures r.id == id && r.title == g.title && r.progress == g.progress && r.isCompleted == g.isCompleted
    ensures r.createdAt == (if g.createdAt == 0 then now else g.createdAt)
    ensures TextColumn(r.description, g.description) && TextColumn(r.parentId, g.parentId)
    ensures NumberColumn(r.completedAt, g.completedAt) && NumberColumn(r.oneTimeTask, g.oneTimeTask)
    ensures NumberColumn(r.reminder, g.reminder)
    ensures r.scheduledDays == g.scheduledDays && (r.expanded <==> g.expanded == Some(true))
    ensures Written(r)
  {
    Row(
      id, g.title, TextOrNone(g.description), TextOrNone(g.parentId), g.progress, g.isCompleted,
      if g.createdAt == 0 then now else g.createdAt, NumberOrNone(g.completedAt), g.scheduledDays,
      NumberOrNone(g.oneTimeTask), FlagOrFalse(g.expanded), NumberOrNone(g.reminder))
  }

  /** The record `createGoal` returns: `{ id, ...goal, createdAt: goal.createdAt || now }`.
      Without its id it is the input, with only `createdAt` defaulted. */
  function Created(id: string, g: NewGoal, now: int): (r: Goal)
    ensures r.id == id && r.createdAt == (if g.createdAt == 0 then now else g.createdAt)
    ensures WithoutId(r) == g.(createdAt := r.createdAt)
    ensures r.createdAt != 0 || now == 0
  {
    Goal(
      id, g.title, g.description, g.parentId, g.progress, g.isCompleted,
      if g.createdAt == 0 then now else g.createdAt, g.completedAt, g.scheduledDays,
      g.oneTimeTask, g.expanded, g.reminder)
  }

  /** A goal with its id left out. */
  function WithoutId(g: Goal): NewGoal {
    NewGoal(
      g.title, g.description, g.parentId, g.progress, g.isCompleted, g.createdAt,
      g.completedAt, g.scheduledDays, g.oneTimeTask, g.expanded, g.reminder)
  }

  /** The UPDATE statement of `updateGoal`: every column of the SET list from
      the merged goal, while `id` (the WHERE key) and `created_at` (not in
      the SET list) keep the stored values. */
  function UpdateRow(current: Row, g: Goal): (r: Row)
    ensures r.id == current.id && r.createdAt == current.createdAt
    ensures r.title == g.title && r.progress == g.progress && r.isCompleted == g.isCompleted
    ensures TextColumn(r.description, g.description) && TextColumn(r.parentId, g.parentId)
    ensures NumberColumn(r.completedAt, g.completedAt) && NumberColumn(r.oneTimeTask, g.oneTimeTask)
    ensures NumberColumn(r.reminder, g.reminder)
    ensures r.scheduledDays == g.scheduledDays && (r.expanded <==> g.expanded == Some(true))
    ensures Written(r)
  {
    Row(
      current.id, g.title, TextOrNone(g.description), TextOrNone(g.parentId), g.progress, g.isCompleted,
      current.createdAt, NumberOrNone(g.completedAt), g.scheduledDays,
      NumberOrNone(g.oneTimeTask), FlagOrFalse(g.expanded), NumberOrNone(g.reminder))
  }

  function Override<T>(current: T, update: Option<T>): T {
    if update.Some? then update.value else current
  }

  /** `{ ...existing, ...updates }`: each key given in the updates takes the
      update's value, each key left out keeps the existing value. */
  function Merge(e: Goal, p: Patch): (m: Goal)
    ensures if p.id.Some? then m.id == p.id.value else m.id == e.id
    ensures if p.title.Some? then m.title == p.title.value else m.title == e.title
    ensures if p.description.Some? then m.description == p.description.value else m.description == e.description
    ensures if p.parentId.Some? then m.parentId == p.parentId.value else m.parentId == e.parentId
    ensures if p.progress.Some? then m.progress == p.progress.value else m.progress == e.progress
    ensures if p.isCompleted.Some? then m.isCompleted == p.isCompleted.value else m.isCompleted == e.isCompleted
    ensures if p.createdAt.Some? then m.createdAt == p.createdAt.value else m.createdAt == e.createdAt
    ensures if p.completedAt.Some? then m.completedAt == p.completedAt.value else m.completedAt == e.completedAt
    ensures if p.scheduledDays.Some? then m.scheduledDays == p.scheduledDays.value else m.scheduledDays == e.scheduledDays
    ensures if p.oneTimeTask.Some? then m.oneTimeTask == p.oneTimeTask.value else m.oneTimeTask == e.oneTimeTask
    ensures if p.expanded.Some? then m.expanded == p.expanded.value else m.expanded == e.expanded
    ensures if p.reminder.Some? then m.reminder == p.reminder.value else m.reminder == e.reminder
  {
    Goal(
      Override(e.id, p.id), Override(e.title, p.title), Override(e.description, p.description),
      Override(e.parentId, p.parentId), Override(e.progress, p.progress),
      Override(e.isCompleted, p.isCompleted), Override(e.createdAt, p.createdAt),
      Override(e.completedAt, p.completedAt), Override(e.scheduledDays, p.scheduledDays),
      Override(e.oneTimeTask, p.oneTimeTask), Override(e.expanded, p.expanded),
      Override(e.reminder, p.reminder))
  }

  /** An optional field of a goal as a key of a JSON object: absent or present. */
  function Key<T>(x: Option<T>): Option<Option<T>> {
    if x.Some? then Some(x) else None
  }

  /** `m` is `{ ...e, ...g }` for a goal `g` given as an object: every field
      `g` has is taken from `g`, each optional field it lacks from `e`. */
  predicate Spread(e: Goal, g: Goal, m: Goal) {
    && m.id == g.id && m.title == g.title && m.parentId == g.parentId && m.progress == g.progress
    && m.isCompleted == g.isCompleted && m.createdAt == g.createdAt
    && m.description == (if g.description.Some? then g.description else e.description)
    && m.completedAt == (if g.completedAt.Some? then g.completedAt else e.completedAt)
    && m.scheduledDays == (if g.scheduledDays.Some? then g.scheduledDays else e.scheduledDays)
    && m.oneTimeTask == (if g.oneTimeTask.Some? then g.oneTimeTask else e.oneTimeTask)
    && m.expanded == (if g.expanded.Some? then g.expanded else e.expanded)
    && m.reminder == (if g.reminder.Some? then g.reminder else e.reminder)
  }

  /** A whole goal passed as the updates of `updateGoal(goal.id, goal)`. */
  function AsPatch(g: Goal): (p: Patch)
    ensures forall e :: Spread(e, g, Merge(e, p))
    ensures Merge(g, p) == g
  {
    Patch(
      Some(g.id), Some(g.title), Key(g.description), Some(g.parentId), Some(g.progress),
      Some(g.isCompleted), Some(g.createdAt), Key(g.completedAt), Key(g.scheduledDays),
      Key(g.oneTimeTask), Key(g.expanded), Key(g.reminder))
  }

  /** The updates object with no key at all. */
  const NoChanges: Patch :=
    Patch(None, None, None, None, None, None, None, None, None, None, None, None)

  /** What storing a goal and reading it back does to it: falsy optional
      values become absent and `expanded` becomes a boolean. */
  function Normalize(g: Goal): Goal {
    g.(description := TextOrNone(g.description), parentId := TextOrNone(g.parentId),
       completedAt := NumberOrNone(g.completedAt), oneTimeTask := NumberOrNone(g.oneTimeTask),
       expanded := Some(FlagOrFalse(g.expanded)), reminder := NumberOrNone(g.reminder))
  }

  /** A row as the service writes it: no empty text, no zero timestamp. */
  predicate Written(row: Row) {
    && row.description != Some("") && row.parentId != Some("")
    && row.completedAt != Some(0) && row.oneTimeTask != Some(0) && row.reminder != Some(0)
  }

  // ---------------------------------------------------------------------------
  // The statements of each operation, as functions of the table.

  /** `getGoalById`: the row under `id`, mapped, or null. */
  function Find(t: Table, id: string): (r: Option<Goal>)
    ensures r.Some? <==> id in t
    ensures r.Some? ==> r.value == MapRowToGoal(t[id])
    ensures WellKeyed(t) && r.Some? ==> r.value.id == id
  {
    if id in t then Some(MapRowToGoal(t[id])) else None
  }

  /** `createGoal` with the generated id and the current time as inputs. */
  function CreateIn(t: Table, id: string, g: NewGoal, now: int): (r: (Result<Goal, StoreError>, Table))
    ensures id in t ==> r == (Err(DuplicateId), t)
    ensures id !in t ==> r.0 == Ok(Created(id, g, now))
    ensures id !in t ==> r.1.Keys == t.Keys + {id} && |r.1| == |t| + 1
    ensures id !in t ==> r.1[id] == InsertRow(id, g, now)
    ensures forall k :: k in t ==> k in r.1 && r.1[k] == t[k]
    ensures WellKeyed(t) ==> WellKeyed(r.1)
  {
    if id in t then (Err(DuplicateId), t)
    else (Ok(Created(id, g, now)), t[id := InsertRow(id, g, now)])
  }

  /** `updateGoal`: fail on a missing id, otherwise write the merged goal. */
  function UpdateIn(t: Table, id: string, p: Patch): (r: (Result<Goal, StoreError>, Table))
    ensures id !in t ==> r == (Err(GoalNotFound), t)
    ensures id in t ==> r.0 == Ok(Merge(MapRowToGoal(t[id]), p))
    ensures r.1.Keys == t.Keys
    ensures id in t ==> r.1[id] == UpdateRow(t[id], r.0.value)
    ensures forall k :: k in t ==> r.1[k].id == t[k].id && r.1[k].createdAt == t[k].createdAt
    ensures forall k :: k in t && k != id ==> r.1[k] == t[k]
    ensures WellKeyed(t) ==> WellKeyed(r.1)
  {
    match Find(t, id)
    case None => (Err(GoalNotFound), t)
    case Some(existing) =>
      var merged := Merge(existing, p);
      (Ok(merged), t[id := UpdateRow(t[id], merged)])
  }

  /** `deleteGoal`: fail when no row is affected, otherwise remove the row. */
  function DeleteIn(t: Table, id: string): (r: (Result<(), StoreError>, Table))
    ensures id !in t ==> r == (Err(GoalNotFound), t)
    ensures id in t ==> r.0 == Ok(())
    ensures r.1.Keys == t.Keys - {id}
    ensures forall k :: k in r.1 ==> r.1[k] == t[k]
  {
    if id !in t then (Err(GoalNotFound), t) else (Ok(()), t - {id})
  }

  /** `reorderGoals`: `updateGoal(g.id, g)` for each goal in order, stopping
      at the first failure with the earlier updates kept. */
  function ReorderIn(t: Table, goals: seq<Goal>): (r: (Result<(), StoreError>, Table))
    ensures r.1.Keys == t.Keys
    ensures forall k :: k in t ==> r.1[k].id == t[k].id && r.1[k].createdAt == t[k].createdAt
    ensures forall k :: k in t && (forall i :: 0 <= i < |goals| ==> goals[i].id != k) ==> r.1[k] == t[k]
    ensures r.0.Err? ==> r.0 == Err(GoalNotFound)
    decreases |goals|
  {
    if goals == [] then (Ok(()), t)
    else
      var step := UpdateIn(t, goals[0].id, AsPatch(goals[0]));
      if step.0.Err? then (Err(GoalNotFound), step.1)
      else ReorderIn(step.1, goals[1..])
  }

  /** Some goal of the list has id `k`. */
  predicate Listed(goals: seq<Goal>, k: string) {
    exists i :: 0 <= i < |goals| && goals[i].id == k
  }

  predicate SortedByCreation(goals: seq<Goal>) {
    forall i, j :: 0 <= i < j < |goals| ==> goals[i].createdAt <= goals[j].createdAt
  }

  // ---------------------------------------------------------------------------
  // Properties of the statements.

  /** Merging an empty update changes nothing, and merging the same update
      twice is merging it once. */
  lemma MergeIdentityAndIdempotence(e: Goal, p: Patch)
    ensures Merge(e, NoChanges) == e
    ensures Merge(Merge(e, p), p) == Merge(e, p)
  {
  }

  /** Fetching a created goal gives the returned record up to the
      normalisation of storage: empty or zero optional values turned absent
      and `expanded` made a boolean. */
  lemma CreateReadBack(t: Table, id: string, g: NewGoal, now: int)
    requires id !in t
    ensures Find(CreateIn(t, id, g, now).1, id) == Some(Normalize(CreateIn(t, id, g, now).0.value))
  {
  }

  /** Fetching an updated goal gives the returned record up to normalisation,
      except that the id and the creation time are those already stored. */
  lemma UpdateReadBack(t: Table, id: string, p: Patch)
    requires WellKeyed(t) && id in t
    ensures Find(UpdateIn(t, id, p).1, id)
      == Some(Normalize(UpdateIn(t, id, p).0.value.(id := id, createdAt := t[id].createdAt)))
  {
  }

  /** Saving a goal exactly as it was fetched returns it and leaves the table
      as it was. */
  lemma ResaveUnchanged(t: Table, id: string)
    requires WellKeyed(t) && id in t && Written(t[id])
    ensures UpdateIn(t, id, AsPatch(Find(t, id).value)) == (Ok(Find(t, id).value), t)
  {
    var row := t[id];
    assert UpdateRow(row, MapRowToGoal(row)) == row;
    assert t[id := row] == t;
  }

  /** The record `updateGoal` returns can disagree with what it stored: an
      update that carries a different `createdAt` returns it, while the row
      keeps the old one. */
  lemma UpdateEchoesUnstoredFields(t: Table, id: string, p: Patch)
    requires WellKeyed(t) && id in t
    requires p.createdAt.Some? && p.createdAt.value != t[id].createdAt
    ensures UpdateIn(t, id, p).0.value.createdAt != MapRowToGoal(UpdateIn(t, id, p).1[id]).createdAt
  {
  }

  /** Reordering one goal is `updateGoal(goal.id, goal)`. */
  lemma ReorderOne(t: Table, g: Goal)
    ensures ReorderIn(t, [g])
      == (if g.id in t then Ok(()) else Err(GoalNotFound), UpdateIn(t, g.id, AsPatch(g)).1)
  {
    assert [g][1..] == [];
  }

  /** Reordering a list is reordering its first part and then, unless that
      failed, its second part on the table the first part left. */
  lemma {:induction false} ReorderAppend(t: Table, a: seq<Goal>, b: seq<Goal>)
    ensures ReorderIn(t, a + b)
      == if ReorderIn(t, a).0.Ok? then ReorderIn(ReorderIn(t, a).1, b) else ReorderIn(t, a)
  {
    if a == [] {
      assert a + b == b;
    } else {
      assert (a + b)[0] == a[0] && (a + b)[1..] == a[1..] + b;
      var step := UpdateIn(t, a[0].id, AsPatch(a[0]));
      if step.0.Ok? {
        ReorderAppend(step.1, a[1..], b);
      }
    }
  }

  /** When every goal names a stored row, reordering succeeds. */
  lemma {:induction false} ReorderAllPresent(t: Table, goals: seq<Goal>)
    requires forall i :: 0 <= i < |goals| ==> goals[i].id in t
    ensures ReorderIn(t, goals).0 == Ok(())
  {
    if goals != [] {
      var step := UpdateIn(t, goals[0].id, AsPatch(goals[0]));
      ReorderAllPresent(step.1, goals[1..]);
    }
  }

  /** When goal `k` is the first whose id names no row, reordering fails with
      "Goal not found" and leaves exactly the updates of the goals before it. */
  lemma {:induction false} ReorderStopsAtFirstMissing(t: Table, goals: seq<Goal>, k: int)
    requires 0 <= k < |goals|
    requires forall i :: 0 <= i < k ==> goals[i].id in t
    requires goals[k].id !in t
    ensures ReorderIn(t, goals) == (Err(GoalNotFound), ReorderIn(t, goals[..k]).1)
  {
    if k > 0 {
      var step := UpdateIn(t, goals[0].id, AsPatch(goals[0]));
      assert step.0.Ok? && step.1.Keys == t.Keys;
      var rest := goals[1..];
      assert rest[..k - 1] == goals[..k][1..] && goals[..k][0] == goals[0];
      ReorderStopsAtFirstMissing(step.1, rest, k - 1);
      assert ReorderIn(t, goals) == ReorderIn(step.1, rest);
      assert ReorderIn(t, goals[..k]) == ReorderIn(step.1, rest[..k - 1]);
    }
  }

  /** Among the rows of `t`, one with the earliest creation time. */
  lemma {:induction false} EarliestExists(t: Table, keys: set<string>)
    requires keys != {} && keys <= t.Keys
    ensures exists k :: k in keys && forall k' :: k' in keys ==> t[k].createdAt <= t[k'].createdAt
  {
    var x :| x in keys;
    if keys != {x} {
      EarliestExists(t, keys - {x});
      var y :| y in keys - {x} && forall k' :: k' in keys - {x} ==> t[y].createdAt <= t[k'].createdAt;
      if t[x].createdAt < t[y].createdAt {
        assert forall k' :: k' in keys ==> t[x].createdAt <= t[k'].createdAt;
      } else {
        assert forall k' :: k' in keys ==> t[y].createdAt <= t[k'].createdAt;
      }
    }
  }

  /** Loop invariant of `GetAllGoals`: `goals` lists, in creation order, the
      mapped rows whose keys are not in `remaining`, and none of them was
      created after a remaining row. */
  ghost predicate Listing(t: Table, remaining: set<string>, goals: seq<Goal>) {
    && remaining <= t.Keys
    && (forall i :: 0 <= i < |goals| ==>
          goals[i].id in t && goals[i].id !in remaining && goals[i] == MapRowToGoal(t[goals[i].id]))
    && (forall k :: k in t && k !in remaining ==> Listed(goals, k))
    && |goals| + |remaining| == |t|
    && UniqueIds(goals)
    && SortedByCreation(goals)
    && (forall i, k :: 0 <= i < |goals| && k in remaining ==> goals[i].createdAt <= t[k].createdAt)
  }

  /** Moving an earliest remaining row to the end of the listing keeps the invariant. */
  lemma ListingStep(t: Table, remaining: set<string>, goals: seq<Goal>, k: string)
    requires WellKeyed(t) && Listing(t, remaining, goals)
    requires k in remaining && forall k' :: k' in remaining ==> t[k].createdAt <= t[k'].createdAt
    ensures Listing(t, remaining - {k}, goals + [MapRowToGoal(t[k])])
  {
    var goals', remaining' := goals + [MapRowToGoal(t[k])], remaining - {k};
    assert |remaining'| == |remaining| - 1;
    ListingStepKeys(t, remaining, goals, k);
    ListingStepOrder(t, remaining, goals, k);
  }

  lemma ListingStepKeys(t: Table, remaining: set<string>, goals: seq<Goal>, k: string)
    requires WellKeyed(t) && Listing(t, remaining, goals) && k in remaining
    ensures forall k' :: k' in t && k' !in remaining - {k} ==> Listed(goals + [MapRowToGoal(t[k])], k')
    ensures forall i :: 0 <= i < |goals| + 1 ==>
      var g := (goals + [MapRowToGoal(t[k])])[i];
      g.id in t && g.id !in remaining - {k} && g == MapRowToGoal(t[g.id])
  {
    var goals' := goals + [MapRowToGoal(t[k])];
    assert goals'[|goals|].id == k;
    forall k' | k' in t && k' !in remaining - {k} ensures Listed(goals', k') {
      if k' != k {
        var i :| 0 <= i < |goals| && goals[i].id == k';
        assert goals'[i] == goals[i];
      }
    }
  }

  lemma ListingStepOrder(t: Table, remaining: set<string>, goals: seq<Goal>, k: string)
    requires WellKeyed(t) && Listing(t, remaining, goals)
    requires k in remaining && forall k' :: k' in remaining ==> t[k].createdAt <= t[k'].createdAt
    ensures UniqueIds(goals + [MapRowToGoal(t[k])]) && SortedByCreation(goals + [MapRowToGoal(t[k])])
    ensures forall i, k' :: 0 <= i < |goals| + 1 && k' in remaining - {k} ==>
      (goals + [MapRowToGoal(t[k])])[i].createdAt <= t[k'].createdAt
  {
    var g := MapRowToGoal(t[k]);
    assert g.id == k && g.createdAt == t[k].createdAt;
    AppendLatest(goals, g);
    var goals' := goals + [g];
    forall i, k' | 0 <= i < |goals| + 1 && k' in remaining - {k}
      ensures goals'[i].createdAt <= t[k'].createdAt
    {
      if i < |goals| {
        assert goals'[i] == goals[i];
      }
    }
  }

  /** A goal with a fresh id and no earlier creation time extends an ordered listing. */
  lemma AppendLatest(goals: seq<Goal>, g: Goal)
    requires UniqueIds(goals) && SortedByCreation(goals)
    requires forall i :: 0 <= i < |goals| ==> goals[i].id != g.id && goals[i].createdAt <= g.createdAt
    ensures UniqueIds(goals + [g]) && SortedByCreation(goals + [g])
  {
    var goals' := goals + [g];
    assert forall i :: 0 <= i < |goals| ==> goals'[i] == goals[i];
  }

  /** The service over its table. */
  class GoalService {
    var table: Table

    ghost predicate Valid()
      reads this
    {
      WellKeyed(table)
    }

    /** A service over the rows already in the database. */
    constructor (rows: Table)
      requires WellKeyed(rows)
      ensures Valid() && table == rows
    {
      table := rows;
    }

    /** `getAllGoals`: every row once, mapped, by ascending `created_at`. */
    method GetAllGoals() returns (goals: seq<Goal>)
      requires Valid()
      ensures SortedByCreation(goals)
      ensures UniqueIds(goals) && |goals| == |table|
      ensures forall i :: 0 <= i < |goals| ==> goals[i].id in table && goals[i] == MapRowToGoal(table[goals[i].id])
      ensures forall k :: k in table ==> Listed(goals, k)
    {
      var remaining := table.Keys;
      goals := [];
      while remaining != {}
        invariant Listing(table, remaining, goals)
        decreases |remaining|
      {
        EarliestExists(table, remaining);
        var k :| k in remaining && forall k' :: k' in remaining ==> table[k].createdAt <= table[k'].createdAt;
        ListingStep(table, remaining, goals, k);
        goals := goals + [MapRowToGoal(table[k])];
        remaining := remaining - {k};
      }
    }

    /** `getGoalById`: the goal stored under `id`, or null. */
    method GetGoalById(id: string) returns (r: Option<Goal>)
      requires Valid()
      ensures r == Find(table, id)
    {
      if id in table {
        r := Some(MapRowToGoal(table[id]));
      } else {
        r := None;
      }
    }

    /** `createGoal`, with the uuid and `Date.now()` passed in. */
    method CreateGoal(g: NewGoal, id: string, now: int) returns (r: Result<Goal, StoreError>)
      requires Valid()
      modifies this
      ensures Valid()
      ensures (r, table) == CreateIn(old(table), id, g, now)
    {
      if id in table {
        return Err(DuplicateId);
      }
      table := table[id := InsertRow(id, g, now)];
      r := Ok(Created(id, g, now));
    }

    /** `updateGoal`. */
    method UpdateGoal(id: string, updates: Patch) returns (r: Result<Goal, StoreError>)
      requires Valid()
      modifies this
      ensures Valid()
      ensures (r, table) == UpdateIn(old(table), id, updates)
    {
      var existing := GetGoalById(id);
      if existing.None? {
        return Err(GoalNotFound);
      }
      var merged := Merge(existing.value, updates);
      table := table[id := UpdateRow(table[id], merged)];
      r := Ok(merged);
    }

    /** `deleteGoal`. */
    method DeleteGoal(id: string) returns (r: Result<(), StoreError>)
      requires Valid()
      modifies this
      ensures Valid()
      ensures (r, table) == DeleteIn(old(table), id)
    {
      var affected := id in table;
      if !affected {
        return Err(GoalNotFound);
      }
      table := table - {id};
      r := Ok(());
    }

    /** `reorderGoals`: the updates one after another, not atomically. */
    method ReorderGoals(goals: seq<Goal>) returns (r: Result<(), StoreError>)
      requires Valid()
      modifies this
      ensures Valid()
      ensures (r, table) == ReorderIn(old(table), goals)
    {
      var i := 0;
      while i < |goals|
        invariant 0 <= i <= |goals|
        invariant Valid()
        invariant ReorderIn(old(table), goals) == ReorderIn(table, goals[i..])
      {
        assert goals[i..][1..] == goals[i + 1..];
        var step := UpdateGoal(goals[i].id, AsPatch(goals[i]));
        if step.Err? {
          return Err(GoalNotFound);
        }
        i := i + 1;
      }
      r := Ok(());
    }
  }
}
