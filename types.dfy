/** The goal record shared by the store and the progress report (types.ts). */
module Types {
  import opened Wrappers

  /** A goal as the API exchanges it. Fields that the interface marks optional
      are `Option`s; `parentId` is `string | null`, also an `Option`.
      Timestamps are epoch milliseconds. */
  datatype Goal = Goal(
    id: string,
    title: string,
    description: Option<string>,
    parentId: Option<string>,
    progress: int,
    isCompleted: bool,
    createdAt: int,
    completedAt: Option<int>,
    scheduledDays: Option<seq<int>>,
    oneTimeTask: Option<int>,
    expanded: Option<bool>,
    reminder: Option<int>)

  /** JavaScript truthiness of an optional string: absent and "" are falsy. */
  predicate TruthyText(s: Option<string>) {
    s.Some? && s.value != ""
  }

  /** JavaScript truthiness of an optional number: absent and 0 are falsy. */
  predicate TruthyNumber(n: Option<int>) {
    n.Some? && n.value != 0
  }

  /** No two goals of the list share an id (the table's primary key). */
  predicate UniqueIds(goals: seq<Goal>) {
    forall i, j :: 0 <= i < j < |goals| ==> goals[i].id != goals[j].id
  }
}
