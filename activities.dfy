/**
 * The records the calorie tracker's components share: an activity entry
 * (a food or an exercise) and the actions the components hand to the
 * store's dispatcher. The store's reaction to an action is not modelled
 * here: the components only build these values and pass them on.
 */
module Activities {

  /** One entry of the tracker. `category` is the id of a catalog category
      (1 is food in the shipped catalog); `calories` is the entered amount. */
  datatype Activity = Activity(id: string, category: int, name: string, calories: int)

  /** The three actions the form and the list dispatch. */
  datatype ActivityAction =
    | SaveActivity(newActivity: Activity)
    | SetActiveId(id: string)
    | DeleteActivity(id: string)

  /** No two entries of `activities` share an id. */
  ghost predicate UniqueIds(activities: seq<Activity>)
  {
    forall i, j :: 0 <= i < |activities| && 0 <= j < |activities| && activities[i].id == activities[j].id ==> i == j
  }
}
