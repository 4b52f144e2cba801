/**
 * The entry form: one draft activity that the user edits field by field,
 * that is loaded from the list when an entry is selected for editing, and
 * that is handed to the store as a `save-activity` action on submit, after
 * which the form starts over from the defaults with a fresh id.
 */
module Form {
  import opened Activities
  import opened JsString

  /** The food category: a new draft starts in it, and it picks the label. */
  const FoodCategory := 1

  const FoodLabel := "Guardar Comida"
  const ExerciseLabel := "Guardar Ejercicio"

  /** The defaults a draft starts from, under the id it is given. A fresh
      draft cannot be submitted, and it offers to save a food entry. */
  function InitialDraft(id: string): (draft: Activity)
    ensures draft.id == id && draft.category == FoodCategory
    ensures !IsValidActivity(draft)
    ensures SubmitLabel(draft.category) == FoodLabel
  {
    Activity(id, FoodCategory, "", 0)
  }

  /** Whether the submit control is enabled: the name holds something other
      than white space and the calories are positive. */
  function IsValidActivity(activity: Activity): (valid: bool)
    ensures valid <==> HasVisibleChar(activity.name) && activity.calories > 0
  {
    Trim(activity.name) != "" && activity.calories > 0
  }

  /** The submit control's caption: it depends on the category alone. */
  function SubmitLabel(category: int): (caption: string)
    ensures caption == FoodLabel <==> category == FoodCategory
    ensures caption == ExerciseLabel <==> category != FoodCategory
  {
    if category == FoodCategory then FoodLabel else ExerciseLabel
  }

  /** The activities whose id is `id`, in list order (the form's filter). */
  function WithId(activities: seq<Activity>, id: string): (matches: seq<Activity>)
    ensures forall a :: a in matches ==> a in activities && a.id == id
    ensures forall i :: 0 <= i < |activities| && activities[i].id == id ==> activities[i] in matches
  {
    if activities == [] then []
    else (if activities[0].id == id then [activities[0]] else []) + WithId(activities[1..], id)
  }

  /** Some activity carries the id `id`. */
  ghost predicate HasId(activities: seq<Activity>, id: string)
  {
    exists i :: 0 <= i < |activities| && activities[i].id == id
  }

  /** The position of the first activity whose id is `id`. */
  ghost function FirstIndexWithId(activities: seq<Activity>, id: string): (k: nat)
    requires HasId(activities, id)
    ensures k < |activities| && activities[k].id == id
    ensures forall j :: 0 <= j < k ==> activities[j].id != id
  {
    if activities[0].id == id then 0
    else
      assert HasId(activities[1..], id) by {
        var i :| 0 <= i < |activities| && activities[i].id == id;
        assert activities[1..][i - 1] == activities[i];
      }
      1 + FirstIndexWithId(activities[1..], id)
  }

  /** Taking the head of the filter picks the first activity with that id. */
  lemma {:induction false} FilterHeadIsFirst(activities: seq<Activity>, id: string)
    requires HasId(activities, id)
    ensures |WithId(activities, id)| > 0
    ensures WithId(activities, id)[0] == activities[FirstIndexWithId(activities, id)]
  {
    if activities[0].id != id {
      assert HasId(activities[1..], id) by {
        var i :| 0 <= i < |activities| && activities[i].id == id;
        assert activities[1..][i - 1] == activities[i];
      }
      FilterHeadIsFirst(activities[1..], id);
    }
  }

  /** With unique ids, looking an entry's id up finds that very entry. */
  lemma LookupFindsOwnEntry(activities: seq<Activity>, k: nat)
    requires UniqueIds(activities) && k < |activities|
    ensures HasId(activities, activities[k].id)
    ensures FirstIndexWithId(activities, activities[k].id) == k
  {
  }

  /** The form component and its draft. */
  class ActivityForm {
    var draft: Activity

    /** A form starts from the defaults under the id it was given. */
    constructor (initialId: string)
      ensures draft == InitialDraft(initialId)
      ensures !IsValidActivity(draft)
    {
      draft := InitialDraft(initialId);
    }

    /** The category selector: replaces the category and nothing else. */
    method SetCategory(category: int)
      modifies this
      ensures draft == old(draft).(category := category)
    {
      draft := draft.(category := category);
    }

    /** The name input: replaces the name and nothing else. */
    method SetName(name: string)
      modifies this
      ensures draft == old(draft).(name := name)
    {
      draft := draft.(name := name);
    }

    /** The calories input: replaces the calories and nothing else. */
    method SetCalories(calories: int)
      modifies this
      ensures draft == old(draft).(calories := calories)
    {
      draft := draft.(calories := calories);
    }

    /** The effect that runs when the store's selection changes: with no
        selection the draft stays; otherwise it becomes the first listed
        activity with the selected id. */
    method SelectForEdit(activeId: string, activities: seq<Activity>)
      requires activeId != "" ==> HasId(activities, activeId)
      modifies this
      ensures activeId == "" ==> draft == old(draft)
      ensures activeId != "" ==> draft == activities[FirstIndexWithId(activities, activeId)]
      ensures activeId != "" ==> draft.id == activeId
    {
      if activeId != "" {
        FilterHeadIsFirst(activities, activeId);
        draft := WithId(activities, activeId)[0];
      }
    }

    /** Submitting hands the store exactly the current draft and starts a
        new, not yet submittable draft under `freshId`. */
    method Submit(freshId: string) returns (action: ActivityAction)
      modifies this
      ensures action == SaveActivity(old(draft))
      ensures draft == InitialDraft(freshId)
      ensures !IsValidActivity(draft)
    {
      action := SaveActivity(draft);
      draft := InitialDraft(freshId);
    }
  }
}
