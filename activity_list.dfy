/**
 * The list view: one row per activity, each with its category badge and an
 * edit and a delete control, or a notice when there is nothing to list.
 * The category catalog is a parameter: a sequence of (id, name) entries.
 */
module ActivityList {
  import opened Activities
  import Form

  /** An entry of the category catalog. */
  datatype Category = Category(id: int, name: string)

  /** No two catalog entries share an id. */
  ghost predicate UniqueCategoryIds(catalog: seq<Category>)
  {
    forall i, j :: 0 <= i < |catalog| && 0 <= j < |catalog| && catalog[i].id == catalog[j].id ==> i == j
  }

  /** The badge text of a row: the catalog mapped entry by entry, each entry
      giving its name if its id is `category` and the empty string if not. */
  function CategoryName(catalog: seq<Category>, category: int): (names: seq<string>)
    ensures |names| == |catalog|
    ensures forall i :: 0 <= i < |catalog| ==>
      names[i] == (if catalog[i].id == category then catalog[i].name else "")
  {
    if catalog == [] then []
    else [if catalog[0].id == category then catalog[0].name else ""] + CategoryName(catalog[1..], category)
  }

  /** The text a sequence of strings renders as: the strings one after another. */
  function Concat(parts: seq<string>): string
  {
    if parts == [] then "" else parts[0] + Concat(parts[1..])
  }

  /** An id no catalog entry has gets a badge of empty strings only, which
      renders as nothing. */
  lemma {:induction false} UnknownCategoryRendersBlank(catalog: seq<Category>, category: int)
    requires forall i :: 0 <= i < |catalog| ==> catalog[i].id != category
    ensures forall i :: 0 <= i < |catalog| ==> CategoryName(catalog, category)[i] == ""
    ensures Concat(CategoryName(catalog, category)) == ""
  {
    if catalog != [] {
      UnknownCategoryRendersBlank(catalog[1..], category);
      assert CategoryName(catalog, category)[1..] == CategoryName(catalog[1..], category);
    }
  }

  /** With unique catalog ids, a known id's badge holds its name at exactly
      one position, and renders as that name. */
  lemma {:induction false} KnownCategoryRendersItsName(catalog: seq<Category>, category: int, i: nat)
    requires UniqueCategoryIds(catalog)
    requires i < |catalog| && catalog[i].id == category
    ensures forall j :: 0 <= j < |catalog| && j != i ==> CategoryName(catalog, category)[j] == ""
    ensures Concat(CategoryName(catalog, category)) == catalog[i].name
  {
    var names := CategoryName(catalog, category);
    assert names[1..] == CategoryName(catalog[1..], category);
    if i == 0 {
      UnknownCategoryRendersBlank(catalog[1..], category);
    } else {
      KnownCategoryRendersItsName(catalog[1..], category, i - 1);
    }
  }

  /** Whether the list is empty, which shows the notice instead of rows. */
  function IsEmptyActivities(activities: seq<Activity>): (empty: bool)
    ensures empty <==> activities == []
  {
    |activities| == 0
  }

  /** One rendered row: keyed by the activity's id, with its badge, name and
      calories, and the actions its edit and delete controls dispatch. */
  datatype Row = Row(key: string, badge: seq<string>, name: string, calories: int,
                     edit: ActivityAction, delete: ActivityAction)

  /** The rows of the list, one per activity and in the same order. */
  function Rows(catalog: seq<Category>, activities: seq<Activity>): (rows: seq<Row>)
    ensures |rows| == |activities|
    ensures forall k :: 0 <= k < |activities| ==>
      && rows[k].key == activities[k].id
      && rows[k].badge == CategoryName(catalog, activities[k].category)
      && rows[k].name == activities[k].name
      && rows[k].calories == activities[k].calories
      && rows[k].edit == SetActiveId(activities[k].id)
      && rows[k].delete == DeleteActivity(activities[k].id)
  {
    if activities == [] then []
    else
      var a := activities[0];
      [Row(a.id, CategoryName(catalog, a.category), a.name, a.calories, SetActiveId(a.id), DeleteActivity(a.id))]
        + Rows(catalog, activities[1..])
  }

  /** What the list shows. */
  datatype View = NoActivitiesNotice | ActivityRows(rows: seq<Row>)

  /** The notice exactly when there are no activities, the rows otherwise. */
  function Render(catalog: seq<Category>, activities: seq<Activity>): (view: View)
    ensures view.NoActivitiesNotice? <==> activities == []
    ensures view.ActivityRows? ==> view.rows == Rows(catalog, activities) && |view.rows| == |activities|
  {
    if IsEmptyActivities(activities) then NoActivitiesNotice else ActivityRows(Rows(catalog, activities))
  }

  /** With unique ids, the id that row k's edit control selects makes the
      form load row k's activity, and its delete control names no other row. */
  lemma EditAndDeleteTargetTheirRow(catalog: seq<Category>, activities: seq<Activity>, k: nat)
    requires UniqueIds(activities) && k < |activities|
    ensures Form.HasId(activities, Rows(catalog, activities)[k].edit.id)
    ensures Form.FirstIndexWithId(activities, Rows(catalog, activities)[k].edit.id) == k
    ensures forall j :: 0 <= j < |activities| && activities[j].id == Rows(catalog, activities)[k].delete.id ==> j == k
  {
  }
}
