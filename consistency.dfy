/**
  The invariant that ties the task list to the category list on the task
  screen: "Uncategorized" and the selected category are listed, no category is
  listed twice, and every task's category is listed. Each handler keeps it; the rename and delete handlers
  only under the guards the screen applies before calling them (no Edit or
  Delete button for "Uncategorized", app/tasks.tsx:1743, and the check in
  deleteCategory, app/tasks.tsx:1678).
 */
module Consistency {
  import opened Wrappers
  import opened Text
  import opened TaskList
  import opened Categories

  predicate Consistent(tasks: seq<Task>, categories: seq<string>, selected: string)
  {
    && Uncategorized in categories
    && selected in categories
    && NoDuplicates(categories)
    && forall t :: t in tasks ==> t.category in categories
  }

  /** The state a fresh screen starts in (app/tasks.tsx:1386-1390) is consistent. */
  lemma InitialConsistent()
    ensures Consistent([], [Uncategorized], Uncategorized)
  {
  }

  /** addTask files the new task under the selected category, which is listed. */
  lemma AddTaskKeeps(tasks: seq<Task>, categories: seq<string>, selected: string,
                     input: string, id: string, createdAt: string)
    requires Consistent(tasks, categories, selected)
    ensures Consistent(AddTask(tasks, input, id, createdAt, selected), categories, selected)
  {
    var r := AddTask(tasks, input, id, createdAt, selected);
    forall t | t in r ensures t.category in categories {
      if !IsBlank(input) {
        assert r == r[..|tasks|] + [r[|tasks|]];
      }
    }
  }

  /** Toggling, editing the text or priority of, and deleting tasks leave every category where it was. */
  lemma TaskEditsKeep(tasks: seq<Task>, categories: seq<string>, selected: string,
                      id: string, text: string, priority: Option<Priority>)
    requires Consistent(tasks, categories, selected)
    ensures Consistent(ToggleTask(tasks, id), categories, selected)
    ensures Consistent(UpdateTask(tasks, id, text), categories, selected)
    ensures Consistent(SetPriority(tasks, id, priority), categories, selected)
    ensures Consistent(DeleteTask(tasks, id), categories, selected)
  {
    forall i | 0 <= i < |tasks| ensures tasks[i].category in categories {
      assert tasks[i] in tasks;
    }
  }

  /** addCategory keeps the list free of duplicates and selects the category it adds. */
  lemma AddCategoryKeeps(tasks: seq<Task>, categories: seq<string>, selected: string, input: string)
    requires Consistent(tasks, categories, selected)
    ensures Consistent(tasks, AddCategory(categories, input),
                       if IsNewName(categories, input) then Trim(input) else selected)
  {
  }

  /**
    updateCategory with a new name: the category is renamed in place, its
    tasks and the selection follow it, and the rest stays listed.
   */
  lemma RenameKeeps(tasks: seq<Task>, categories: seq<string>, selected: string, from: string, input: string)
    requires Consistent(tasks, categories, selected)
    requires from != Uncategorized && IsNewName(categories, input)
    ensures Consistent(MoveTasks(tasks, from, Trim(input)), RenameCategory(categories, from, Trim(input)),
                       if selected == from then Trim(input) else selected)
  {
    var name := Trim(input);
    var cs := RenameCategory(categories, from, name);
    RenameCategoryMembers(categories, from, name);
    var ts := MoveTasks(tasks, from, name);
    forall t | t in ts ensures t.category in cs {
      var i :| 0 <= i < |ts| && ts[i] == t;
      assert tasks[i] in tasks;
    }
  }

  /**
    handleConfirmDeleteCategory for any category but "Uncategorized": its tasks
    move to "Uncategorized", the selection falls back there, the rest stays listed.
   */
  lemma RemoveKeeps(tasks: seq<Task>, categories: seq<string>, selected: string, category: string)
    requires Consistent(tasks, categories, selected)
    requires category != Uncategorized
    ensures Consistent(MoveTasks(tasks, category, Uncategorized), RemoveCategory(categories, category),
                       if selected == category then Uncategorized else selected)
  {
    var cs := RemoveCategory(categories, category);
    SubsequenceNoDuplicates(cs, categories);
    var ts := MoveTasks(tasks, category, Uncategorized);
    forall t | t in ts ensures t.category in cs {
      var i :| 0 <= i < |ts| && ts[i] == t;
      assert tasks[i] in tasks;
    }
  }

  /**
    Renaming "Uncategorized" away loses it from the list, which is why the
    screen never offers it for renaming: a later deletion would then move tasks
    into a category that is not listed.
   */
  lemma RenamingUncategorizedBreaks(tasks: seq<Task>, categories: seq<string>, selected: string, name: string)
    requires name != Uncategorized
    ensures Uncategorized !in RenameCategory(categories, Uncategorized, name)
    ensures !Consistent(tasks, RenameCategory(categories, Uncategorized, name), selected)
  {
  }

  /**
    Renaming a category to a new name and then back restores the tasks, the
    categories and the selection.
   */
  lemma RenameRoundTrip(tasks: seq<Task>, categories: seq<string>, selected: string, from: string, input: string)
    requires Consistent(tasks, categories, selected) && AllNames(categories)
    requires from in categories && IsNewName(categories, input)
    ensures var name := Trim(input);
      && IsNewName(RenameCategory(categories, from, name), from)
      && RenameCategory(RenameCategory(categories, from, name), name, from) == categories
      && MoveTasks(MoveTasks(tasks, from, name), name, from) == tasks
      && (var sel := if selected == from then name else selected;
          (if sel == name then from else sel) == selected)
  {
    var name := Trim(input);
    var cs := RenameCategory(categories, from, name);
    RenameCategoryMembers(categories, from, name);
    TrimOfTrimmed(from);
    RenameBack(categories, from, name);
    assert forall t :: t in tasks ==> t.category != name;
    MoveTasksBack(tasks, from, name);
  }
}
