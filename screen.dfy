/**
  The state manager of the task screen (`TasksScreen`, app/tasks.tsx:1385-1701):
  a component whose handlers rebuild the task or category list and replace the
  state with the result, then write the whole list to storage. Storage is
  modelled by the last list written under each key; loading it at start-up
  is not part of this model.
 */
module Screen {
  import opened Wrappers
  import opened Text
  import TaskList
  import Categories
  import Consistency

  class TasksScreen {
    var tasks: seq<TaskList.Task>
    var categories: seq<string>
    var selectedCategory: string
    /** The text of the task input field. */
    var newTask: string
    /** The text of the project input field. */
    var newCategory: string
    /** The category whose edit dialog is open. */
    var editingCategory: Option<string>
    /** The category the delete confirmation asks about. */
    var deletingCategory: Option<string>
    var isDeleteCategoryAlertVisible: bool
    /** What the tasks key of storage holds; `None` until the first write. */
    var storedTasks: Option<seq<TaskList.Task>>
    /** What the categories key of storage holds; `None` until the first write. */
    var storedCategories: Option<seq<string>>

    /** Storage holds the in-memory lists, or nothing while they still have their initial values. */
    ghost predicate Persisted()
      reads this
    {
      && (if storedTasks.Some? then storedTasks.value == tasks else tasks == [])
      && (if storedCategories.Some? then storedCategories.value == categories
          else categories == [Categories.Uncategorized])
    }

    ghost predicate Valid()
      reads this
    {
      && Consistency.Consistent(tasks, categories, selectedCategory)
      && Categories.AllNames(categories)
      && (editingCategory.Some? ==> editingCategory.value != Categories.Uncategorized)
      && (deletingCategory.Some? ==> deletingCategory.value != Categories.Uncategorized)
      && Persisted()
    }

    /** The initial state (app/tasks.tsx:1386-1400). */
    constructor ()
      ensures Valid()
      ensures tasks == [] && categories == [Categories.Uncategorized]
      ensures selectedCategory == Categories.Uncategorized
      ensures newTask == "" && newCategory == ""
      ensures editingCategory == None && deletingCategory == None && !isDeleteCategoryAlertVisible
      ensures storedTasks == None && storedCategories == None
    {
      tasks := [];
      categories := [Categories.Uncategorized];
      selectedCategory := Categories.Uncategorized;
      newTask := "";
      newCategory := "";
      editingCategory := None;
      deletingCategory := None;
      isDeleteCategoryAlertVisible := false;
      storedTasks := None;
      storedCategories := None;
      Consistency.InitialConsistent();
      Categories.InitialNames();
    }

    /** Typing into the task input field (app/tasks.tsx:1927-1928). */
    method SetNewTask(text: string)
      modifies this`newTask
      ensures newTask == text
    {
      newTask := text;
    }

    /** Typing into the project input field (app/tasks.tsx:1787-1788). */
    method SetNewCategory(text: string)
      modifies this`newCategory
      ensures newCategory == text
    {
      newCategory := text;
    }

    /**
      addTask (app/tasks.tsx:1483-1497). Blank input changes nothing; otherwise
      the typed text becomes a new task of the selected category, the list is
      saved and the input field is cleared.
     */
    method AddTask(id: string, createdAt: string)
      requires Valid()
      modifies this`tasks, this`newTask, this`storedTasks
      ensures Valid()
      ensures tasks == TaskList.AddTask(old(tasks), old(newTask), id, createdAt, selectedCategory)
      ensures IsBlank(old(newTask)) ==> newTask == old(newTask) && storedTasks == old(storedTasks)
      ensures !IsBlank(old(newTask)) ==> newTask == "" && storedTasks == Some(tasks)
    {
      if Trim(newTask) == "" {
        return;
      }
      Consistency.AddTaskKeeps(tasks, categories, selectedCategory, newTask, id, createdAt);
      var updated := TaskList.AddTask(tasks, newTask, id, createdAt, selectedCategory);
      tasks := updated;
      storedTasks := Some(updated);
      newTask := "";
    }

    /**
      addCategory (app/tasks.tsx:1502-1512). A blank or already listed name
      changes nothing; otherwise the trimmed name is appended, saved and selected.
     */
    method AddCategory()
      requires Valid()
      modifies this`categories, this`newCategory, this`selectedCategory, this`storedCategories
      ensures Valid()
      ensures categories == Categories.AddCategory(old(categories), old(newCategory))
      ensures Categories.IsNewName(old(categories), old(newCategory)) ==>
        && selectedCategory == Trim(old(newCategory)) && newCategory == ""
        && storedCategories == Some(categories)
      ensures !Categories.IsNewName(old(categories), old(newCategory)) ==>
        && selectedCategory == old(selectedCategory) && newCategory == old(newCategory)
        && storedCategories == old(storedCategories)
    {
      if Trim(newCategory) == "" || Trim(newCategory) in categories {
        return;
      }
      Consistency.AddCategoryKeeps(tasks, categories, selectedCategory, newCategory);
      Categories.AddCategoryNames(categories, newCategory);
      var updated := Categories.AddCategory(categories, newCategory);
      categories := updated;
      storedCategories := Some(updated);
      selectedCategory := Trim(newCategory);
      newCategory := "";
    }

    /** Picking a project from the list (app/tasks.tsx:1728-1731). */
    method SelectCategory(category: string)
      requires Valid() && category in categories
      modifies this`selectedCategory
      ensures Valid()
      ensures selectedCategory == category
    {
      selectedCategory := category;
    }

    /** toggleTask (app/tasks.tsx:1514-1521). */
    method ToggleTask(id: string)
      requires Valid()
      modifies this`tasks, this`storedTasks
      ensures Valid()
      ensures tasks == TaskList.ToggleTask(old(tasks), id) && storedTasks == Some(tasks)
    {
      Consistency.TaskEditsKeep(tasks, categories, selectedCategory, id, "", None);
      tasks := TaskList.ToggleTask(tasks, id);
      storedTasks := Some(tasks);
    }

    /** updateTask (app/tasks.tsx:1637-1643), reached from the task edit dialog (app/tasks.tsx:2008-2012). */
    method UpdateTask(id: string, text: string)
      requires Valid()
      modifies this`tasks, this`storedTasks
      ensures Valid()
      ensures tasks == TaskList.UpdateTask(old(tasks), id, text) && storedTasks == Some(tasks)
    {
      Consistency.TaskEditsKeep(tasks, categories, selectedCategory, id, text, None);
      tasks := TaskList.UpdateTask(tasks, id, text);
      storedTasks := Some(tasks);
    }

    /** The priority setter handed to each task row (app/tasks.tsx:1988-1994). */
    method SetPriority(id: string, priority: Option<TaskList.Priority>)
      requires Valid()
      modifies this`tasks, this`storedTasks
      ensures Valid()
      ensures tasks == TaskList.SetPriority(old(tasks), id, priority) && storedTasks == Some(tasks)
    {
      Consistency.TaskEditsKeep(tasks, categories, selectedCategory, id, "", priority);
      tasks := TaskList.SetPriority(tasks, id, priority);
      storedTasks := Some(tasks);
    }

    /** deleteTask (app/tasks.tsx:1645-1649). */
    method DeleteTask(id: string)
      requires Valid()
      modifies this`tasks, this`storedTasks
      ensures Valid()
      ensures tasks == TaskList.DeleteTask(old(tasks), id) && storedTasks == Some(tasks)
    {
      Consistency.TaskEditsKeep(tasks, categories, selectedCategory, id, "", None);
      tasks := TaskList.DeleteTask(tasks, id);
      storedTasks := Some(tasks);
    }

    /**
      The Edit button of a project (app/tasks.tsx:1750), shown only for listed
      projects other than "Uncategorized" (app/tasks.tsx:1743).
     */
    method EditCategory(category: string)
      requires Valid() && category in categories && category != Categories.Uncategorized
      modifies this`editingCategory
      ensures Valid()
      ensures editingCategory == Some(category)
    {
      editingCategory := Some(category);
    }

    /**
      updateCategory (app/tasks.tsx:1651-1675). A blank or already listed name
      renames nothing; a new one replaces `from` in place, moves its tasks and
      the selection to the trimmed name, and saves both lists. Either way the
      edit dialog's project is cleared. Its one caller passes the project being
      edited, never "Uncategorized".
     */
    method UpdateCategory(from: string, input: string)
      requires Valid() && from != Categories.Uncategorized
      modifies this`tasks, this`categories, this`selectedCategory, this`editingCategory,
               this`storedTasks, this`storedCategories
      ensures Valid()
      ensures editingCategory == None
      ensures Categories.IsNewName(old(categories), input) ==>
        && categories == Categories.RenameCategory(old(categories), from, Trim(input))
        && tasks == TaskList.MoveTasks(old(tasks), from, Trim(input))
        && selectedCategory == (if old(selectedCategory) == from then Trim(input) else old(selectedCategory))
        && storedCategories == Some(categories) && storedTasks == Some(tasks)
      ensures !Categories.IsNewName(old(categories), input) ==>
        && categories == old(categories) && tasks == old(tasks) && selectedCategory == old(selectedCategory)
        && storedCategories == old(storedCategories) && storedTasks == old(storedTasks)
    {
      var name := Trim(input);
      if name == "" || name in categories {
        editingCategory := None;
        return;
      }
      var updatedCategories := Categories.RenameCategory(categories, from, name);
      var updatedTasks := TaskList.MoveTasks(tasks, from, name);
      var updatedSelection := if selectedCategory == from then name else selectedCategory;
      Consistency.RenameKeeps(tasks, categories, selectedCategory, from, input);
      Categories.RenameCategoryNames(categories, from, input);
      assert Consistency.Consistent(updatedTasks, updatedCategories, updatedSelection);
      assert Categories.AllNames(updatedCategories);
      categories, tasks, selectedCategory := updatedCategories, updatedTasks, updatedSelection;
      storedCategories, storedTasks := Some(updatedCategories), Some(updatedTasks);
      editingCategory := None;
    }

    /**
      Saving the project edit dialog: it refuses a blank name and stays open
      (app/tasks.tsx:132-137); otherwise it hands the text to updateCategory for
      the project being edited, if any (app/tasks.tsx:2021-2024), and closes
      (app/tasks.tsx:139-140, 2020).
     */
    method SaveCategoryEdit(input: string)
      requires Valid()
      modifies this`tasks, this`categories, this`selectedCategory, this`editingCategory,
               this`storedTasks, this`storedCategories
      ensures Valid()
      ensures IsBlank(input) ==>
        && editingCategory == old(editingCategory) && categories == old(categories) && tasks == old(tasks)
        && selectedCategory == old(selectedCategory)
        && storedCategories == old(storedCategories) && storedTasks == old(storedTasks)
      ensures !IsBlank(input) ==> editingCategory == None
      ensures old(editingCategory).Some? && old(editingCategory).value != "" && Categories.IsNewName(old(categories), input) ==>
        var from := old(editingCategory).value;
        && categories == Categories.RenameCategory(old(categories), from, Trim(input))
        && tasks == TaskList.MoveTasks(old(tasks), from, Trim(input))
        && selectedCategory == (if old(selectedCategory) == from then Trim(input) else old(selectedCategory))
        && storedCategories == Some(categories) && storedTasks == Some(tasks)
      ensures !(old(editingCategory).Some? && old(editingCategory).value != "" && Categories.IsNewName(old(categories), input)) ==>
        && categories == old(categories) && tasks == old(tasks) && selectedCategory == old(selectedCategory)
        && storedCategories == old(storedCategories) && storedTasks == old(storedTasks)
    {
      if Trim(input) == "" {
        return;
      }
      if editingCategory.Some? && editingCategory.value != "" {
        UpdateCategory(editingCategory.value, input);
      }
      editingCategory := None;
    }

    /** deleteCategory (app/tasks.tsx:1677-1681): asks for confirmation, except for "Uncategorized". */
    method DeleteCategory(category: string)
      requires Valid()
      modifies this`deletingCategory, this`isDeleteCategoryAlertVisible
      ensures Valid()
      ensures category == Categories.Uncategorized ==>
        deletingCategory == old(deletingCategory) && isDeleteCategoryAlertVisible == old(isDeleteCategoryAlertVisible)
      ensures category != Categories.Uncategorized ==>
        deletingCategory == Some(category) && isDeleteCategoryAlertVisible
    {
      if category == Categories.Uncategorized {
        return;
      }
      deletingCategory := Some(category);
      isDeleteCategoryAlertVisible := true;
    }

    /** Cancelling or dismissing the delete confirmation (app/tasks.tsx:2048-2063). */
    method CancelDeleteCategory()
      requires Valid()
      modifies this`deletingCategory, this`isDeleteCategoryAlertVisible
      ensures Valid()
      ensures deletingCategory == None && !isDeleteCategoryAlertVisible
    {
      isDeleteCategoryAlertVisible := false;
      deletingCategory := None;
    }

    /**
      Confirming the deletion (app/tasks.tsx:2054-2056), which runs
      handleConfirmDeleteCategory (app/tasks.tsx:1683-1701) on the project the
      dialog asks about. The dialog exists only while that project is set
      (app/tasks.tsx:2039).
     */
    method ConfirmDeleteCategory()
      requires Valid()
      requires deletingCategory.Some? && deletingCategory.value != "" && isDeleteCategoryAlertVisible
      modifies this`tasks, this`categories, this`selectedCategory, this`deletingCategory,
               this`isDeleteCategoryAlertVisible, this`storedTasks, this`storedCategories
      ensures Valid()
      ensures var gone := old(deletingCategory).value;
        && categories == Categories.RemoveCategory(old(categories), gone)
        && tasks == TaskList.MoveTasks(old(tasks), gone, Categories.Uncategorized)
        && selectedCategory == (if old(selectedCategory) == gone then Categories.Uncategorized else old(selectedCategory))
        && gone !in categories && |tasks| == |old(tasks)|
      ensures storedCategories == Some(categories) && storedTasks == Some(tasks)
      ensures deletingCategory == None && !isDeleteCategoryAlertVisible
    {
      var category := deletingCategory.value;
      Consistency.RemoveKeeps(tasks, categories, selectedCategory, category);
      var updatedCategories := Categories.RemoveCategory(categories, category);
      var updatedTasks := TaskList.MoveTasks(tasks, category, Categories.Uncategorized);
      categories := updatedCategories;
      tasks := updatedTasks;
      if selectedCategory == category {
        selectedCategory := Categories.Uncategorized;
      }
      storedCategories := Some(updatedCategories);
      storedTasks := Some(updatedTasks);
      isDeleteCategoryAlertVisible := false;
      deletingCategory := None;
    }
  }
}
