/**
  The category ("project") list of the task screen (app/tasks.tsx) and the
  list transforms that add, rename and remove a category.
 */
module Categories {
  import opened Text
  import opened TaskList

  /** The category every screen starts with and that tasks of a deleted category move to. */
  const Uncategorized: string := "Uncategorized"

  predicate NoDuplicates(categories: seq<string>)
  {
    forall i, j :: 0 <= i < j < |categories| ==> categories[i] != categories[j]
  }

  /**
    A usable category name, as adding and renaming produce: non-empty and
    without whitespace at either end, so that it is its own trim.
   */
  predicate IsName(name: string)
  {
    name != "" && !IsWhitespace(name[0]) && !IsWhitespace(name[|name| - 1])
  }

  /** Every listed category has a usable name. */
  predicate AllNames(categories: seq<string>)
  {
    forall c :: c in categories ==> IsName(c)
  }

  /** The initial list holds only usable names. */
  lemma InitialNames()
    ensures AllNames([Uncategorized])
  {
  }

  /** A name that passes the guard is usable once trimmed. */
  lemma NewNameIsName(categories: seq<string>, input: string)
    requires IsNewName(categories, input)
    ensures IsName(Trim(input))
  {
  }

  /** Adding a category lists only usable names. */
  lemma AddCategoryNames(categories: seq<string>, input: string)
    requires AllNames(categories)
    ensures AllNames(AddCategory(categories, input))
  {
    if IsNewName(categories, input) {
      NewNameIsName(categories, input);
    }
  }

  /** Renaming a category to a name that passes the guard lists only usable names. */
  lemma RenameCategoryNames(categories: seq<string>, from: string, input: string)
    requires AllNames(categories) && IsNewName(categories, input)
    ensures AllNames(RenameCategory(categories, from, Trim(input)))
  {
    NewNameIsName(categories, input);
    RenameCategoryMembers(categories, from, Trim(input));
  }

  /**
    The guard shared by adding (app/tasks.tsx:1503) and renaming
    (app/tasks.tsx:1652-1653) a category: the trimmed input is non-empty and
    not yet listed.
   */
  predicate IsNewName(categories: seq<string>, input: string)
    ensures IsNewName(categories, input) <==> !IsBlank(input) && Trim(input) !in categories
  {
    Trim(input) != "" && Trim(input) !in categories
  }

  /** addCategory (app/tasks.tsx:1502-1512): the trimmed name is appended, or nothing happens. */
  function AddCategory(categories: seq<string>, input: string): (r: seq<string>)
    ensures !IsNewName(categories, input) ==> r == categories
    ensures IsNewName(categories, input) ==> r == categories + [Trim(input)]
    ensures NoDuplicates(categories) ==> NoDuplicates(r)
    ensures forall c :: c in r ==> c in categories || c == Trim(input)
  {
    if IsNewName(categories, input) then categories + [Trim(input)] else categories
  }

  /** The category half of updateCategory (app/tasks.tsx:1658-1660): `from` is replaced in place by `name`. */
  function RenameCategory(categories: seq<string>, from: string, name: string): (r: seq<string>)
    ensures |r| == |categories|
    ensures forall i :: 0 <= i < |r| ==> r[i] == if categories[i] == from then name else categories[i]
    ensures NoDuplicates(categories) && name !in categories ==> NoDuplicates(r)
  {
    seq(|categories|, i requires 0 <= i < |categories| =>
      if categories[i] == from then name else categories[i])
  }

  /** After a rename the listed names are the old ones but `from`, plus `name` if `from` was listed. */
  lemma RenameCategoryMembers(categories: seq<string>, from: string, name: string)
    ensures forall c :: c in RenameCategory(categories, from, name) <==>
      (c in categories && c != from) || (c == name && from in categories)
  {
    var r := RenameCategory(categories, from, name);
    forall c | c in r ensures (c in categories && c != from) || (c == name && from in categories) {
      var i :| 0 <= i < |r| && r[i] == c;
      assert categories[i] in categories;
    }
    forall c | (c in categories && c != from) || (c == name && from in categories) ensures c in r {
      if c in categories && c != from {
        var i :| 0 <= i < |categories| && categories[i] == c;
        assert r[i] == c;
      } else {
        var i :| 0 <= i < |categories| && categories[i] == from;
        assert r[i] == name;
      }
    }
  }

  /** The category half of handleConfirmDeleteCategory (app/tasks.tsx:1684). */
  function RemoveCategory(categories: seq<string>, category: string): (r: seq<string>)
    ensures forall c :: c in r <==> c in categories && c != category
    ensures forall c :: multiset(r)[c] == if c != category then multiset(categories)[c] else 0
    ensures IsSubsequence(r, categories)
  {
    var keep := (c: string) => c != category;
    FilterMembers(categories, keep);
    FilterCount(categories, keep);
    FilterSubsequence(categories, keep);
    Filter(categories, keep)
  }

  /** A subsequence of a list without duplicates has none either. */
  lemma {:induction false} SubsequenceNoDuplicates(a: seq<string>, b: seq<string>)
    requires IsSubsequence(a, b) && NoDuplicates(b)
    ensures NoDuplicates(a)
    decreases |b|
  {
    if a != [] {
      assert b != [];
      assert NoDuplicates(b[1..]) by {
        forall i, j | 0 <= i < j < |b[1..]| ensures b[1..][i] != b[1..][j] {
          assert b[1..][i] == b[i + 1] && b[1..][j] == b[j + 1];
        }
      }
      if a[0] == b[0] && IsSubsequence(a[1..], b[1..]) {
        SubsequenceNoDuplicates(a[1..], b[1..]);
        SubsequenceMembers(a[1..], b[1..]);
        forall i, j | 0 <= i < j < |a| ensures a[i] != a[j] {
          if i == 0 {
            assert a[j] == a[1..][j - 1];
            assert a[j] in b[1..];
          } else {
            assert a[i] == a[1..][i - 1] && a[j] == a[1..][j - 1];
          }
        }
      } else {
        SubsequenceNoDuplicates(a, b[1..]);
      }
    }
  }

  /** Every element of a subsequence is an element of the list. */
  lemma {:induction false} SubsequenceMembers<T(!new)>(a: seq<T>, b: seq<T>)
    requires IsSubsequence(a, b)
    ensures forall x :: x in a ==> x in b
    decreases |b|
  {
    if a != [] {
      if a[0] == b[0] && IsSubsequence(a[1..], b[1..]) {
        SubsequenceMembers(a[1..], b[1..]);
        assert a == [a[0]] + a[1..];
      } else {
        SubsequenceMembers(a, b[1..]);
      }
    }
  }

  /** Removing a listed category from a list without duplicates shortens it by exactly one. */
  lemma {:induction false} RemoveCategoryLength(categories: seq<string>, category: string)
    requires NoDuplicates(categories) && category in categories
    ensures |RemoveCategory(categories, category)| == |categories| - 1
  {
    var rest := categories[1..];
    assert NoDuplicates(rest) by {
      forall i, j | 0 <= i < j < |rest| ensures rest[i] != rest[j] {
        assert rest[i] == categories[i + 1] && rest[j] == categories[j + 1];
      }
    }
    var keep := (c: string) => c != category;
    assert RemoveCategory(categories, category) == Filter(categories, keep);
    assert Filter(categories, keep) == (if keep(categories[0]) then [categories[0]] else []) + Filter(rest, keep);
    if categories[0] == category {
      assert category !in rest by {
        forall j | 0 <= j < |rest| ensures rest[j] != category {
          assert rest[j] == categories[j + 1];
        }
      }
      FilterMembers(rest, keep);
      FilterKeepsAll(rest, keep);
    } else {
      assert category in rest;
      RemoveCategoryLength(rest, category);
      assert RemoveCategory(rest, category) == Filter(rest, keep);
    }
  }

  /** Adding a category and then removing it restores the list. */
  lemma AddThenRemoveCategory(categories: seq<string>, input: string)
    requires IsNewName(categories, input)
    ensures RemoveCategory(AddCategory(categories, input), Trim(input)) == categories
  {
    var keep := (c: string) => c != Trim(input);
    FilterConcat(categories, [Trim(input)], keep);
    FilterKeepsAll(categories, keep);
    assert Filter([Trim(input)], keep) == [];
  }

  /** Renaming to a fresh name and back restores the list. */
  lemma RenameBack(categories: seq<string>, from: string, name: string)
    requires name !in categories
    ensures RenameCategory(RenameCategory(categories, from, name), name, from) == categories
  {
    var back := RenameCategory(RenameCategory(categories, from, name), name, from);
    forall i | 0 <= i < |categories| ensures back[i] == categories[i] {
      assert categories[i] in categories;
    }
  }
}
