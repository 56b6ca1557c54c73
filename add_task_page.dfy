/** The task-creation form: title, color, icon and category, with categories the user can
    add during the session. */
module AddTaskPage {
  import opened JsString
  import opened Types

  const UNTITLED: string := "未命名任務"

  /** `title || '未命名任務'`: an empty title falls back to the placeholder; any other title,
      blank ones included, is kept as typed. */
  function SavedTitle(title: string): (r: string)
    ensures r != ""
    ensures title != "" <==> r == title
    ensures title == "" ==> r == UNTITLED
  {
    if title != "" then title else UNTITLED
  }

  /** No name occurs twice. */
  predicate NoDuplicates(names: seq<string>) {
    forall i, j :: 0 <= i < j < |names| ==> names[i] != names[j]
  }

  /** The category list after adding `name`: appended at the end unless already present. The
      result holds `name`, keeps the old list as its prefix, grows by at most one entry and
      has no duplicates if the old list had none. */
  function WithCategory(categories: seq<string>, name: string): (r: seq<string>)
    ensures name in r
    ensures |r| == if name in categories then |categories| else |categories| + 1
    ensures r[..|categories|] == categories
    ensures NoDuplicates(categories) ==> NoDuplicates(r)
  {
    if name in categories then categories else categories + [name]
  }

  /** The built-in categories are distinct. */
  lemma BuiltInCategoriesDistinct()
    ensures NoDuplicates(CATEGORIES)
  {
  }

  /** The form's state. Throughout, the categories are distinct, start with the built-in
      ones, and the selected category is one of them. */
  class TaskForm {
    var title: string
    var selectedColor: string
    var selectedIcon: string
    var categories: seq<string>
    var category: string
    var isAddingCategory: bool
    var newCategoryName: string

    predicate Valid()
      reads this
    {
      NoDuplicates(categories) && |categories| >= |CATEGORIES| &&
      categories[..|CATEGORIES|] == CATEGORIES && category in categories
    }

    /** The initial state: empty title, the first color and icon, the built-in categories
        with the first one selected, and the "add category" input closed and empty. */
    constructor ()
      ensures Valid()
      ensures title == "" && selectedColor == THEME_COLORS[0] && selectedIcon == ICONS[0]
      ensures categories == CATEGORIES && category == CATEGORIES[0]
      ensures !isAddingCategory && newCategoryName == ""
    {
      title := "";
      selectedColor := THEME_COLORS[0];
      selectedIcon := ICONS[0];
      categories := CATEGORIES;
      category := CATEGORIES[0];
      isAddingCategory := false;
      newCategoryName := "";
      BuiltInCategoriesDistinct();
    }

    method EditTitle(text: string)
      modifies this
      ensures title == text
      ensures selectedColor == old(selectedColor) && selectedIcon == old(selectedIcon)
      ensures categories == old(categories) && category == old(category)
      ensures isAddingCategory == old(isAddingCategory) && newCategoryName == old(newCategoryName)
    {
      title := text;
    }

    method SelectColor(c: string)
      modifies this
      ensures selectedColor == c
      ensures title == old(title) && selectedIcon == old(selectedIcon)
      ensures categories == old(categories) && category == old(category)
      ensures isAddingCategory == old(isAddingCategory) && newCategoryName == old(newCategoryName)
    {
      selectedColor := c;
    }

    method SelectIcon(icon: string)
      modifies this
      ensures selectedIcon == icon
      ensures title == old(title) && selectedColor == old(selectedColor)
      ensures categories == old(categories) && category == old(category)
      ensures isAddingCategory == old(isAddingCategory) && newCategoryName == old(newCategoryName)
    {
      selectedIcon := icon;
    }

    /** Choosing one of the listed categories. */
    method SelectCategory(cat: string)
      requires Valid() && cat in categories
      modifies this
      ensures Valid() && category == cat
      ensures title == old(title) && selectedColor == old(selectedColor) && selectedIcon == old(selectedIcon)
      ensures categories == old(categories)
      ensures isAddingCategory == old(isAddingCategory) && newCategoryName == old(newCategoryName)
    {
      category := cat;
    }

    method OpenCategoryInput()
      modifies this
      ensures isAddingCategory
      ensures title == old(title) && selectedColor == old(selectedColor) && selectedIcon == old(selectedIcon)
      ensures categories == old(categories) && category == old(category)
      ensures newCategoryName == old(newCategoryName)
    {
      isAddingCategory := true;
    }

    method EditCategoryName(text: string)
      modifies this
      ensures newCategoryName == text
      ensures title == old(title) && selectedColor == old(selectedColor) && selectedIcon == old(selectedIcon)
      ensures categories == old(categories) && category == old(category)
      ensures isAddingCategory == old(isAddingCategory)
    {
      newCategoryName := text;
    }

    /** `handleSave`: submits the fields with the title defaulted, and goes back to `/`. */
    method Save() returns (fields: TaskFields, route: string)
      ensures fields == TaskFields(SavedTitle(title), selectedIcon, selectedColor, category)
      ensures fields.title != "" && route == "/"
    {
      fields := TaskFields(SavedTitle(title), selectedIcon, selectedColor, category);
      route := "/";
    }

    /** `handleAddCategory`: a non-blank name is trimmed, added unless already listed, and
        selected; a blank one changes neither list nor selection. Either way the input is
        cleared and closed. */
    method AddCategory()
      requires Valid()
      modifies this
      ensures Valid()
      ensures !AllWhiteSpace(old(newCategoryName)) ==>
                categories == WithCategory(old(categories), Trim(old(newCategoryName))) &&
                category == Trim(old(newCategoryName)) && category != ""
      ensures AllWhiteSpace(old(newCategoryName)) ==>
                categories == old(categories) && category == old(category)
      ensures newCategoryName == "" && !isAddingCategory
      ensures title == old(title) && selectedColor == old(selectedColor) && selectedIcon == old(selectedIcon)
    {
      TrimEmptyIffBlank(newCategoryName);
      if Trim(newCategoryName) != "" {
        var newCat := Trim(newCategoryName);
        if newCat !in categories {
          categories := categories + [newCat];
        }
        category := newCat;
      }
      newCategoryName := "";
      isAddingCategory := false;
    }
  }
}
