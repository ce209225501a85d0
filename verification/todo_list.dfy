/** The to-do list controller behind the three buttons of the main window:
    the validation and insert step of the add form, deleting the selected
    row, and marking the selected row as completed.

    The list box is modelled exactly as the program keeps it: a sequence of
    display strings, each of the form "[Category] text", with " ✔" appended
    once the task is completed. Each button callback becomes a pure function
    from the current list to either the new list or the exception the
    callback raises (and then catches to show a dialog). */
module TodoList {
  import opened Wrappers
  import opened Text

  /** The three fixed categories, in the order the add form lists them. */
  datatype Category = Work | Housework | Else

  /** The name shown for a category, both on its checkbox and in entries. */
  function Label(c: Category): string {
    match c
    case Work => "Work"
    case Housework => "Housework"
    case Else => "Else"
  }

  /** Position of a category in the form's left-to-right order. */
  function Rank(c: Category): nat {
    match c
    case Work => 0
    case Housework => 1
    case Else => 2
  }

  /** The states of the form's three checkboxes when "Add task" is pressed. */
  datatype CategoryFlags = CategoryFlags(work: bool, housework: bool, other: bool)

  /** The checkbox of category `c` is ticked. */
  predicate Checked(flags: CategoryFlags, c: Category) {
    match c
    case Work => flags.work
    case Housework => flags.housework
    case Else => flags.other
  }

  /** The checkbox states in which exactly `c` is ticked. */
  function OnlyChecked(c: Category): CategoryFlags {
    CategoryFlags(c == Work, c == Housework, c == Else)
  }

  /** Everything a callback raises instead of changing the list: a
      `ValueError` for each of the three add-form checks, an `IndexError`
      when nothing is selected. */
  datatype TodoError =
    | EmptyText
    | NoCategory
    | MultipleCategories
    | NoSelection

  /** The text each exception is raised with. The dialogs show these for
      the add form; for a missing selection they show their own texts. */
  function Message(e: TodoError): string {
    match e
    case EmptyText => "Please enter some text"
    case NoCategory => "Please select at least one category"
    case MultipleCategories => "Please select only one category"
    case NoSelection => "No task selected"
  }

  /** The completion mark: a space followed by U+2714 HEAVY CHECK MARK. */
  const Checkmark: string := " \U{2714}"

  /** An entry counts as completed when the mark occurs anywhere in it. */
  predicate IsCompleted(entry: string) {
    Contains(entry, Checkmark)
  }

  /** A task as the add form creates it. */
  datatype Entry = Entry(category: Category, text: string)

  /** What precedes the task text in a list row: "[Category] ". */
  function Tag(c: Category): string {
    "[" + Label(c) + "] "
  }

  /** The display string a task is stored as. */
  function Format(e: Entry): string {
    Tag(e.category) + e.text
  }

  /** Recovers category and text from a list row; `None` for a row no
      category tag starts. */
  function Parse(row: string): Option<Entry> {
    if |Tag(Work)| <= |row| && row[..|Tag(Work)|] == Tag(Work) then
      Some(Entry(Work, row[|Tag(Work)|..]))
    else if |Tag(Housework)| <= |row| && row[..|Tag(Housework)|] == Tag(Housework) then
      Some(Entry(Housework, row[|Tag(Housework)|..]))
    else if |Tag(Else)| <= |row| && row[..|Tag(Else)|] == Tag(Else) then
      Some(Entry(Else, row[|Tag(Else)|..]))
    else
      None
  }

  /** The ticked categories, gathered in the order Work, Housework, Else. */
  function SelectedCategories(flags: CategoryFlags): (cs: seq<Category>)
    ensures forall c :: c in cs <==> Checked(flags, c)
    ensures forall i, j :: 0 <= i < j < |cs| ==> Rank(cs[i]) < Rank(cs[j])
  {
    (if flags.work then [Work] else [])
    + (if flags.housework then [Housework] else [])
    + (if flags.other then [Else] else [])
  }

  /** The "Add task" button of the add form: strip the text, then reject
      empty text, then no category, then more than one category, and
      otherwise append "[Category] text" at the end of the list. */
  function AddTask(tasks: seq<string>, text: string, flags: CategoryFlags)
    : (r: Result<seq<string>, TodoError>)
    // the checks short-circuit in this order
    ensures AllSpace(text) ==> r == Err(EmptyText)
    ensures !AllSpace(text) && !flags.work && !flags.housework && !flags.other ==> r == Err(NoCategory)
    ensures !AllSpace(text) && flags.work && flags.housework ==> r == Err(MultipleCategories)
    ensures !AllSpace(text) && flags.work && flags.other ==> r == Err(MultipleCategories)
    ensures !AllSpace(text) && flags.housework && flags.other ==> r == Err(MultipleCategories)
    // success exactly when the text is non-blank and one box is ticked
    ensures r.Ok? <==> !AllSpace(text) && exists c :: flags == OnlyChecked(c)
    // the new row goes at the end; the old rows are untouched
    ensures r.Ok? ==> |r.value| == |tasks| + 1 && r.value[..|tasks|] == tasks
    ensures forall c :: r.Ok? && flags == OnlyChecked(c) ==>
              Parse(r.value[|tasks|]) == Some(Entry(c, Strip(text)))
  {
    var input := Strip(text);
    var selected := SelectedCategories(flags);
    if |input| == 0 then Err(EmptyText)
    else if |selected| == 0 then Err(NoCategory)
    else if |selected| > 1 then Err(MultipleCategories)
    else
      assert Checked(flags, selected[0]) && flags == OnlyChecked(selected[0]);
      ParseFormat(Entry(selected[0], input));
      Ok(tasks + [Format(Entry(selected[0], input))])
  }

  /** The "Delete selected task" button: remove the selected row. */
  function DeleteTask(tasks: seq<string>, selection: Option<nat>)
    : (r: Result<seq<string>, TodoError>)
    requires selection.Some? ==> selection.value < |tasks|
    ensures r.Err? <==> selection.None?
    ensures r.Err? ==> r.error == NoSelection
    ensures r.Ok? ==> |r.value| == |tasks| - 1
    ensures r.Ok? ==> forall k :: 0 <= k < selection.value ==> r.value[k] == tasks[k]
    ensures r.Ok? ==> forall k :: selection.value <= k < |r.value| ==> r.value[k] == tasks[k + 1]
    ensures r.Ok? ==> multiset(r.value) + multiset{tasks[selection.value]} == multiset(tasks)
  {
    match selection
    case None => Err(NoSelection)
    case Some(i) =>
      assert tasks == tasks[..i] + [tasks[i]] + tasks[i + 1..];
      Ok(tasks[..i] + tasks[i + 1..])
  }

  /** The "Mark as completed" button: append the mark to the selected row
      unless it already contains it. The source replaces the row by deleting
      it and inserting the marked text at the same index. */
  function MarkCompleted(tasks: seq<string>, selection: Option<nat>)
    : (r: Result<seq<string>, TodoError>)
    requires selection.Some? ==> selection.value < |tasks|
    ensures r.Err? <==> selection.None?
    ensures r.Err? ==> r.error == NoSelection
    ensures r.Ok? ==> |r.value| == |tasks|
    ensures r.Ok? ==> forall k :: 0 <= k < |tasks| && k != selection.value ==> r.value[k] == tasks[k]
    ensures r.Ok? ==> IsCompleted(r.value[selection.value])
    ensures r.Ok? && IsCompleted(tasks[selection.value]) ==> r.value == tasks
    ensures r.Ok? && !IsCompleted(tasks[selection.value]) ==>
              r.value[selection.value] == tasks[selection.value] + Checkmark
    // no row ever goes back from completed to open
    ensures r.Ok? ==> forall k :: 0 <= k < |tasks| && IsCompleted(tasks[k]) ==> IsCompleted(r.value[k])
  {
    match selection
    case None => Err(NoSelection)
    case Some(i) =>
      var row := tasks[i];
      if !IsCompleted(row) then
        ContainsAppended(row, Checkmark);
        Ok(tasks[..i] + [row + Checkmark] + tasks[i + 1..])
      else
        Ok(tasks)
  }

  /** Decoding a formatted entry gives it back. */
  lemma ParseFormat(e: Entry)
    ensures Parse(Format(e)) == Some(e)
  {
    var row := Format(e);
    assert row[..|Tag(e.category)|] == Tag(e.category);
    assert row[|Tag(e.category)|..] == e.text;
    // the tags differ at their second character
    assert row[1] == Label(e.category)[0];
  }

  /** Every row that decodes is the formatting of what it decodes to. */
  lemma FormatParse(row: string, e: Entry)
    requires Parse(row) == Some(e)
    ensures Format(e) == row
  {
    assert row == row[..|Tag(e.category)|] + row[|Tag(e.category)|..];
  }

  /** With non-blank text and exactly one box ticked, the add succeeds and
      appends "[Category] text" with the stripped text. */
  lemma AddTaskAppends(tasks: seq<string>, text: string, c: Category)
    requires !AllSpace(text)
    ensures AddTask(tasks, text, OnlyChecked(c)) == Ok(tasks + [Format(Entry(c, Strip(text)))])
  {
    var r := AddTask(tasks, text, OnlyChecked(c));
    var t := Format(Entry(c, Strip(text)));
    ParseFormat(Entry(c, Strip(text)));
    FormatParse(r.value[|tasks|], Entry(c, Strip(text)));
    assert r.value == r.value[..|tasks|] + [r.value[|tasks|]];
  }

  /** Inserting the deleted row back at its index restores the list. */
  lemma DeleteThenReinsert(tasks: seq<string>, i: nat)
    requires i < |tasks|
    ensures var r := DeleteTask(tasks, Some(i));
            r.Ok? && r.value[..i] + [tasks[i]] + r.value[i..] == tasks
  {
    var r := DeleteTask(tasks, Some(i)).value;
    assert r[..i] == tasks[..i];
    assert r[i..] == tasks[i + 1..];
    assert tasks == tasks[..i] + [tasks[i]] + tasks[i + 1..];
  }

  /** Marking the same row twice has the effect of marking it once. */
  lemma MarkIdempotent(tasks: seq<string>, selection: Option<nat>)
    requires selection.Some? ==> selection.value < |tasks|
    ensures var r := MarkCompleted(tasks, selection);
            r.Ok? ==> MarkCompleted(r.value, selection) == r
  {
    var r := MarkCompleted(tasks, selection);
    if r.Ok? {
      var again := MarkCompleted(r.value, selection);
      assert again.value == r.value;
    }
  }

  /** Marking keeps the row's category; the mark becomes part of its text. */
  lemma MarkKeepsCategory(tasks: seq<string>, i: nat, e: Entry)
    requires i < |tasks|
    requires Parse(tasks[i]) == Some(e)
    requires !IsCompleted(tasks[i])
    ensures Parse(MarkCompleted(tasks, Some(i)).value[i]) == Some(Entry(e.category, e.text + Checkmark))
  {
    FormatParse(tasks[i], e);
    var marked := Entry(e.category, e.text + Checkmark);
    assert Format(marked) == tasks[i] + Checkmark;
    ParseFormat(marked);
  }

  /** A task whose text has no check mark character starts out open. */
  lemma NewTaskIsOpen(e: Entry)
    requires Checkmark[1] !in e.text
    ensures !IsCompleted(Format(e))
  {
    assert Checkmark[1] !in Tag(e.category);
    AbsentCharNotContained(Format(e), Checkmark);
  }

  /** The tag ends in a space, so text starting with the check mark
      character yields a row that already counts as completed. */
  lemma LeadingMarkLooksCompleted(e: Entry)
    requires |e.text| > 0 && e.text[0] == Checkmark[1]
    ensures IsCompleted(Format(e))
  {
    var row := Format(e);
    var k := |Tag(e.category)| - 1;
    assert row[k..k + |Checkmark|] == Checkmark;
    assert OccursAt(row, Checkmark, k);
  }
}
