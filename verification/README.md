# To-do list controller and validated arithmetic helpers, in Dafny

This project models the decision logic of a small Python repository: a
tkinter to-do list window (`Todolist.py`) and three validated arithmetic
helpers (`Pydoctor.py`).

- **To-do list** (`todo_list.dfy`, module `TodoList`). The list box is kept
  exactly as the program keeps it: a `seq<string>` of display rows of the
  form `"[Category] text"`, with `" ✔"` appended once a task is completed.
  Each button callback is a pure function from the current list to a
  `Result`: the new list, or the exception the callback raises before
  catching it to show a dialog.
  - `AddTask` is the add form's "Add task" button. It strips the text. It
    then rejects empty text, then no ticked category, then more than one
    ticked category, in that order. Otherwise it appends `"[Category] text"`.
  - `DeleteTask` removes the selected row.
  - `MarkCompleted` appends `" ✔"` to the selected row, unless the row
    already contains that mark anywhere.
  - The selection is an `Option<nat>`. When present it is a valid row
    index, as the list box's `curselection()` guarantees.
- **Text primitives** (`text.dfy`, module `Text`). `Strip` models Python's
  `str.strip()`. `Contains` models the substring test `p in s`.
- **Arithmetic** (`arithmetic.dfy`, module `Pydoctor`). A Python argument
  is a `Val`: either a number (int or float, modelled as an exact `real`)
  or a value of another type. Such a value may still compare equal to 0;
  `Decimal(0)` is one. A `raise` becomes `Err(ValueError(msg))` or
  `Err(ZeroDivisionError(msg))`, with the source's messages.
- **Examples** (`todo_examples.dfy`, module `TodoExamples`). Worked
  walkthroughs of the to-do list operations.
- `wrappers.dfy` (module `Wrappers`) holds `Option` and `Result`.

The program keeps only the display string and decides completion by the
substring test at Todolist.py:269. So a task whose typed text contains
`" ✔"` (`TodoExamples.TypedMarkLooksCompleted`), or starts with `✔`, since
the tag ends in a space (`TodoList.LeadingMarkLooksCompleted`), is stored
already counting as completed. A task whose text has no `✔` character
starts open (`TodoList.NewTaskIsOpen`).

## Model

| member | source | states |
|---|---|---|
| Text.Strip | Todolist.py:91 | the stripped text has no whitespace at either end; it is an infix of the input with only whitespace around it; it is empty exactly when the input is all whitespace |
| Text.StripUnique | Todolist.py:91 | any infix surrounded only by whitespace and with no whitespace at its ends is the stripped text, so the contract of `Strip` pins down its result |
| Text.StripTrimmed | Todolist.py:91 | text with no whitespace at either end is stored as typed |
| Text.StripIdempotent | Todolist.py:91 | stripping already stripped text changes nothing |
| Text.Contains | Todolist.py:269 | the substring test holds exactly when the needle occurs at some offset of the row |
| Text.ContainsAppended | Todolist.py:270 | a row with the mark appended contains the mark |
| TodoList.IsCompleted | Todolist.py:269 | a row counts as completed when `" ✔"` occurs anywhere in it, not only at its end |
| TodoList.Label | Todolist.py:94-99 | the category names the form collects and the row tag shows: "Work", "Housework", "Else" |
| TodoList.Message | Todolist.py:101-108 | the text each error is raised with: "Please enter some text", "Please select at least one category", "Please select only one category", and "No task selected" for the missing selection (lines 241 and 264) |
| TodoList.Format | Todolist.py:110 | the row for a task is `"[" + category label + "] " + text` |
| TodoList.SelectedCategories | Todolist.py:93-99 | the gathered categories are exactly the ticked ones, in the order Work, Housework, Else, with no repeats |
| TodoList.AddTask | Todolist.py:90-111 | blank text gives the empty-text error whatever is ticked; otherwise nothing ticked gives the no-category error; otherwise two ticked give the multiple-category error; success happens exactly for non-blank text with one box ticked, and then the old rows are kept and one row is appended that decodes to the ticked category and the stripped text |
| TodoList.AddTaskAppends | Todolist.py:101-111 | with non-blank text and exactly category `c` ticked, the new list is the old one plus `"[c] " + stripped text` |
| TodoList.ParseFormat | Todolist.py:110 | a row written as `"[Category] text"` decodes back to that category and text |
| TodoList.FormatParse | Todolist.py:110 | every row that decodes is exactly the formatting of what it decodes to |
| TodoList.DeleteTask | Todolist.py:238-245 | with no selection it raises `IndexError("No task selected")`; otherwise the list loses exactly one row: rows before the index are unchanged, later rows move up by one, and the multiset of rows loses just the selected row |
| TodoList.DeleteThenReinsert | Todolist.py:242 | inserting the deleted row back at its index restores the original list |
| TodoList.MarkCompleted | Todolist.py:261-278 | with no selection it raises `IndexError("No task selected")`; otherwise the length and every other row are unchanged; the selected row ends up containing the mark; an already marked row is left as is; an unmarked row gets `" ✔"` appended; no completed row becomes open |
| TodoList.MarkIdempotent | Todolist.py:269-275 | marking the same row twice gives the same list as marking it once |
| TodoList.MarkKeepsCategory | Todolist.py:269-272 | marking an open row keeps its category; the mark becomes part of its text |
| TodoList.NewTaskIsOpen | Todolist.py:110-111 | a new row whose text has no `✔` character is not completed |
| TodoList.LeadingMarkLooksCompleted | Todolist.py:110-111 | a new row whose text starts with `✔` already counts as completed, because the tag's trailing space completes the mark |
| TodoExamples.TypedMarkLooksCompleted | Todolist.py:269 | text typed as `"Pay rent ✔"` is stored as a row that already counts as completed, and marking it changes nothing |
| TodoExamples.CategoryRows | Todolist_test.py:111-120 | the rows `"[Work] Task 1"`, `"[Housework] Clean kitchen"` and `"[Else] Call mom"` |
| TodoExamples.CompleteAssignmentAdd | Todolist_test.py:15-25 | adding "Complete assignment" with Work ticked gives `["[Work] Complete assignment"]` |
| TodoExamples.BuyGroceriesMark | Todolist_test.py:79-93 | `"[Work] Buy groceries"` is open, marking it gives `"[Work] Buy groceries ✔"`, and that row counts as completed |
| TodoExamples.BuyMilkAdd | Todolist.py:101-111 | adding "Buy milk" with Work ticked to an empty list gives `["[Work] Buy milk"]` |
| TodoExamples.BuyMilkMark | Todolist.py:269-272 | marking that row gives `"[Work] Buy milk ✔"` |
| TodoExamples.BuyMilkMarkAgain | Todolist.py:273-275 | marking the marked row again leaves the list unchanged |
| TodoExamples.BuyMilkDelete | Todolist.py:240-242 | deleting the only row gives the empty list; marking with no selection raises the no-selection `IndexError` |
| Pydoctor.Multiply | Pydoctor.py:13-15 | succeeds exactly when both operands are numbers, and then gives their product; otherwise raises ValueError with the source's message |
| Pydoctor.MultiplyCommutes | Pydoctor.py:13-15 | swapping the operands changes neither the product nor the error |
| Pydoctor.EqualsZero | Pydoctor.py:32 | Python's `b == 0`: a number equal to zero, or a value of another type that compares equal to 0 |
| Pydoctor.Divide | Pydoctor.py:32-36 | a divisor equal to 0 raises ZeroDivisionError whatever the dividend is, even a non-number; otherwise a non-number raises ValueError; success happens exactly for two numbers with a non-zero divisor, and the quotient times the divisor is the dividend |
| Pydoctor.DivideUndoesMultiply | Pydoctor.py:13-36 | dividing a product by a non-zero factor gives back the other factor |
| Pydoctor.ScanNumeric | Pydoctor.py:50-52 | the element scan finishes without raising exactly when every element is a number |
| Pydoctor.Average | Pydoctor.py:50-55 | a non-number anywhere raises the element-type ValueError, even after numeric elements; an empty list raises the empty-list ValueError; success happens exactly for non-empty all-numeric lists, and the result times the length is the sum |
| Pydoctor.Sum | Pydoctor.py:55 | Python's `sum`: the numbers added left to right starting from 0 |
| Pydoctor.SumBounds | Pydoctor.py:55 | a sum of n numbers, each between lo and hi, lies between n·lo and n·hi |
| Pydoctor.AverageBounds | Pydoctor.py:55 | the average of a non-empty numeric list lies between any lower and any upper bound of its elements |
| Pydoctor.ScriptExamples | Pydoctor.py:59-84 | the script's demonstrations: 5·3 = 15, 10/2 = 5, and the errors for `multiply('d', 7)`, `divide(5, 0)`, `average([])` and `average([1, 2, 3, 'd'])` |
| Pydoctor.AverageExample | Pydoctor.py:63 | the average of 1, 2, 3, 4 is 2.5 |

## Left out

- Widgets and layout: window and form creation, labels, frames, the scrollbar, button styling and the event loop (Todolist.py:12-29, 120-226, 283-412). They have no decision logic.
- Dialogs: `messagebox` warnings and errors are I/O. Errors are returned as values, and `TodoList.Message` gives the raised texts. The no-selection case raises `IndexError("No task selected")` in both callbacks, but the dialogs then show different texts ("Please select a task to delete!", Todolist.py:243-245, and "Please select a task to mark!", Todolist.py:276-278); `NoSelection` stands for both. Marking an already completed row shows an information dialog in the source; the model returns the unchanged list.
- The catch-all `except Exception` branches. They only show a generic dialog for failures of the widget toolkit, which is not modelled.
- Closing the add form after a successful add (`root1.destroy()`). This is UI state.
- The checkbox variables persisting between add forms. The three ticks are passed to `AddTask` as explicit inputs.
- Text.Strip: treats as whitespace only the ASCII characters Python's `str.isspace()` accepts. These are tab, line feed, vertical tab, form feed, carriage return, 0x1C-0x1F and space. Non-ASCII Unicode whitespace (U+0085, U+00A0, U+2000-U+200A, …) is not stripped by the model.
- Pydoctor.Divide: divides exact reals. IEEE-754 rounding, infinities and NaN are not modelled, and neither is the difference between int and float operands, nor the OverflowError raised when an int operand mixed with a float, or an int quotient, is too large for a float (`divide(10**400, 1.5)`, `divide(10**401, 10)`).
- Pydoctor.Average: averages exact reals. Floating-point rounding of `sum` and of the division, infinities and NaN are not modelled, nor the OverflowError raised when an int mixed into a float sum, or the int quotient of an int sum by the length, is too large for a float (`average([10**400, 1.5])`, `average([10**400])`).
- Pydoctor.Multiply: multiplies exact reals. Float overflow and rounding, infinities and NaN are not modelled, nor the OverflowError raised when an int operand mixed with a float is too large for a float (`multiply(10**400, 1.5)`). A product of two ints is exact in Python, as in the model.
- Python's `bool` being a subclass of `int`. `True` and `False` would pass the type checks; the model has no separate boolean values.
- `Todolist_test.py` is not modelled. Its tests recheck the formatting and validation inline and never call the application's functions. Some of its example strings appear as the lemmas `TodoExamples.CategoryRows`, `TodoExamples.CompleteAssignmentAdd` and `TodoExamples.BuyGroceriesMark`.
