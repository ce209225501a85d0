/** Worked examples of the to-do list controller: the add, mark and delete
    walkthrough for one task, the rows of the unit tests, and what happens
    to a task typed with a mark.

    Where an example string reaches `Strip` or `Contains`, it is passed in
    as a parameter pinned by `requires x == "..."` rather than written as a
    literal in the `ensures`: the verifier unfolds recursive functions on
    literal arguments without bound, and the parameter keeps that unfolding
    within the resource limit. */
module TodoExamples {
  import opened Wrappers
  import opened Text
  import opened TodoList

  /** The three category rows of the formatting unit test. */
  lemma CategoryRows()
    ensures Format(Entry(Work, "Task 1")) == "[Work] Task 1"
    ensures Format(Entry(Housework, "Clean kitchen")) == "[Housework] Clean kitchen"
    ensures Format(Entry(Else, "Call mom")) == "[Else] Call mom"
  {
  }

  /** Adding "Complete assignment" with Work ticked. */
  lemma CompleteAssignmentAdd(text: string)
    requires text == "Complete assignment"
    ensures AddTask([], text, OnlyChecked(Work)) == Ok(["[Work] " + text])
  {
    assert text[0] == 'C' && text[|text| - 1] == 't';
    assert !AllSpace(text);
    StripTrimmed(text);
    AddTaskAppends([], text, Work);
    assert Format(Entry(Work, text)) == "[Work] " + text;
  }

  /** Marking "[Work] Buy groceries" gives "[Work] Buy groceries ✔", which
      counts as completed. */
  lemma BuyGroceriesMark(row: string)
    requires row == "[Work] Buy groceries"
    ensures !IsCompleted(row)
    ensures MarkCompleted([row], Some(0)) == Ok(["[Work] Buy groceries \U{2714}"])
    ensures IsCompleted("[Work] Buy groceries \U{2714}")
  {
    AbsentCharNotContained(row, Checkmark);
    var r := MarkCompleted([row], Some(0));
    assert r.value == [row + Checkmark];
    ContainsAppended(row, Checkmark);
    assert row + Checkmark == "[Work] Buy groceries \U{2714}";
  }

  /** The add form does not prevent a typed mark: text ending in " ✔" is
      stored as a row that already counts as completed, and marking it is
      then a no-op. */
  lemma TypedMarkLooksCompleted(text: string)
    requires text == "Pay rent" + Checkmark
    ensures var r := AddTask([], text, OnlyChecked(Work));
            r.Ok? && IsCompleted(r.value[0]) && MarkCompleted(r.value, Some(0)) == r
  {
    assert text[0] == 'P' && text[|text| - 1] == '\U{2714}';
    assert !AllSpace(text);
    StripTrimmed(text);
    AddTaskAppends([], text, Work);
    var typed := text[..|text| - |Checkmark|];
    assert text == typed + Checkmark;
    var row := Format(Entry(Work, text));
    assert row == (Tag(Work) + typed) + Checkmark;
    ContainsAppended(Tag(Work) + typed, Checkmark);
    assert IsCompleted(row);
  }

  /** Add "Buy milk" as Work, mark it twice, then delete it. */
  lemma BuyMilkAdd(text: string)
    requires text == "Buy milk"
    ensures AddTask([], text, OnlyChecked(Work)) == Ok(["[Work] Buy milk"])
  {
    assert text[0] == 'B' && text[|text| - 1] == 'k';
    assert !AllSpace(text);
    StripTrimmed(text);
    AddTaskAppends([], text, Work);
    assert Format(Entry(Work, text)) == "[Work] Buy milk";
  }

  lemma BuyMilkMark(row: string)
    requires row == "[Work] Buy milk"
    ensures MarkCompleted([row], Some(0)) == Ok([row + Checkmark])
  {
    AbsentCharNotContained(row, Checkmark);
    var r := MarkCompleted([row], Some(0));
    assert r.value == [row + Checkmark];
  }

  lemma BuyMilkMarkAgain()
    ensures var marked := "[Work] Buy milk" + Checkmark;
            MarkCompleted([marked], Some(0)) == Ok([marked])
  {
    ContainsAppended("[Work] Buy milk", Checkmark);
  }

  lemma BuyMilkDelete()
    ensures DeleteTask(["[Work] Buy milk" + Checkmark], Some(0)) == Ok([])
    ensures MarkCompleted(["[Work] Buy milk"], None) == Err(NoSelection)
  {
  }
}
