# Security Review Tracker — verified model of the core

The Security Review Tracker is a small desktop application that follows
security-review projects through a fixed six-stage approval workflow. Its
window is Tkinter plumbing; underneath sits a small core, modelled here in Dafny:

- **Workflow** (`workflow.dfy`): the ordered catalogue of the six stage names
  (`workflow_steps`) and `calculate_progress`. An empty stage gives 0 percent. A
  stage in the catalogue gives its 1-based position over six, times 100,
  truncated. Any other name is an `UnknownStep` error, because `list.index` raises
  `ValueError` for it. The first-occurrence search of `list.index` is
  `Common.IndexOf` (`common.dfy`).
- **Projects** (`projects.dfy`): the project record (PPM number, title, contact,
  description, budget code, the three links `spia`/`ppm`/`onenote`, current
  stage) and the empty record the "Add Project" form starts from.
- **Search** (`search.dfy`): the filter of the list view. The lower-cased term
  must occur (Python's `in` on strings) in the lower-cased PPM number, title or
  point of contact. `Filter` gives the projects that pass, in list order.
- **Table** (`table.dfy`): a list row (PPM number, title, contact, progress
  label `"{progress}%"`) and the decimal printing of the percentage.
- **Store** (`store.dfy`): the class `Tracker`. It holds the list of project
  records (`self.projects`) and a ghost copy of what the data file last
  received. Its methods are the steps of the detail window that touch the list:
  - the lookup of the selected PPM number (first match);
  - appending a new project;
  - overwriting the fields of the edited one in place, alone (`Replace`) or
    together with its lookup (`Edit`);
  - removing the deleted one with `list.remove`, which takes out the first
    equal record;
  - rebuilding the visible rows (`update_table`).

  Every mutation ends with the whole list written out (`save_data`). The model
  shows this by setting the ghost copy to the new list.

What the code does, and the model with it:

- The code does not sort the visible rows by PPM number. They keep the list order.
- The code neither trims PPM numbers nor converts them to strings, on load or on save.
- The progress label is only `"{progress}%"`, with no stage name.
- When no record has the selected PPM number, the lookup that opens the detail
  window fails (`next` raises `StopIteration`), so there is no edit at all.
  `Lookup` returns `None` and `Edit` returns `false` without changing anything.
- Deleting a record that is no longer in the list raises `ValueError` from
  `list.remove`, and the list is not written. `Remove` returns `false` and
  changes nothing.
- The code does not require PPM numbers to be unique. Lookup is "first match".
  `FirstWithIdAfterAppend` shows that a lookup after an append finds an earlier
  duplicate, not the new record.

## Model

| member | source | states |
|---|---|---|
| Common.IndexOf | app.py:74 | `list.index`: the result is an index holding `x` with no earlier occurrence; `None` exactly when `x` is not in the list (the `ValueError` case) |
| Workflow.Progress | app.py:71-75 | the empty stage gives 0; the result is an error exactly when the stage is non-empty and not in the catalogue, and the error names that stage; every percentage is at most 100, and a non-empty stage gives at least 16 |
| Workflow.StepsDistinct | app.py:14-21 | no stage name occurs twice in the catalogue |
| Workflow.ProgressOfStep | app.py:74-75 | the stage at index `i` gives `((i + 1) * 100) / 6`, the truncation of the float formula |
| Workflow.ProgressIncreasing | app.py:74-75 | a later stage always gives a strictly larger percentage |
| Workflow.ProgressFirstStep | app.py:14-21 | "Initial Engagement" gives 16 |
| Workflow.ProgressLastStep | app.py:14-21 | "Review & Approval" gives 100 |
| Workflow.ProgressUnknownExample | app.py:74 | a name outside the catalogue is reported as `UnknownStep`, not coerced to a number |
| Projects.NewProject | app.py:99-107 | the new-project record has every text field empty, the three links present and empty, and an empty current stage |
| Search.LowerChar | app.py:81 | a capital letter becomes the small letter 32 code points above it; every other character is kept; the result is never a capital |
| Search.Lower | app.py:83-85 | `str.lower` keeps the length and lower-cases each character in place, leaving no capital |
| Search.LowerCharSameIgnoringCase | app.py:81-85 | two characters lower-case alike exactly when they are the same letter up to case, or the same character |
| Search.LowerSameTextIgnoringCase | app.py:81-85 | two strings lower-case alike exactly when they have the same length and differ at most in letter case, position by position |
| Search.LowerIdempotent | app.py:81-85 | lower-casing an already lower-cased string changes nothing |
| Search.Occurs | app.py:83-85 | Python's `t in s`: true exactly when `t` occurs at some position of `s` |
| Search.MatchesEmptyTerm | app.py:81-85 | an empty search term matches every project |
| Search.MatchesIgnoresTermCase | app.py:81 | the filter's verdict does not depend on the case of the term |
| Search.Matches | app.py:83-85 | a project matches exactly when the lower-cased term occurs at some position of the lower-cased PPM number, title or contact |
| Search.MatchesFieldOccurrence | app.py:83-85 | a term written inside the PPM number, the title or the contact, with the same letter case, finds the project |
| Search.MatchesIgnoresFieldCase | app.py:81-85 | a term that spells part of the PPM number, title or contact in another letter case ("abc" inside "xABCx") finds the project |
| Search.Filter | app.py:82-85 | the shown projects are never more than the list holds; which ones and in what order is stated by FilterExactly and FilterAppend |
| Search.FilterExactly | app.py:82-85 | a project is shown exactly when it is in the list and matches the term |
| Search.FilterAppend | app.py:82-92 | filtering a concatenation is the concatenation of the filtered parts: the filter never reorders |
| Search.FilterAfterAppend | app.py:186-187 | a newly appended project shows at the end of the list view exactly when it matches |
| Search.FilterNext | app.py:82-86 | when the loop stops at a matching project, that project is the next one the full list view would show |
| Search.FilterEmptyTerm | app.py:81-85 | an empty search term shows the whole list, in order |
| Table.Decimal | app.py:91 | the printed number is a non-empty string of digits, with a leading zero only for 0 |
| Table.DecimalRoundTrip | app.py:91 | reading back the printed number gives the number |
| Table.Label | app.py:91 | the progress column is the digits of the percentage, with no leading zero except for 0 itself, followed by `%` |
| Table.RowOf | app.py:87-92 | a row carries the project's PPM number, title and contact unchanged and the label of its percentage |
| Table.LabelExamples | app.py:91 | the labels of 0, 16, 33 and 100 are "0%", "16%", "33%" and "100%" |
| Store.FirstWithId | app.py:114 | the first record whose PPM number equals the id; `None` exactly when no record has it |
| Store.FirstWithIdAfterAppend | app.py:186-187 | after an append, looking up the new record's PPM number finds the new record unless an earlier record already has that number |
| Store.FirstWithIdAfterReplace | app.py:189 | overwriting the found record with one that keeps its PPM number leaves the lookup where it was |
| Store.Without | app.py:197 | what `list.remove` leaves: one element fewer, the elements before the removed position in place, the ones after it moved up by one |
| Store.WithoutMultiset | app.py:197 | taking out one element removes exactly one copy of it from the list's contents |
| Store.WellFormedShowsAll | app.py:86 | in a list whose stages are all empty or in the catalogue, every shown project has a progress |
| Store.NewProjectNotStarted | app.py:99-107 | a new record shows 0 percent and is shown by an empty search |
| Store.Tracker.constructor | app.py:24-26 | the tracker starts from the loaded records, and the file holds them |
| Store.Tracker.Lookup | app.py:112-114 | the loop finds the first record with the selected PPM number, or reports that none has it |
| Store.Tracker.Append | app.py:186-191 | the new record is added at the end, earlier records are unchanged, and the list is written out |
| Store.Tracker.Replace | app.py:188-191 | the record at the found position is replaced, the length and every other record are unchanged, and the list is written out |
| Store.Tracker.Edit | app.py:112-191 | when some record has the selected PPM number, the first such record is overwritten in place with the edited fields and the list is written out; otherwise nothing changes and nothing is written |
| Store.Tracker.Remove | app.py:195-198 | the first record equal to the deleted one is removed and the rest keep their order, and the list is written out; when no record is equal, nothing changes and nothing is written |
| Store.Tracker.UpdateTable | app.py:77-92 | the rows are those of the matching projects, in list order, each labelled with its progress; when a matching project's stage is unknown, the rows stop just before it and its error is returned |

## Left out

- Every Tkinter widget is left out: windows, the Treeview, Comboboxes, the
  progress bar and the delete confirmation dialog (app.py:31-60, app.py:116-205).
  Clearing the Treeview is represented by `UpdateTable` returning a fresh list of
  rows.
- `load_data` and `save_data` (file I/O through `os` and `json`) are left out.
  Loading is the constructor's parameter. Saving is the ghost field `persisted`,
  set to the whole list after each mutation. A failed write is not modelled.
- Records are exactly the seven keys, each holding a string. JSON values of
  other types (a numeric PPM number, `null`) are not modelled. Neither are a
  missing `current_step` key (read with `.get(..., "")`) or extra keys that
  `dict.update` would keep.
- The float division of `calculate_progress` is modelled as integer division.
  It gives the same six values.
- `Search.Lower` maps ASCII letters only, where Python's `str.lower` applies the
  full Unicode case mapping.
- The Treeview converts numeric-looking values read back from a row
  (`item["values"][0]`). This library behaviour is not modelled: the selected
  id is taken as the string shown.
- Store.Tracker.Replace, Store.Tracker.Edit and Store.Tracker.Remove: the detail
  window keeps a reference to the record's dict. The model keeps instead the
  position `Lookup` found (Replace, Edit) or the record's value (Remove). A
  second window that changes the list, or edits the same dict in place, between
  opening and saving or deleting is therefore not captured (aliasing).
- `main` and the event loop are left out.
