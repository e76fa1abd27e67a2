# Checkbox group selection model

This project models the selection logic of the `CheckboxInput` form widget of
a Next.js frontend (components/form/CheckboxInput.tsx). The widget shows a list
of options, each a checkbox, plus a "select all" button. It keeps one piece of
state: `checkedItems`, the list of checked option values in click order. Two
handlers replace that list and report the new list to the parent component
through the `updateInputValues` callback:

- a checkbox click (`handleInputChange`): checking appends the value at the
  end, with no duplicate test; unchecking drops every occurrence of the value;
- the select-all button (`handleCheckAll`): if the list is as long as the
  option list, it is cleared; otherwise it becomes all option values in their
  given order.

A checkbox is displayed as checked when its value is in `checkedItems`.

Everything is in `checkbox_input.dfy`, module `CheckboxGroup`:

- `CheckboxInput` is a class with the immutable `options` and the mutable
  `checkedItems` field. Its methods `Toggle` and `CheckAll` replace the field
  and return the list the parent is told about. `DisplayedChecked` is the
  displayed state of one checkbox.
- `Values`, `Without`, `Toggled` and `CheckedAll` are the pure list
  computations (the `map`, `filter` and spread-append of the source).
- `Step` and `Run` replay a sequence of user events on those functions.
- The lemmas state what the two cheap tests of the source (append without a
  duplicate check, select-all by comparing lengths) mean. They hold when the
  option values are distinct and the browser only sends a "checked" click for
  an unchecked box and an "unchecked" click for a checked one.

Three facts about the code are worth stating next to the model:

- Checking appends unconditionally (line 27). `Toggled` does the same, and
  `ToggleKeepsConsistent` shows that the clicks a rendered checkbox can send
  never create a duplicate.
- Two presses of select-all restore the list only when it was empty or equal
  to the option values in order (`CheckAllTwice`). On a non-empty option list,
  a second press always changes the list (`CheckAllNotIdempotent`).
- With repeated option values the length test and "every box shown checked"
  disagree (`RepeatedValuesSelectAll`).

## Model

| member | source | states |
|---|---|---|
| `CheckboxGroup.CheckboxInput.constructor` | components/form/CheckboxInput.tsx:17-19 | a new group keeps the given options and starts with no checked value |
| `CheckboxGroup.CheckboxInput.Toggle` | components/form/CheckboxInput.tsx:21-38 | the new list is `Toggled` of the old one: checking appends the value, unchecking drops every occurrence; the list reported to the parent equals the new state; a click a rendered checkbox can send keeps the list duplicate-free and within the option values |
| `CheckboxGroup.CheckboxInput.CheckAll` | components/form/CheckboxInput.tsx:40-51 | the new list is `CheckedAll` of the old one: empty when the list is as long as the options, otherwise all option values in order; the reported list equals the new state; with distinct option values the result is duplicate-free and within the option values |
| `CheckboxGroup.CheckboxInput.DisplayedChecked` | components/form/CheckboxInput.tsx:88 | an option's checkbox shows as checked iff its value occurs at some position of the checked list |
| `CheckboxGroup.Values` | components/form/CheckboxInput.tsx:47 | the option values have one entry per option, the i-th being the i-th option's value |
| `CheckboxGroup.Without` | components/form/CheckboxInput.tsx:29 | the filtered list no longer contains the value, keeps exactly the other members, and has the value's count set to zero in its multiset |
| `CheckboxGroup.Toggled` | components/form/CheckboxInput.tsx:26-37 | checking yields the old list as a prefix followed by the value; unchecking yields a list without the value and otherwise the same multiset |
| `CheckboxGroup.CheckedAll` | components/form/CheckboxInput.tsx:41-49 | select-all yields either nothing or all values: nothing when the lengths match, a list as long as the options otherwise |
| `CheckboxGroup.Step` | components/form/CheckboxInput.tsx:21-51 | after a click the clicked value is displayed as checked iff the click checked it; after select-all the list is empty or all option values |
| `CheckboxGroup.Run` | components/form/CheckboxInput.tsx:21-51 | after a sequence of events the last one decides: a final click leaves its value displayed as it says, a final select-all leaves nothing or all option values |
| `CheckboxGroup.WithoutConcat` | components/form/CheckboxInput.tsx:29 | unchecking keeps the relative order of the remaining values: the filter of a concatenation is the concatenation of the filters |
| `CheckboxGroup.WithoutAbsent` | components/form/CheckboxInput.tsx:29 | unchecking a value that is not in the list leaves the list unchanged |
| `CheckboxGroup.WithoutKeepsDistinct` | components/form/CheckboxInput.tsx:29 | unchecking keeps a duplicate-free list duplicate-free |
| `CheckboxGroup.ToggleKeepsConsistent` | components/form/CheckboxInput.tsx:26-29 | a click a rendered checkbox can send (check an unchecked option value, uncheck a checked one) keeps the list duplicate-free and within the option values |
| `CheckboxGroup.CheckAllKeepsConsistent` | components/form/CheckboxInput.tsx:41-49 | with distinct option values, select-all leaves a duplicate-free list within the option values, whatever the list was before |
| `CheckboxGroup.RunKeepsConsistent` | components/form/CheckboxInput.tsx:21-51 | along any sequence of clicks and select-all presses that a rendered group can send, the list stays duplicate-free and within the option values |
| `CheckboxGroup.FullIffAllChecked` | components/form/CheckboxInput.tsx:41 | under that invariant and with distinct option values, the list is as long as the options iff every option value is checked |
| `CheckboxGroup.AllShownIffAllIn` | components/form/CheckboxInput.tsx:88 | every checkbox is displayed as checked iff every option value is in the list |
| `CheckboxGroup.FullIffAllDisplayed` | components/form/CheckboxInput.tsx:40-51 | under the invariant and with distinct option values, the select-all length test holds iff every checkbox is displayed as checked, so select-all clears exactly when all boxes show checked |
| `CheckboxGroup.RepeatedValuesSelectAll` | components/form/CheckboxInput.tsx:41-47 | with two options of equal value, one click shows both as checked, yet select-all then checks all instead of clearing |
| `CheckboxGroup.CheckAllTwice` | components/form/CheckboxInput.tsx:40-51 | two presses from a list not as long as the options give all values then nothing; from a list as long as a non-empty option list, nothing then all values |
| `CheckboxGroup.CheckAllNotIdempotent` | components/form/CheckboxInput.tsx:40-51 | on a non-empty option list, a second press of select-all always changes the list |
| `CheckboxGroup.UncheckHidesValue` | components/form/CheckboxInput.tsx:28-29 | after unchecking a value, no option with that value is displayed as checked, and every other option keeps its displayed state |
| `CheckboxGroup.CheckShowsValue` | components/form/CheckboxInput.tsx:26-27 | after checking a value, every option with that value is displayed as checked, and every other option keeps its displayed state |

## Left out

- Rendering (JSX markup, Tailwind classes, the dark/light theme from `useTheme`), the option `name` and `description` display text and the `required` attribute: they do not affect the selection.
- React's asynchronous, batched state updates: line 27 uses a functional updater while line 35 reads the list captured at render time. Both are modelled as one immediate update of `checkedItems`, and the reported list is computed from the list before the event.
- The option list is fixed when the group is created (`options` is a constant). A parent that re-renders the group with a different `values` list while it stays mounted is not modelled: the list at line 19 is initialised only once, so it then keeps values that may no longer be options. The invariant (`Consistent`, `RunKeepsConsistent`, `FullIffAllChecked`) assumes the options do not change.
- The `updateInputValues` callback is modelled as the methods' return value; what the parent does with it is not part of this model.
- The browser's event object is reduced to the clicked value and its new checked state; which clicks a rendered checkbox can send is stated as a hypothesis (`Issuable`), not derived from the DOM.
- components/form/TextInput.tsx is not part of this model: it forwards the text field's current content to its callback unchanged and has no other logic.
- The authentication pipeline (pages/api/auth/[...nextauth].ts) is not part of this model: it is HTTP and environment I/O wired into a third-party library.
