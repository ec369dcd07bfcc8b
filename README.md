# Todo list client: derived views and shell state machine

This project models the logic inside `my-app/src/App.js` of a React todo-list
client. The client fetches a collection of todos `{id, title, checked}` from a
REST endpoint and shows it on two routed screens. The list screen can be sorted
by title, filtered by a search text, and shows each title cut to ten characters.
The detail screen picks the todos whose id equals the routed id. The `App`
component keeps four pieces of state (`todos`, `refreshTodosFlag`,
`searchInput`, `sorted`). Its handlers send at most one HTTP request each, then
change that state.

Modules:

- `Wrappers` (`wrappers.dfy`): `Option`, used for `null`, `undefined` and the `NaN` of a non-numeric route.
- `ArrayFilter` (`array_filter.dfy`): `Array.prototype.filter` as `Filter`. It keeps, in order, exactly the accepted elements with their multiplicities.
- `Text` (`text.dfy`): `toLowerCase` for ASCII, `includes`, and JavaScript's `<` on strings (`LexLess`). The lemmas show that `LexLess` is a strict total order.
- `TodoView` (`todo_view.dfy`): pure functions for what `TodoListBody` and `Todo` show: the title sort, the search filter, the row labels and the detail selection.
- `TodoShell` (`todo_shell.dfy`): the `App` class. Its fields are the four React states, the current `route` and a log `requests` of the POST, PUT and DELETE requests the handlers send. It has one method per handler, plus the new-id rule `NewId`.

Points of the code the model keeps as written:

- The new id is the *last* todo's id + 1, not the maximum + 1. It is 1 when the list is empty or the *first* id is 0.
- The code sorts the collection and then filters the sorted copy. `VisibleTodos` shows the result is a permutation of the filtered todos.
- `handleEditTodos` neither navigates to `/` nor clears the search text. Only add and delete do both.
- The check handler sends `id: undefined` in the body, because it reads the nonexistent field `idMain`. This is modelled as `bodyId == None`.

Environment inputs are parameters:

- The `prompt()` result is an `Option<string>`: `None` is `null`, and `""` also cancels.
- The routed id is an `Option<int>`: `None` stands for `NaN`.
- The data a fetch delivers is the argument of `ReceiveTodos`.

## Model

| member | source | states |
|---|---|---|
| `ArrayFilter.Filter` | my-app/src/App.js:184-190 | the result is a subsequence of the input; it holds an element iff the input holds it and the callback accepts it, with the input's multiplicity, and no other |
| `ArrayFilter.FilterKeepsAll` | my-app/src/App.js:185-186 | a callback that accepts every element returns the input unchanged, in order |
| `ArrayFilter.FilterAtMostOne` | my-app/src/App.js:215 | if no two positions are both accepted, at most one element is kept |
| `ArrayFilter.FilterHead` | my-app/src/App.js:85 | the first element kept is the first accepted element of the input, and no element before it is accepted |
| `ArrayFilter.FilterOfPermutation` | my-app/src/App.js:173-190 | filtering two permutations of one another yields permutations of one another |
| `Text.LowerChar` | my-app/src/App.js:176 | ASCII capitals map to the letter 32 code points above; every other character is unchanged; the result is never a capital |
| `Text.Lower` | my-app/src/App.js:185-189 | lowercasing keeps the length, lowercases each character, and leaves no ASCII capital |
| `Text.Includes` | my-app/src/App.js:187-189 | `s.includes(t)`: it needs `t` no longer than `s`, holds for the empty `t`, and holds when `s` starts with `t` |
| `Text.IncludesIff` | my-app/src/App.js:187-189 | `includes(s, t)` holds iff `t` occurs in `s` at some index |
| `Text.IncludesEmptyAndSelf` | my-app/src/App.js:187-189 | every string includes `""` and includes itself |
| `Text.LexLess` | my-app/src/App.js:176 | JavaScript's `a < b` on strings: it never relates equal strings, holds when `a` is a proper prefix of `b`, and holds when the first characters already decide |
| `Text.LexLessIrreflexive` | my-app/src/App.js:176 | no string is `<` itself |
| `Text.LexLessAsymmetric` | my-app/src/App.js:176 | `a < b` excludes `b < a` |
| `Text.LexLessTransitive` | my-app/src/App.js:176 | `a < b` and `b < c` give `a < c` |
| `Text.LexLessTotal` | my-app/src/App.js:176 | two strings are equal or one is `<` the other |
| `Text.NotLessTransitive` | my-app/src/App.js:176 | "not below" is transitive, so the comparator's order can be kept by a sorted sequence |
| `TodoView.InsertByTitle` | my-app/src/App.js:174-176 | inserting into a title-sorted sequence adds exactly that todo and keeps it title-sorted |
| `TodoView.SortByTitle` | my-app/src/App.js:173-177 | the sorted copy is a permutation of the todos, and its lowercased titles never decrease |
| `TodoView.FilterKeepsSorted` | my-app/src/App.js:173-190 | filtering a title-sorted sequence keeps it title-sorted |
| `TodoView.MatchesSearch` | my-app/src/App.js:184-190 | the filter callback accepts every todo for an empty search, and accepts only titles at least as long as the search text |
| `TodoView.MatchesSearchIff` | my-app/src/App.js:184-190 | a todo passes the search iff the lowercased search text occurs in its lowercased title (the empty text occurs everywhere) |
| `TodoView.FilterBySearch` | my-app/src/App.js:184-190 | the filtered todos keep their original order; they are exactly the todos whose lowercased title includes the lowercased search text, with their multiplicity; an empty search keeps every todo |
| `TodoView.VisibleTodos` | my-app/src/App.js:172-190 | the list shows exactly the matching todos with their multiplicity; unsorted, in collection order; sorted, in non-decreasing lowercased-title order; with an empty search, every todo |
| `TodoView.Label` | my-app/src/App.js:198-200 | a title of at most 10 characters is shown unchanged; a longer one becomes 13 characters: its first 10, then `"..."` |
| `TodoView.ListRows` | my-app/src/App.js:182-204 | one row per visible todo, in display order: row i links to the id of visible todo i and shows its label; every row belongs to a todo that passes the search; with no search and no sort, one row per todo in collection order |
| `TodoView.HasRoutedId` | my-app/src/App.js:215 | `todo.id === Number(params.id)` holds iff the routed id is a number equal to the todo's id; `NaN` matches nothing |
| `TodoView.SelectById` | my-app/src/App.js:215 | the detail selection is the subsequence of todos whose id equals the routed id, with their multiplicity; it is empty when no id matches or the route is not a number; it has at most one todo when ids are unique |
| `TodoView.SelectByIdHead` | my-app/src/App.js:85 | the first todo selected for `id` is the first todo of the collection that carries `id` |
| `TodoView.SelectByIdNonEmpty` | my-app/src/App.js:85-86 | the selection for `id` is non-empty iff some todo carries `id` |
| `TodoShell.Cancelled` | my-app/src/App.js:39 | `!inputTodo` holds iff the prompt returned `null` or `""`; otherwise the input is a non-empty string |
| `TodoShell.NewId` | my-app/src/App.js:45 | the new id is 1 for an empty list or a first id of 0, and otherwise the last todo's id + 1 |
| `TodoShell.NewIdFreshWhenIncreasing` | my-app/src/App.js:45 | with positive, strictly increasing ids, the new id is above every existing id |
| `TodoShell.NewIdAfterLast` | my-app/src/App.js:45 | `[{id:1},{id:3}]` gives 4 |
| `TodoShell.NewIdIsNotMaxPlusOne` | my-app/src/App.js:45 | `[{id:3},{id:1}]` gives 2, not 4; `[{id:2},{id:3},{id:1}]` gives 2, an id already taken |
| `TodoShell.NewIdFalsyFirst` | my-app/src/App.js:45 | `[{id:0},{id:1}]` gives 1: the falsy first id yields an id already taken |
| `TodoShell.App.constructor` | my-app/src/App.js:14-17 | the initial state: no todos, flag false, empty search, unsorted, no requests |
| `TodoShell.App.RefreshTodos` | my-app/src/App.js:22 | flips `refreshTodosFlag` and changes nothing else |
| `TodoShell.App.ReceiveTodos` | my-app/src/App.js:24-35 | a resolved fetch replaces `todos` with the delivered data and changes nothing else |
| `TodoShell.App.SetSearchInput` | my-app/src/App.js:152-161 | typing in the search box sets `searchInput` and changes nothing else |
| `TodoShell.App.HandleAddTodos` | my-app/src/App.js:37-53 | a cancelled or empty prompt changes nothing and sends nothing; otherwise one POST with `NewId`, the typed title and `checked: false`; the search is cleared, the flag flips, the route becomes `/`, `todos` stays as it was, and the list then shows every todo |
| `TodoShell.App.HandleEditTodos` | my-app/src/App.js:55-69 | a cancelled or empty prompt changes nothing; otherwise one PUT to `id` with body id `id`, the new title and `checked: false` whatever it was before; only the flag flips |
| `TodoShell.App.HandleDeleteTodos` | my-app/src/App.js:71-78 | one DELETE of `id`; the search is cleared, the flag flips, the route becomes `/`, `todos` and the sort stay; the list then shows every todo |
| `TodoShell.App.HandleSort` | my-app/src/App.js:80-82 | toggles `sorted`, sends nothing, changes nothing else |
| `TodoShell.App.HandleCheck` | my-app/src/App.js:84-98 | one PUT to `id` carrying the first matching todo's original title and negated `checked`, with an undefined body id; only the flag flips |
| `TodoShell.SortTwice` | my-app/src/App.js:80-82 | toggling the sort twice restores the whole state |
| `TodoShell.RefreshTwice` | my-app/src/App.js:22 | flipping the refresh flag twice restores the whole state |
| `TodoShell.Session` | my-app/src/App.js:37-98 | adding to an empty list posts id 1; after `[{id:1},{id:3}]` arrives, adding posts id 4; checking `{id:5, title:"A", checked:false}` puts title "A", `checked: true` and an undefined body id |

## Left out

- Network I/O: the `fetch` calls, `res.json()` and the error log. A request is recorded in `App.requests`; a fetch result is the `ReceiveTodos` step.
- The race between overlapping fetches and unawaited mutations: concurrency out of scope. Any interleaving is some sequence of `ReceiveTodos` and handler calls.
- React rendering, JSX, CSS modules and hooks. Batched state updates are not modelled: each handler calls a setter at most once per field.
- The presentational components `ControlButton`, `SearchTodos`, `Button` and `NotFound`. They hold no logic. The search box's setter is `SetSearchInput`.
- react-router path matching, the `*` → `/404` redirect, `NavLink` to `task/:id`, and the "Go Back" `navigate(-1)`: library behaviour. Navigation is recorded only as `route := Root`.
- `Number(params.id)` parsing: the routed id is taken as an `Option<int>`.
- The browser `prompt()`: its result is a parameter.
- `Lower`: only ASCII capitals are lowercased. Full Unicode case mapping is not modelled.
- `TodoView.Label`: the length test and the cut count code points, while `title.length` and `slice(0, 10)` count UTF-16 code units. The two agree only on titles with no character above U+FFFF. A cut through a surrogate pair cannot be represented in a Dafny string.
- `LexLess` compares Dafny characters (code points). JavaScript compares UTF-16 code units. The two agree below U+10000.
- `SortByTitle`: the JavaScript engine's algorithm, which the comparator leaves implementation-defined for equal keys, is not modelled. The model fixes one arrangement (insertion sort) and states only the permutation and order facts.
- `TodoShell.App.HandleCheck`: no match for `id` makes the source throw while destructuring `undefined`. The model does not cover that case: its precondition demands a matching todo.
- JavaScript numbers are modelled as mathematical integers. `id + 1` does not lose precision beyond 2^53 as a double would.
