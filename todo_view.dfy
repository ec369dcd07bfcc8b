/**
 * The derived views of `TodoListBody` and `Todo` in my-app/src/App.js: the
 * optional title sort, the search filter, the row labels of the list screen and
 * the selection of the detail screen by routed id.
 */
module TodoView {
  import opened Wrappers
  import opened ArrayFilter
  import opened Text

  datatype Todo = Todo(id: int, title: string, checked: bool)

  /** One `<li>` of the list screen: the id its link routes to and the text it shows. */
  datatype Row = Row(id: int, text: string)

  /** The key the sort comparator compares: the lowercased title. */
  function TitleKey(t: Todo): string {
    Lower(t.title)
  }

  /** Lowercased titles never decrease from left to right. */
  ghost predicate TitleSorted(s: seq<Todo>) {
    forall i, j :: 0 <= i < j < |s| ==> !LexLess(TitleKey(s[j]), TitleKey(s[i]))
  }

  ghost predicate UniqueIds(s: seq<Todo>) {
    forall i, j :: 0 <= i < j < |s| ==> s[i].id != s[j].id
  }

  // ---------------------------------------------------------------- sorting

  /** Places `x` in front of the first element whose key is not below its own. */
  function InsertByTitle(x: Todo, s: seq<Todo>): (r: seq<Todo>)
    requires TitleSorted(s)
    ensures multiset(r) == multiset(s) + multiset{x}
    ensures TitleSorted(r)
  {
    if s == [] then [x]
    else if !LexLess(TitleKey(s[0]), TitleKey(x)) then
      InsertFrontKeepsSorted(x, s);
      [x] + s
    else
      LexLessAsymmetric(TitleKey(s[0]), TitleKey(x));
      var rest := InsertByTitle(x, s[1..]);
      assert s == [s[0]] + s[1..];
      InsertBehindKeepsSorted(s[0], x, s[1..], rest);
      [s[0]] + rest
  }

  lemma InsertFrontKeepsSorted(x: Todo, s: seq<Todo>)
    requires TitleSorted(s) && s != [] && !LexLess(TitleKey(s[0]), TitleKey(x))
    ensures TitleSorted([x] + s)
  {
    var r := [x] + s;
    forall i, j | 0 <= i < j < |r| ensures !LexLess(TitleKey(r[j]), TitleKey(r[i])) {
      if i == 0 && j > 1 {
        NotLessTransitive(TitleKey(x), TitleKey(s[0]), TitleKey(s[j - 1]));
      }
    }
  }

  lemma InsertBehindKeepsSorted(h: Todo, x: Todo, s: seq<Todo>, rest: seq<Todo>)
    requires TitleSorted([h] + s) && TitleSorted(rest)
    requires !LexLess(TitleKey(x), TitleKey(h))
    requires multiset(rest) == multiset(s) + multiset{x}
    ensures TitleSorted([h] + rest)
  {
    var r := [h] + rest;
    forall j | 0 < j < |r| ensures !LexLess(TitleKey(r[j]), TitleKey(h)) {
      assert r[j] == rest[j - 1];
      assert r[j] in multiset(rest);
      if r[j] != x {
        assert r[j] in multiset(s);
        assert r[j] in s;
        var k :| 0 <= k < |s| && s[k] == r[j];
        assert ([h] + s)[0] == h && ([h] + s)[k + 1] == r[j];
      }
    }
  }

  /**
   * `slice().sort((a, b) => a.title.toLowerCase() < b.title.toLowerCase() ? -1 : 1)`:
   * a permutation of the input ordered by lowercased title. Which of several
   * todos with equal keys comes first is not fixed by the source.
   */
  function SortByTitle(s: seq<Todo>): (r: seq<Todo>)
    ensures multiset(r) == multiset(s)
    ensures |r| == |s|
    ensures TitleSorted(r)
  {
    if s == [] then []
    else
      assert s == [s[0]] + s[1..];
      InsertByTitle(s[0], SortByTitle(s[1..]))
  }

  /** Every subsequence of a sorted sequence (in particular a filtered one) is sorted. */
  lemma {:induction false} FilterKeepsSorted(s: seq<Todo>, p: Todo -> bool)
    requires TitleSorted(s)
    ensures TitleSorted(Filter(s, p))
  {
    if s != [] {
      var rest := s[1..];
      SortedTail(s);
      FilterKeepsSorted(rest, p);
      if p(s[0]) {
        assert Filter(s, p) == [s[0]] + Filter(rest, p);
        SortedCons(s[0], rest, Filter(rest, p));
      }
    }
  }

  lemma SortedTail(s: seq<Todo>)
    requires TitleSorted(s) && s != []
    ensures TitleSorted(s[1..])
  {
    var rest := s[1..];
    forall i, j | 0 <= i < j < |rest| ensures !LexLess(TitleKey(rest[j]), TitleKey(rest[i])) {
      assert rest[i] == s[i + 1] && rest[j] == s[j + 1];
    }
  }

  /** A sorted `sub` drawn from the tail of sorted `[h] + s` may follow `h`. */
  lemma SortedCons(h: Todo, s: seq<Todo>, sub: seq<Todo>)
    requires TitleSorted([h] + s) && TitleSorted(sub)
    requires forall t :: t in sub ==> t in s
    ensures TitleSorted([h] + sub)
  {
    var r := [h] + sub;
    forall j | 0 < j < |r| ensures !LexLess(TitleKey(r[j]), TitleKey(h)) {
      assert r[j] == sub[j - 1] && sub[j - 1] in sub;
      var k :| 0 <= k < |s| && s[k] == r[j];
      assert ([h] + s)[0] == h && ([h] + s)[k + 1] == r[j];
    }
  }

  // ---------------------------------------------------------------- search

  /**
   * The filter callback of `TodoListBody`: every todo passes when the lowercased
   * search text is empty, otherwise the lowercased title must include it.
   */
  predicate MatchesSearch(search: string, t: Todo): (r: bool)
    ensures search == "" ==> r
    ensures r ==> |search| <= |t.title|
  {
    Lower(search) == "" || Includes(TitleKey(t), Lower(search))
  }

  function SearchMatcher(search: string): Todo -> bool {
    t => MatchesSearch(search, t)
  }

  /** A todo passes the search exactly when its lowercased title contains the lowercased text. */
  lemma MatchesSearchIff(search: string, t: Todo)
    ensures MatchesSearch(search, t) <==> exists i :: OccursAt(TitleKey(t), Lower(search), i)
  {
    IncludesIff(TitleKey(t), Lower(search));
    if Lower(search) == "" {
      assert OccursAt(TitleKey(t), Lower(search), 0);
    }
  }

  function FilterBySearch(todos: seq<Todo>, search: string): (r: seq<Todo>)
    ensures IsSubsequence(r, todos)
    ensures forall t :: t in r <==> t in todos && MatchesSearch(search, t)
    ensures forall t :: multiset(r)[t] == if MatchesSearch(search, t) then multiset(todos)[t] else 0
    ensures search == "" ==> r == todos
  {
    FilterKeepsAll(todos, SearchMatcher(search));
    Filter(todos, SearchMatcher(search))
  }

  /**
   * The todos the list screen shows, in display order: sorted first when the
   * sort toggle is on, then filtered by the search text.
   */
  function VisibleTodos(todos: seq<Todo>, search: string, sorted: bool): (r: seq<Todo>)
    ensures forall t :: t in r <==> t in todos && MatchesSearch(search, t)
    ensures multiset(r) == multiset(FilterBySearch(todos, search))
    ensures !sorted ==> r == FilterBySearch(todos, search)
    ensures sorted ==> TitleSorted(r)
    ensures search == "" ==> multiset(r) == multiset(todos)
    ensures search == "" && !sorted ==> r == todos
  {
    if sorted then
      var s := SortByTitle(todos);
      FilterOfPermutation(s, todos, SearchMatcher(search));
      FilterKeepsSorted(s, SearchMatcher(search));
      FilterBySearch(s, search)
    else
      FilterBySearch(todos, search)
  }

  // ---------------------------------------------------------------- rows

  /** `title.length > 10 ? title.slice(0, 10) + '...' : title`. */
  function Label(title: string): (r: string)
    ensures |title| <= 10 ==> r == title
    ensures |title| > 10 ==> |r| == 13 && r[..10] == title[..10] && r[10..] == "..."
  {
    if |title| > 10 then title[..10] + "..." else title
  }

  /** The rows of the list screen: one per visible todo, linking to its id, showing its label. */
  function ListRows(todos: seq<Todo>, search: string, sorted: bool): (r: seq<Row>)
    ensures |r| == |VisibleTodos(todos, search, sorted)|
    ensures forall i :: 0 <= i < |r| ==>
              r[i] == Row(VisibleTodos(todos, search, sorted)[i].id, Label(VisibleTodos(todos, search, sorted)[i].title))
    ensures forall i :: 0 <= i < |r| ==>
              exists t :: t in todos && MatchesSearch(search, t) && r[i] == Row(t.id, Label(t.title))
    ensures search == "" && !sorted ==>
              |r| == |todos| && forall i :: 0 <= i < |r| ==> r[i] == Row(todos[i].id, Label(todos[i].title))
  {
    var v := VisibleTodos(todos, search, sorted);
    var r := seq(|v|, i requires 0 <= i < |v| => Row(v[i].id, Label(v[i].title)));
    assert forall i :: 0 <= i < |r| ==> v[i] in v && r[i] == Row(v[i].id, Label(v[i].title));
    r
  }

  // ---------------------------------------------------------------- detail

  /** `todo.id === Number(params.id)`; `None` is the `NaN` of a non-numeric path, equal to nothing. */
  predicate HasRoutedId(rid: Option<int>, t: Todo): (r: bool)
    ensures r <==> rid == Some(t.id)
    ensures rid == None ==> !r
  {
    rid.Some? && t.id == rid.value
  }

  function RoutedIdMatcher(rid: Option<int>): Todo -> bool {
    t => HasRoutedId(rid, t)
  }

  /** The todos the detail screen shows for routed id `rid`. */
  function SelectById(todos: seq<Todo>, rid: Option<int>): (r: seq<Todo>)
    ensures IsSubsequence(r, todos)
    ensures forall t :: t in r <==> t in todos && rid == Some(t.id)
    ensures forall t :: multiset(r)[t] == if rid == Some(t.id) then multiset(todos)[t] else 0
    ensures (forall t :: t in todos ==> rid != Some(t.id)) ==> r == []
    ensures UniqueIds(todos) ==> |r| <= 1
  {
    FilterAtMostOne(todos, RoutedIdMatcher(rid));
    Filter(todos, RoutedIdMatcher(rid))
  }

  /** `const [first] = todos.filter(t => t.id === id)` takes the first todo carrying `id`. */
  lemma SelectByIdHead(todos: seq<Todo>, id: int)
    requires SelectById(todos, Some(id)) != []
    ensures exists k :: 0 <= k < |todos| && todos[k] == SelectById(todos, Some(id))[0] &&
                        todos[k].id == id && forall j :: 0 <= j < k ==> todos[j].id != id
  {
    FilterHead(todos, RoutedIdMatcher(Some(id)));
  }

  /** Some todo carries `id` exactly when the selection for `id` is non-empty. */
  lemma SelectByIdNonEmpty(todos: seq<Todo>, id: int)
    ensures SelectById(todos, Some(id)) != [] <==> exists k :: 0 <= k < |todos| && todos[k].id == id
  {
    if exists k :: 0 <= k < |todos| && todos[k].id == id {
      var k :| 0 <= k < |todos| && todos[k].id == id;
      assert todos[k] in SelectById(todos, Some(id));
    }
    if SelectById(todos, Some(id)) != [] {
      assert SelectById(todos, Some(id))[0] in todos;
    }
  }
}
