/**
 * The list transformations shared by the store, the redux reducers and the
 * page: lookup by id (`findIndex`/`find`), removal, replacement, the
 * completed/incomplete filters and the bulk "mark all complete" map.
 */
module TodoLists {
  import opened Wrappers
  import opened TodoTypes
  import opened Seqs

  predicate IsCompleted(t: Todo) { t.completed }

  predicate IsIncomplete(t: Todo) { !t.completed }

  /** `todos.filter(todo => todo.completed)`: the completed records, each
      as often as in `s`. */
  function CompletedOnly(s: seq<Todo>): (r: seq<Todo>)
    ensures forall x :: x in r <==> x in s && x.completed
    ensures forall x :: multiset(r)[x] == if x.completed then multiset(s)[x] else 0
  {
    var r := Filter(s, IsCompleted);
    assert forall x :: multiset(r)[x] == if x.completed then multiset(s)[x] else 0 by {
      forall x ensures multiset(r)[x] == if x.completed then multiset(s)[x] else 0 {
        FilterCount(s, IsCompleted, x);
      }
    }
    r
  }

  /** `todos.filter(todo => !todo.completed)`: the incomplete records, each
      as often as in `s`. */
  function Incomplete(s: seq<Todo>): (r: seq<Todo>)
    ensures forall x :: x in r <==> x in s && !x.completed
    ensures forall x :: multiset(r)[x] == if x.completed then 0 else multiset(s)[x]
  {
    var r := Filter(s, IsIncomplete);
    assert forall x :: multiset(r)[x] == if x.completed then 0 else multiset(s)[x] by {
      forall x ensures multiset(r)[x] == if x.completed then 0 else multiset(s)[x] {
        FilterCount(s, IsIncomplete, x);
      }
    }
    r
  }

  /** `todos.filter(todo => todo.completed).length` */
  function CountCompleted(s: seq<Todo>): (n: nat)
    ensures n <= |s|
    ensures n == 0 <==> forall i :: 0 <= i < |s| ==> !s[i].completed
    ensures n == |s| <==> forall i :: 0 <= i < |s| ==> s[i].completed
  {
    var c := CompletedOnly(s);
    NoneCompleted(s);
    AllCompleted(s);
    |c|
  }

  lemma {:induction false} NoneCompleted(s: seq<Todo>)
    ensures |CompletedOnly(s)| == 0 <==> forall i :: 0 <= i < |s| ==> !s[i].completed
  {
    if s != [] {
      NoneCompleted(s[1..]);
      assert forall i :: 1 <= i < |s| ==> s[i] == s[1..][i - 1];
    }
  }

  lemma {:induction false} AllCompleted(s: seq<Todo>)
    ensures |CompletedOnly(s)| == |s| <==> forall i :: 0 <= i < |s| ==> s[i].completed
  {
    if s != [] {
      AllCompleted(s[1..]);
      assert forall i :: 1 <= i < |s| ==> s[i] == s[1..][i - 1];
    }
  }

  /** Every record the completed filter keeps is completed; every record
      the incomplete filter keeps is not. */
  lemma FiltersUniform(s: seq<Todo>)
    ensures forall i :: 0 <= i < |CompletedOnly(s)| ==> CompletedOnly(s)[i].completed
    ensures forall i :: 0 <= i < |Incomplete(s)| ==> !Incomplete(s)[i].completed
  {
    var c, n := CompletedOnly(s), Incomplete(s);
    forall i | 0 <= i < |c| ensures c[i].completed {
      assert c[i] in c;
    }
    forall i | 0 <= i < |n| ensures !n[i].completed {
      assert n[i] in n;
    }
  }

  /** Completed and incomplete records partition a list. */
  lemma CompletedIncompletePartition(s: seq<Todo>)
    ensures |CompletedOnly(s)| + |Incomplete(s)| == |s|
    ensures multiset(CompletedOnly(s)) + multiset(Incomplete(s)) == multiset(s)
  {
    FilterPartition(s, IsCompleted, IsIncomplete);
    forall x: Todo
      ensures (multiset(CompletedOnly(s)) + multiset(Incomplete(s)))[x] == multiset(s)[x]
    {
      FilterCount(s, IsCompleted, x);
      FilterCount(s, IsIncomplete, x);
    }
  }

  /** `todos.findIndex(t => t.id === id)`: the first index holding `id`, or
      -1 when none does. */
  function FindIndex(s: seq<Todo>, id: string): (r: int)
    ensures -1 <= r < |s|
    ensures r == -1 <==> forall i :: 0 <= i < |s| ==> s[i].id != id
    ensures r >= 0 ==> s[r].id == id && forall i :: 0 <= i < r ==> s[i].id != id
  {
    if s == [] then -1
    else if s[0].id == id then 0
    else
      var k := FindIndex(s[1..], id);
      if k == -1 then -1 else k + 1
  }

  /** `todos.find(t => t.id === id)`: the first record holding `id`. */
  function FindById(s: seq<Todo>, id: string): (r: Option<Todo>)
    ensures r.None? <==> forall i :: 0 <= i < |s| ==> s[i].id != id
    ensures r.Some? ==> exists i :: 0 <= i < |s| && s[i] == r.value && r.value.id == id
                                   && forall j :: 0 <= j < i ==> s[j].id != id
  {
    var k := FindIndex(s, id);
    if k == -1 then None else Some(s[k])
  }

  /** `splice(index, 1)`: the list without its element at `i`. */
  function RemoveAt(s: seq<Todo>, i: nat): (r: seq<Todo>)
    requires i < |s|
    ensures |r| == |s| - 1
    ensures forall j :: 0 <= j < i ==> r[j] == s[j]
    ensures forall j :: i <= j < |r| ==> r[j] == s[j + 1]
  {
    s[..i] + s[i + 1..]
  }

  /** `todos.filter(todo => todo.id !== id)` */
  function WithoutId(s: seq<Todo>, id: string): (r: seq<Todo>)
    ensures forall x :: x in r <==> x in s && x.id != id
    ensures forall i :: 0 <= i < |r| ==> r[i].id != id
  {
    Filter(s, (t: Todo) => t.id != id)
  }

  /** `prev.map(todo => todo.id === id ? replacement : todo)` */
  function ReplaceWhere(s: seq<Todo>, id: string, replacement: Todo): (r: seq<Todo>)
    ensures |r| == |s|
    ensures forall i :: 0 <= i < |s| ==> r[i] == if s[i].id == id then replacement else s[i]
  {
    seq(|s|, i requires 0 <= i < |s| => if s[i].id == id then replacement else s[i])
  }

  /** `todos.map(todo => ({...todo, completed: true, updatedAt: now}))` */
  function MarkAllDone(s: seq<Todo>, now: Timestamp): (r: seq<Todo>)
    ensures |r| == |s|
    ensures forall i :: 0 <= i < |s| ==>
      && r[i].id == s[i].id && r[i].title == s[i].title
      && r[i].description == s[i].description && r[i].createdAt == s[i].createdAt
      && r[i].completed && r[i].updatedAt == now
  {
    seq(|s|, i requires 0 <= i < |s| => s[i].(completed := true, updatedAt := now))
  }

  /** After marking all done nothing is incomplete, and doing it again
      changes no flag. */
  lemma MarkAllDoneCounts(s: seq<Todo>, now: Timestamp, later: Timestamp)
    ensures CountCompleted(MarkAllDone(s, now)) == |s|
    ensures Incomplete(MarkAllDone(s, now)) == []
    ensures forall i :: 0 <= i < |s| ==>
      MarkAllDone(MarkAllDone(s, now), later)[i].completed == MarkAllDone(s, now)[i].completed
  {
    var m := MarkAllDone(s, now);
    if Incomplete(m) != [] {
      var x := Incomplete(m)[0];
      assert x in m && !x.completed;
    }
  }

  /** No two records of the list share an id. */
  predicate DistinctIds(s: seq<Todo>) {
    forall i, j :: 0 <= i < j < |s| ==> s[i].id != s[j].id
  }

  /** Filtering keeps ids distinct. */
  lemma {:induction false} FilterKeepsDistinctIds(s: seq<Todo>, keep: Todo -> bool)
    requires DistinctIds(s)
    ensures DistinctIds(Filter(s, keep))
  {
    if s != [] {
      var tail := Filter(s[1..], keep);
      FilterKeepsDistinctIds(s[1..], keep);
      if keep(s[0]) {
        forall j | 0 <= j < |tail|
          ensures tail[j].id != s[0].id
        {
          assert tail[j] in s[1..];
        }
        assert Filter(s, keep) == [s[0]] + tail;
      }
    }
  }

  /** Deleting the first match is deleting every match when ids are
      distinct: the store's `splice` agrees with the reducers' `filter`. */
  lemma {:induction false} RemoveFirstIsWithoutId(s: seq<Todo>, id: string)
    requires DistinctIds(s)
    ensures var k := FindIndex(s, id);
      WithoutId(s, id) == if k == -1 then s else RemoveAt(s, k)
  {
    var keep := (t: Todo) => t.id != id;
    var k := FindIndex(s, id);
    if k == -1 {
      FilterAll(s, keep);
    } else {
      var pre, post := s[..k], s[k + 1..];
      assert s == pre + [s[k]] + post;
      forall i | 0 <= i < |post| ensures keep(post[i]) {
        assert post[i] == s[k + 1 + i];
      }
      FilterDropOne(pre, s[k], post, keep);
    }
  }

  /** Replacing every match is replacing the first match when ids are
      distinct: the page's `map` agrees with the reducers' index write. */
  lemma ReplaceWhereIsReplaceFirst(s: seq<Todo>, t: Todo)
    requires DistinctIds(s)
    ensures var k := FindIndex(s, t.id);
      ReplaceWhere(s, t.id, t) == if k == -1 then s else s[k := t]
  {
  }
}
