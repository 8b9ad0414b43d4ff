/**
 * The comparator `switch` shared by `selectFilteredTodos` and the page's
 * inline view, and the stable sort (`Array.prototype.sort`) that applies it.
 * The sort is a stable insertion sort: elements the comparator calls equal
 * keep their input order, as the ECMAScript sort guarantees.
 */
module Ordering {
  import opened TodoTypes
  import opened Text
  import opened Seqs
  import opened TodoLists

  /** `Number(b)`: 1 for true, 0 for false. */
  function BoolNumber(b: bool): int { if b then 1 else 0 }

  /** The comparator: negative when `a` goes first, positive when `b` does,
      zero when the mode does not tell them apart. */
  function Compare(mode: SortBy, a: Todo, b: Todo): (r: int)
    ensures mode == Newest ==> (r < 0 <==> a.createdAt > b.createdAt) && (r == 0 <==> a.createdAt == b.createdAt)
    ensures mode == Oldest ==> (r < 0 <==> a.createdAt < b.createdAt) && (r == 0 <==> a.createdAt == b.createdAt)
    ensures mode == Alphabetical ==> -1 <= r <= 1 && (r == 0 <==> a.title == b.title)
    ensures mode == CompletedFirst ==> (r < 0 <==> a.completed && !b.completed) && (r == 0 <==> a.completed == b.completed)
    ensures mode.Unrecognised? ==> r == 0
  {
    match mode
    case Newest => b.createdAt - a.createdAt
    case Oldest => a.createdAt - b.createdAt
    case Alphabetical => LocaleCompare(a.title, b.title)
    case CompletedFirst => BoolNumber(b.completed) - BoolNumber(a.completed)
    case Unrecognised(_) => 0
  }

  /** `a` may stand before `b`. */
  predicate InOrder(mode: SortBy, a: Todo, b: Todo) {
    Compare(mode, a, b) <= 0
  }

  /** What `InOrder` means for each mode. */
  lemma InOrderMeaning(mode: SortBy, a: Todo, b: Todo)
    ensures mode == Newest ==> (InOrder(mode, a, b) <==> a.createdAt >= b.createdAt)
    ensures mode == Oldest ==> (InOrder(mode, a, b) <==> a.createdAt <= b.createdAt)
    ensures mode == Alphabetical ==> (InOrder(mode, a, b) <==> LocaleCompare(a.title, b.title) <= 0)
    ensures mode == CompletedFirst ==> (InOrder(mode, a, b) <==> a.completed || !b.completed)
    ensures mode.Unrecognised? ==> InOrder(mode, a, b)
  {
  }

  /** Every comparator is total: of two records, one may go first. */
  lemma CompareTotal(mode: SortBy, a: Todo, b: Todo)
    ensures InOrder(mode, a, b) || InOrder(mode, b, a)
  {
    if mode == Alphabetical {
      LocaleCompareFlip(a.title, b.title);
    }
  }

  lemma CompareTransitive(mode: SortBy, a: Todo, b: Todo, c: Todo)
    requires InOrder(mode, a, b) && InOrder(mode, b, c)
    ensures InOrder(mode, a, c)
  {
    if mode == Alphabetical {
      LocaleCompareTransitive(a.title, b.title, c.title);
    }
  }

  /** The comparator never objects to any pair of `s` in the order they
      stand. */
  predicate Sorted(mode: SortBy, s: seq<Todo>) {
    forall i, j :: 0 <= i < j < |s| ==> InOrder(mode, s[i], s[j])
  }

  /** Put `x` in front of the first element it may precede. */
  function Insert(mode: SortBy, x: Todo, r: seq<Todo>): (out: seq<Todo>)
    ensures |out| == |r| + 1
    ensures multiset(out) == multiset{x} + multiset(r)
  {
    if r == [] || InOrder(mode, x, r[0]) then [x] + r
    else
      assert r == [r[0]] + r[1..];
      [r[0]] + Insert(mode, x, r[1..])
  }

  /** `array.sort(comparator)`, stable. */
  function Sort(mode: SortBy, s: seq<Todo>): (r: seq<Todo>)
    ensures |r| == |s|
    ensures multiset(r) == multiset(s)
  {
    if s == [] then []
    else
      assert s == [s[0]] + s[1..];
      Insert(mode, s[0], Sort(mode, s[1..]))
  }

  lemma {:induction false} InsertSorted(mode: SortBy, x: Todo, r: seq<Todo>)
    requires Sorted(mode, r)
    ensures Sorted(mode, Insert(mode, x, r))
  {
    if r == [] {
    } else if InOrder(mode, x, r[0]) {
      forall j | 0 <= j < |r| ensures InOrder(mode, x, r[j]) {
        if j > 0 { CompareTransitive(mode, x, r[0], r[j]); }
      }
    } else {
      CompareTotal(mode, x, r[0]);
      var tail := Insert(mode, x, r[1..]);
      InsertSorted(mode, x, r[1..]);
      forall j | 0 <= j < |tail| ensures InOrder(mode, r[0], tail[j]) {
        assert tail[j] in multiset(tail);
        if tail[j] != x {
          assert tail[j] in r[1..];
        }
      }
    }
  }

  /** The sorted view obeys the comparator throughout. */
  lemma {:induction false} SortSorted(mode: SortBy, s: seq<Todo>)
    ensures Sorted(mode, Sort(mode, s))
  {
    if s != [] {
      SortSorted(mode, s[1..]);
      InsertSorted(mode, s[0], Sort(mode, s[1..]));
    }
  }

  /** Sorting a list that is already in order changes nothing (stability). */
  lemma {:induction false} SortOfSorted(mode: SortBy, s: seq<Todo>)
    requires Sorted(mode, s)
    ensures Sort(mode, s) == s
  {
    if s != [] {
      assert Sorted(mode, s[1..]);
      SortOfSorted(mode, s[1..]);
      if |s| > 1 {
        assert InOrder(mode, s[0], s[1..][0]);
      }
      assert [s[0]] + s[1..] == s;
    }
  }

  /** An unrecognised mode compares everything as equal, so the stable sort
      leaves the list as it is. */
  lemma SortUnrecognised(mode: string, s: seq<Todo>)
    ensures Sort(Unrecognised(mode), s) == s
  {
    SortOfSorted(Unrecognised(mode), s);
  }

  /** One step of `Insert` past an element `x` may not precede. */
  lemma InsertPast(mode: SortBy, x: Todo, y: Todo, r: seq<Todo>)
    requires !InOrder(mode, x, y)
    ensures Insert(mode, x, [y] + r) == [y] + Insert(mode, x, r)
  {
    assert ([y] + r)[0] == y && ([y] + r)[1..] == r;
  }

  /** Inserting `x` after a run that must precede it. */
  lemma {:induction false} InsertAfterRun(mode: SortBy, x: Todo, a: seq<Todo>, b: seq<Todo>)
    requires forall i :: 0 <= i < |a| ==> !InOrder(mode, x, a[i])
    requires b == [] || InOrder(mode, x, b[0])
    ensures Insert(mode, x, a + b) == a + [x] + b
  {
    if a == [] {
      assert a + b == b && a + [x] + b == [x] + b;
    } else {
      var y, t := a[0], a[1..];
      assert forall i :: 0 <= i < |t| ==> t[i] == a[i + 1];
      Regroup(a, x, b);
      InsertPast(mode, x, y, t + b);
      InsertAfterRun(mode, x, t, b);
    }
  }

  lemma Regroup(a: seq<Todo>, x: Todo, b: seq<Todo>)
    requires a != []
    ensures a + b == [a[0]] + (a[1..] + b)
    ensures a + [x] + b == [a[0]] + (a[1..] + [x] + b)
  {
    assert a == [a[0]] + a[1..];
  }

  /** Inserting into "completed, then incomplete" under the completed-first
      comparator: a completed record goes in front, an incomplete one between
      the two groups. */
  lemma InsertCompletedFirst(x: Todo, c: seq<Todo>, n: seq<Todo>)
    requires forall i :: 0 <= i < |c| ==> c[i].completed
    requires forall i :: 0 <= i < |n| ==> !n[i].completed
    ensures Insert(CompletedFirst, x, c + n) == if x.completed then [x] + (c + n) else c + [x] + n
  {
    if !x.completed {
      InsertAfterRun(CompletedFirst, x, c, n);
    }
  }

  /** "Completed first" is exactly: the completed records, then the
      incomplete ones, each group in its original order. */
  lemma {:induction false} SortCompletedFirst(s: seq<Todo>)
    ensures Sort(CompletedFirst, s) == CompletedOnly(s) + Incomplete(s)
  {
    if s != [] {
      var x, t := s[0], s[1..];
      var c, n := CompletedOnly(t), Incomplete(t);
      SortCompletedFirst(t);
      assert s == [x] + t;
      FilterCons(x, t, IsCompleted);
      FilterCons(x, t, IsIncomplete);
      FiltersUniform(t);
      assert Sort(CompletedFirst, s) == Insert(CompletedFirst, x, c + n);
      InsertCompletedFirst(x, c, n);
      if x.completed {
        ConcatAssoc([x], c, n);
      } else {
        ConcatAssoc(c, [x], n);
      }
    }
  }
}
