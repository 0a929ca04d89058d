/**
 * The listing pipeline of `GET /mails/:box?` (src/router/mails/index.ts): the
 * type-dispatching comparator, the stable ascending sort, the optional reversal
 * for `sort=desc`, and the page window with its unbounded sentinel.
 */
module Listing {
  import opened Outcomes
  import Text

  /** A property value as the comparator sees it at run time. */
  datatype Value =
    | DateV(time: int)       // a Date, by its time value
    | StrV(s: string)
    | BoolV(b: bool)
    | NumV(n: int)
    | ListV(items: seq<string>)  // an array, or any other object

  /** The message of the Error thrown for a value of no comparable type. */
  const IncompatibleType: string := "Incompatible type"

  /** `Number(b)`. */
  function BoolToNumber(b: bool): int
  {
    if b then 1 else 0
  }

  /**
   * `sortMails` on two property values: a negative, zero or positive number, or the
   * Error thrown. Dates compare by time, strings by the string order, booleans with
   * false first, numbers by difference. A left operand of another type throws
   * "Incompatible type"; a right operand of a different type than the left throws
   * an Error without message.
   */
  function Compare(left: Value, right: Value): (r: Result<int>)
    ensures r.Ok? <==> !left.ListV? && left.DateV? == right.DateV? && left.StrV? == right.StrV?
                        && left.BoolV? == right.BoolV? && left.NumV? == right.NumV?
    ensures r.Err? ==> r.message == (if left.ListV? then IncompatibleType else "")
    ensures r.Ok? && left.DateV? ==> (r.value < 0 <==> left.time < right.time)
    ensures r.Ok? && left.NumV? ==> (r.value < 0 <==> left.n < right.n)
    ensures r.Ok? && left.BoolV? ==> (r.value < 0 <==> !left.b && right.b)
    ensures r.Ok? ==> (r.value == 0 <==> left == right)
  {
    match left
    case DateV(l) => if right.DateV? then Ok(l - right.time) else Err("")
    case StrV(l) => if right.StrV? then Ok(Text.LexCompare(l, right.s)) else Err("")
    case BoolV(l) => if right.BoolV? then Ok(BoolToNumber(l) - BoolToNumber(right.b)) else Err("")
    case NumV(l) => if right.NumV? then Ok(l - right.n) else Err("")
    case ListV(_) => Err(IncompatibleType)
  }

  /** Holds when `left` sorts strictly after `right`: the comparator answers a positive number. */
  predicate After(left: Value, right: Value)
  {
    var c := Compare(left, right);
    c.Ok? && c.value > 0
  }

  /** The comparator is antisymmetric: swapping the operands flips the sign. */
  lemma CompareFlip(left: Value, right: Value)
    requires Compare(left, right).Ok?
    ensures Compare(right, left).Ok?
    ensures Compare(right, left).value < 0 <==> Compare(left, right).value > 0
  {
    if left.StrV? {
      Text.LexCompareFlip(left.s, right.s);
    }
  }

  /** `After` is a strict weak order: asymmetric, and "not after" is transitive. */
  lemma AfterOrder(x: Value, y: Value, z: Value)
    ensures After(x, y) ==> !After(y, x)
    ensures !After(x, y) && !After(y, z) && Compare(x, y).Ok? && Compare(y, z).Ok? ==> !After(x, z)
  {
    if x.StrV? && y.StrV? {
      Text.LexCompareFlip(x.s, y.s);
    }
    if x.StrV? && y.StrV? && z.StrV? && Text.LexCompare(x.s, y.s) <= 0 && Text.LexCompare(y.s, z.s) <= 0 {
      Text.LexCompareTrans(x.s, y.s, z.s);
    }
  }

  /** The properties a listed message exposes (`MailProperties`); the date as a time value. */
  datatype MailProperties = MailProperties(id: int, from: string, to: seq<string>, subject: string, date: int)

  /** The `sortBy` values the request schema admits. */
  datatype SortKey = Id | From | To | Subject | Date

  /** `a[sortBy]`. */
  function Field(m: MailProperties, key: SortKey): (v: Value)
    ensures v.NumV? <==> key == Id
    ensures v.StrV? <==> key == From || key == Subject
    ensures v.ListV? <==> key == To
    ensures v.DateV? <==> key == Date
  {
    match key
    case Id => NumV(m.id)
    case From => StrV(m.from)
    case To => ListV(m.to)
    case Subject => StrV(m.subject)
    case Date => DateV(m.date)
  }

  /** Two messages compared on one key: the comparator throws only for `to`, always with "Incompatible type". */
  lemma FieldCompare(m: MailProperties, n: MailProperties, key: SortKey)
    ensures Compare(Field(m, key), Field(n, key)).Err? <==> key == To
    ensures key == To ==> Compare(Field(m, key), Field(n, key)) == Err(IncompatibleType)
  {
  }

  /** `m` sorts strictly after `n` on `key`. */
  predicate Greater(m: MailProperties, n: MailProperties, key: SortKey)
  {
    After(Field(m, key), Field(n, key))
  }

  /** No element sorts strictly after a later one. */
  ghost predicate SortedBy(s: seq<MailProperties>, key: SortKey)
  {
    forall i, j :: 0 <= i < j < |s| ==> !Greater(s[i], s[j], key)
  }

  /**
   * Places `x` after every trailing element that does not sort after it, scanning
   * from the end: the step of a stable insertion sort.
   */
  function Insert(s: seq<MailProperties>, x: MailProperties, key: SortKey): (r: seq<MailProperties>)
    ensures |r| == |s| + 1
  {
    if s == [] then [x]
    else if Greater(s[|s| - 1], x, key) then Insert(s[..|s| - 1], x, key) + [s[|s| - 1]]
    else s + [x]
  }

  /**
   * The list `Array.prototype.sort` produces with `sortMails` as comparator. That sort
   * is stable, and every stable sort gives the same result for a consistent comparator,
   * so the stable insertion sort is taken as its definition.
   */
  function SortBy(s: seq<MailProperties>, key: SortKey): (r: seq<MailProperties>)
    ensures |r| == |s|
  {
    if s == [] then [] else Insert(SortBy(s[..|s| - 1], key), s[|s| - 1], key)
  }

  lemma {:induction false} InsertPermutes(s: seq<MailProperties>, x: MailProperties, key: SortKey)
    ensures multiset(Insert(s, x, key)) == multiset(s) + multiset{x}
  {
    if s != [] && Greater(s[|s| - 1], x, key) {
      InsertPermutes(s[..|s| - 1], x, key);
      assert s == s[..|s| - 1] + [s[|s| - 1]];
    }
  }

  /** The sorted list is a permutation of the input. */
  lemma {:induction false} SortPermutes(s: seq<MailProperties>, key: SortKey)
    ensures multiset(SortBy(s, key)) == multiset(s)
  {
    if s != [] {
      SortPermutes(s[..|s| - 1], key);
      InsertPermutes(SortBy(s[..|s| - 1], key), s[|s| - 1], key);
      assert s == s[..|s| - 1] + [s[|s| - 1]];
    }
  }

  /** Inserting into a sorted list keeps it sorted. */
  lemma {:induction false} InsertSorted(s: seq<MailProperties>, x: MailProperties, key: SortKey)
    requires SortedBy(s, key)
    ensures SortedBy(Insert(s, x, key), key)
    ensures multiset(Insert(s, x, key)) == multiset(s) + multiset{x}
  {
    InsertPermutes(s, x, key);
    if s == [] {
    } else if Greater(s[|s| - 1], x, key) {
      InsertSorted(s[..|s| - 1], x, key);
      InsertBeforeLast(s, x, key);
    } else {
      InsertAfterLast(s, x, key);
    }
  }

  /** `x` goes before the last element, which sorts after it: the last element stays on top. */
  lemma InsertBeforeLast(s: seq<MailProperties>, x: MailProperties, key: SortKey)
    requires SortedBy(s, key) && s != [] && Greater(s[|s| - 1], x, key)
    requires SortedBy(Insert(s[..|s| - 1], x, key), key)
    requires multiset(Insert(s[..|s| - 1], x, key)) == multiset(s[..|s| - 1]) + multiset{x}
    ensures SortedBy(Insert(s, x, key), key)
  {
    var front := s[..|s| - 1];
    var last := s[|s| - 1];
    var t := Insert(front, x, key);
    // Every element of t is x or an element of front, and none sorts after last.
    forall i | 0 <= i < |t| ensures !Greater(t[i], last, key) {
      assert t[i] in multiset(t);
      if t[i] == x {
        AfterOrder(Field(last, key), Field(x, key), Field(x, key));
      } else {
        assert t[i] in multiset(front);
        var k :| 0 <= k < |front| && front[k] == t[i];
        assert s[k] == front[k];
      }
    }
    assert Insert(s, x, key) == t + [last];
  }

  /** `x` goes last when the last element does not sort after it: then no element does. */
  lemma InsertAfterLast(s: seq<MailProperties>, x: MailProperties, key: SortKey)
    requires SortedBy(s, key) && s != [] && !Greater(s[|s| - 1], x, key)
    ensures SortedBy(Insert(s, x, key), key)
  {
    var last := s[|s| - 1];
    forall i | 0 <= i < |s| ensures !Greater(s[i], x, key) {
      if i < |s| - 1 {
        FieldCompare(s[i], last, key);
        FieldCompare(last, x, key);
        AfterOrder(Field(s[i], key), Field(last, key), Field(x, key));
      }
    }
  }

  /** `y` and `x` tie on `key`: neither sorts after the other. */
  predicate Tie(y: MailProperties, x: MailProperties, key: SortKey)
  {
    !Greater(y, x, key) && !Greater(x, y, key)
  }

  /** The elements of `s` that tie with `x`, in their order in `s`. */
  function Ties(s: seq<MailProperties>, x: MailProperties, key: SortKey): (r: seq<MailProperties>)
    ensures |r| <= |s|
    ensures forall e :: e in r ==> e in s
  {
    if s == [] then []
    else Ties(s[..|s| - 1], x, key) + (if Tie(s[|s| - 1], x, key) then [s[|s| - 1]] else [])
  }

  /** Two elements that tie with a third tie with each other, so neither sorts after the other. */
  lemma TieTrans(y: MailProperties, z: MailProperties, x: MailProperties, key: SortKey)
    requires Tie(y, x, key) && Tie(z, x, key)
    ensures !Greater(y, z, key)
  {
    FieldCompare(y, x, key);
    FieldCompare(x, z, key);
    AfterOrder(Field(y, key), Field(x, key), Field(z, key));
  }

  /** Appending one element appends it to the ties, if it ties. */
  lemma TiesSnoc(u: seq<MailProperties>, e: MailProperties, x: MailProperties, key: SortKey)
    ensures Ties(u + [e], x, key) == Ties(u, x, key) + (if Tie(e, x, key) then [e] else [])
  {
    assert (u + [e])[..|u|] == u;
  }

  /** Inserting `y` adds it at the end of the elements tying with `x`, if it ties, and keeps their order. */
  lemma {:induction false} InsertTies(t: seq<MailProperties>, y: MailProperties, x: MailProperties, key: SortKey)
    ensures Ties(Insert(t, y, key), x, key) == Ties(t, x, key) + (if Tie(y, x, key) then [y] else [])
  {
    if t == [] {
      TiesSnoc([], y, x, key);
    } else if Greater(t[|t| - 1], y, key) {
      InsertTies(t[..|t| - 1], y, x, key);
      InsertTiesPast(t[..|t| - 1], t[|t| - 1], y, x, key);
      assert t[..|t| - 1] + [t[|t| - 1]] == t;
    } else {
      TiesSnoc(t, y, x, key);
    }
  }

  /** The step of `InsertTies` where `y` passes the last element: both cannot tie with `x`. */
  lemma InsertTiesPast(front: seq<MailProperties>, last: MailProperties, y: MailProperties, x: MailProperties, key: SortKey)
    requires Greater(last, y, key)
    requires Ties(Insert(front, y, key), x, key) == Ties(front, x, key) + (if Tie(y, x, key) then [y] else [])
    ensures Ties(Insert(front + [last], y, key), x, key)
            == Ties(front + [last], x, key) + (if Tie(y, x, key) then [y] else [])
  {
    assert (front + [last])[..|front|] == front;
    var u := Insert(front, y, key);
    assert Insert(front + [last], y, key) == u + [last];
    TiesSnoc(u, last, x, key);
    TiesSnoc(front, last, x, key);
    if Tie(y, x, key) {
      if Tie(last, x, key) {
        TieTrans(last, y, x, key);
      }
      assert Ties(u + [last], x, key) == Ties(u, x, key) == Ties(front, x, key) + [y];
      assert Ties(front + [last], x, key) == Ties(front, x, key);
    } else {
      assert Ties(u, x, key) == Ties(front, x, key);
    }
  }

  /**
   * The sort is stable: the elements that tie with any `x` come out in the order they
   * went in, so equal keys keep the server's order.
   */
  lemma {:induction false} SortStable(s: seq<MailProperties>, x: MailProperties, key: SortKey)
    ensures Ties(SortBy(s, key), x, key) == Ties(s, x, key)
  {
    if s != [] {
      SortStable(s[..|s| - 1], x, key);
      InsertTies(SortBy(s[..|s| - 1], key), s[|s| - 1], x, key);
    }
  }

  /** The sorted list is in ascending order: no message sorts after one placed later. */
  lemma {:induction false} SortSorts(s: seq<MailProperties>, key: SortKey)
    ensures SortedBy(SortBy(s, key), key)
  {
    if s != [] {
      SortSorts(s[..|s| - 1], key);
      InsertSorted(SortBy(s[..|s| - 1], key), s[|s| - 1], key);
    }
  }

  /** Sorting a list that is already in order leaves it unchanged: ties keep their order. */
  lemma {:induction false} SortKeepsSorted(s: seq<MailProperties>, key: SortKey)
    requires SortedBy(s, key)
    ensures SortBy(s, key) == s
  {
    if s != [] {
      var front := s[..|s| - 1];
      assert SortedBy(front, key);
      SortKeepsSorted(front, key);
      if |front| > 0 {
        assert !Greater(front[|front| - 1], s[|s| - 1], key);
      }
      assert front + [s[|s| - 1]] == s;
    }
  }

  /** `xs.reverse()` as a value. */
  function Reversed(s: seq<MailProperties>): (r: seq<MailProperties>)
    ensures |r| == |s|
  {
    if s == [] then [] else [s[|s| - 1]] + Reversed(s[..|s| - 1])
  }

  /** The reversed list holds the k-th element from the end at position k. */
  lemma {:induction false} ReversedIndex(s: seq<MailProperties>, k: nat)
    requires k < |s|
    ensures |Reversed(s)| == |s|
    ensures Reversed(s)[k] == s[|s| - 1 - k]
  {
    if k > 0 {
      ReversedIndex(s[..|s| - 1], k - 1);
    } else if |s| > 1 {
      ReversedIndex(s[..|s| - 1], 0);
    }
  }

  /** A list holding the k-th element from the end at every position k is the reversal. */
  lemma ReversedOf(s: seq<MailProperties>, t: seq<MailProperties>)
    requires |t| == |s|
    requires forall k :: 0 <= k < |s| ==> t[k] == s[|s| - 1 - k]
    ensures t == Reversed(s)
  {
    forall k | 0 <= k < |s| ensures t[k] == Reversed(s)[k] {
      ReversedIndex(s, k);
    }
  }

  /** The reversed list is a permutation of the input, and reversing twice restores the input. */
  lemma ReversedInvolution(s: seq<MailProperties>)
    ensures multiset(Reversed(s)) == multiset(s)
    ensures Reversed(Reversed(s)) == s
  {
    var r := Reversed(s);
    forall k | 0 <= k < |s| ensures |r| == |s| && r[k] == s[|s| - 1 - k] {
      ReversedIndex(s, k);
    }
    if s == [] {
    } else {
      forall k | 0 <= k < |s| ensures Reversed(r)[k] == s[k] {
        ReversedIndex(r, k);
      }
      assert Reversed(r) == s;
      ReversedMultiset(s);
    }
  }

  lemma {:induction false} ReversedMultiset(s: seq<MailProperties>)
    ensures multiset(Reversed(s)) == multiset(s)
  {
    if s != [] {
      ReversedMultiset(s[..|s| - 1]);
      assert s == s[..|s| - 1] + [s[|s| - 1]];
    }
  }

  /** Descending order: after reversal no message sorts after an earlier one. */
  lemma ReversedIsDescending(s: seq<MailProperties>, key: SortKey)
    requires SortedBy(s, key)
    ensures forall i, j :: 0 <= i < j < |s| ==> !Greater(Reversed(s)[j], Reversed(s)[i], key)
  {
    forall i, j | 0 <= i < j < |s| ensures !Greater(Reversed(s)[j], Reversed(s)[i], key) {
      ReversedIndex(s, i);
      ReversedIndex(s, j);
    }
  }

  /** `perPage` once the request is read: a positive count, or `Infinity` for the sentinel. */
  datatype PerPage = Count(n: nat) | Infinity

  /**
   * `xs.slice(start, end)` for non-negative bounds: both are clipped to the length,
   * and an empty window yields [].
   */
  function Slice(s: seq<MailProperties>, start: nat, end: nat): (r: seq<MailProperties>)
    ensures |r| <= if end <= start then 0 else end - start
  {
    var e := if end < |s| then end else |s|;
    if start >= e then [] else s[start..e]
  }

  /** The smaller of two numbers. */
  function Min(a: nat, b: nat): nat
  {
    if a < b then a else b
  }

  /**
   * The pagination block: when the page size exceeds the list (always, for the
   * sentinel), page 1 is the whole list and any later page is empty; otherwise the
   * window `[(page-1)*perPage, page*perPage)` of the list.
   */
  function Paginate(sorted: seq<MailProperties>, page: nat, perPage: PerPage): (r: seq<MailProperties>)
    requires page >= 1
    requires perPage.Count? ==> perPage.n >= 1
    ensures perPage.Count? ==> |r| <= perPage.n
  {
    if perPage.Infinity? || perPage.n > |sorted| then
      if page > 1 then [] else sorted
    else
      Slice(sorted, (page - 1) * perPage.n, page * perPage.n)
  }

  /**
   * Both branches of the block agree with one formula: page `page` is the part of the
   * list between positions `(page-1)*n` and `page*n`, each clipped to the length.
   */
  lemma PageWindow(s: seq<MailProperties>, page: nat, n: nat)
    requires page >= 1 && n >= 1
    ensures Min((page - 1) * n, |s|) <= Min(page * n, |s|)
    ensures Paginate(s, page, Count(n)) == s[Min((page - 1) * n, |s|)..Min(page * n, |s|)]
  {
    if n > |s| && page > 1 {
      assert (page - 1) * n >= n;
    }
  }

  /** Pages 1..k, concatenated. */
  function Pages(s: seq<MailProperties>, n: nat, k: nat): seq<MailProperties>
    requires n >= 1
  {
    if k == 0 then [] else Pages(s, n, k - 1) + Paginate(s, k, Count(n))
  }

  /** Consecutive pages do not overlap and leave no gap: pages 1..k are the first k*n messages. */
  lemma {:induction false} PagesArePrefix(s: seq<MailProperties>, n: nat, k: nat)
    requires n >= 1
    ensures Pages(s, n, k) == s[..Min(k * n, |s|)]
  {
    if k > 0 {
      PagesArePrefix(s, n, k - 1);
      PageWindow(s, k, n);
      assert (k - 1) * n + n == k * n;
      var a := Min((k - 1) * n, |s|);
      var b := Min(k * n, |s|);
      assert s[..a] + s[a..b] == s[..b];
    }
  }

  /** Enough pages cover the whole list. */
  lemma PagesCoverAll(s: seq<MailProperties>, n: nat, k: nat)
    requires n >= 1 && k * n >= |s|
    ensures Pages(s, n, k) == s
  {
    PagesArePrefix(s, n, k);
  }

  /** The sentinel: page 1 is the whole list, every later page is empty. */
  lemma UnboundedPages(s: seq<MailProperties>, page: nat)
    requires page >= 1
    ensures Paginate(s, page, Infinity) == if page == 1 then s else []
  {
  }

  /** Twenty-five messages, ten per page: pages of 10, 10 and 5, then nothing. */
  lemma TwentyFiveByTen(s: seq<MailProperties>)
    requires |s| == 25
    ensures Paginate(s, 1, Count(10)) == s[..10]
    ensures Paginate(s, 3, Count(10)) == s[20..]
    ensures Paginate(s, 4, Count(10)) == []
  {
  }

  /** The listing query once parsed; absent members are the request's missing parameters. */
  datatype Direction = Asc | Desc
  datatype Query = Query(sort: Option<Direction>, sortBy: Option<SortKey>, page: Option<nat>, perPage: Option<PerPage>)

  /** The request schema: `page >= 1`, `perPage >= 1` or the sentinel. */
  predicate ValidQuery(q: Query)
  {
    (q.page.Some? ==> q.page.value >= 1) && (q.perPage.Some? && q.perPage.value.Count? ==> q.perPage.value.n >= 1)
  }

  /** `sortBy ?? 'id'`. */
  function KeyOf(q: Query): (key: SortKey)
    ensures q.sortBy.None? ==> key == Id
    ensures q.sortBy.Some? ==> key == q.sortBy.value
  {
    if q.sortBy.Some? then q.sortBy.value else Id
  }

  /** `page ?? 1`. */
  function PageOf(q: Query): (r: nat)
    requires ValidQuery(q)
    ensures r >= 1
    ensures q.page.None? ==> r == 1
    ensures q.page.Some? ==> r == q.page.value
  {
    if q.page.Some? then q.page.value else 1
  }

  /** `perPage ?? 10`, with the sentinel read as `Infinity`. */
  function PerPageOf(q: Query): (r: PerPage)
    requires ValidQuery(q)
    ensures r.Count? ==> r.n >= 1
    ensures q.perPage.None? ==> r == Count(10)
    ensures q.perPage.Some? ==> r == q.perPage.value
  {
    if q.perPage.Some? then q.perPage.value else Count(10)
  }

  /** The messages in listing order: ascending on the key, reversed for `sort=desc`. */
  function Ordered(s: seq<MailProperties>, q: Query): (r: seq<MailProperties>)
    ensures |r| == |s|
  {
    var sorted := SortBy(s, KeyOf(q));
    if q.sort == Some(Desc) then Reversed(sorted) else sorted
  }

  /** The listing order is a permutation of the candidates, ascending or descending as asked. */
  lemma OrderedPermutes(s: seq<MailProperties>, q: Query)
    ensures multiset(Ordered(s, q)) == multiset(s)
    ensures q.sort != Some(Desc) ==> SortedBy(Ordered(s, q), KeyOf(q))
    ensures q.sort == Some(Desc) ==> Reversed(Ordered(s, q)) == SortBy(s, KeyOf(q))
  {
    var key := KeyOf(q);
    SortPermutes(s, key);
    SortSorts(s, key);
    ReversedInvolution(SortBy(s, key));
  }

  /**
   * Where `Insert` puts `x`: right after the last element that does not sort after it,
   * when every later element does.
   */
  lemma {:induction false} InsertLandsAt(s: seq<MailProperties>, j: nat, x: MailProperties, key: SortKey)
    requires j <= |s|
    requires forall k :: j <= k < |s| ==> Greater(s[k], x, key)
    requires j > 0 ==> !Greater(s[j - 1], x, key)
    ensures Insert(s, x, key) == s[..j] + [x] + s[j..]
    decreases |s|
  {
    if |s| > j {
      var front := s[..|s| - 1];
      InsertLandsAt(front, j, x, key);
      assert front[..j] == s[..j];
      assert front[j..] + [s[|s| - 1]] == s[j..];
    } else {
      assert s[..j] == s;
    }
  }

  /**
   * A list that agrees with `s` before `j`, holds `x` at `j`, `s` shifted one place up to
   * `|s|` and `rest` after that is `s` with `x` spliced in at `j`, followed by `rest`.
   */
  lemma SplicedAt(t: seq<MailProperties>, s: seq<MailProperties>, j: nat, x: MailProperties, rest: seq<MailProperties>)
    requires j <= |s| && |t| == |s| + 1 + |rest|
    requires forall k :: 0 <= k < j ==> t[k] == s[k]
    requires t[j] == x
    requires forall k :: j < k <= |s| ==> t[k] == s[k - 1]
    requires forall k :: |s| < k < |t| ==> t[k] == rest[k - |s| - 1]
    ensures t == s[..j] + [x] + s[j..] + rest
  {
  }

  /** One more element that sorts after `x` joins the part that `Insert` passes over. */
  lemma InsertPassesOver(s: seq<MailProperties>, j: nat, x: MailProperties, key: SortKey)
    requires 0 < j <= |s| && Greater(s[j - 1], x, key)
    ensures Insert(s[..j], x, key) + s[j..] == Insert(s[..j - 1], x, key) + s[j - 1..]
  {
    assert s[..j][..j - 1] == s[..j - 1];
    assert s[j - 1..] == [s[j - 1]] + s[j..];
  }

  /** `Insert` stops, appending `x`, at the first element from the end that does not sort after it. */
  lemma InsertStops(s: seq<MailProperties>, j: nat, x: MailProperties, key: SortKey)
    requires j <= |s| && (j > 0 ==> !Greater(s[j - 1], x, key))
    ensures Insert(s[..j], x, key) == s[..j] + [x]
  {
    if j > 0 {
      assert s[..j][..j - 1] + [s[..j][j - 1]] == s[..j];
    }
  }

  /**
   * The scan of one insertion step: from position `i` leftwards, past every element that
   * sorts after `x`, to the place `Insert` gives `x` among `a[..i]`. False when the
   * comparator throws.
   */
  method FindSlot(a: array<MailProperties>, i: nat, x: MailProperties, key: SortKey) returns (j: nat, ok: bool)
    requires i <= a.Length
    ensures ok <==> !(key == To && i >= 1)
    ensures ok ==> j <= i && Insert(a[..i], x, key) == a[..i][..j] + [x] + a[..i][j..]
  {
    ghost var s := a[..i];
    j := i;
    assert s[..j] == s && s[j..] == [];
    while j > 0
      invariant j <= i == |s|
      invariant Insert(s, x, key) == Insert(s[..j], x, key) + s[j..]
      invariant key == To ==> j == i
    {
      var c := Compare(Field(a[j - 1], key), Field(x, key));
      FieldCompare(a[j - 1], x, key);
      if c.Err? {
        return j, false;
      }
      assert a[j - 1] == s[j - 1];
      if c.value <= 0 {
        InsertStops(s, j, x, key);
        return j, true;
      }
      InsertPassesOver(s, j, x, key);
      j := j - 1;
    }
    InsertStops(s, 0, x, key);
    return j, !(key == To && i >= 1);
  }

  /**
   * One step of the in-place insertion sort: `a[..i]` is sorted, and `a[i]` moves left
   * past every element that sorts after it, those moving one place right. False, with
   * `a` untouched, when the comparator throws.
   */
  method InsertAt(a: array<MailProperties>, i: nat, key: SortKey) returns (ok: bool)
    requires i < a.Length
    modifies a
    ensures ok <==> !(key == To && i >= 1)
    ensures ok ==> a[..] == Insert(old(a[..])[..i], old(a[..])[i], key) + old(a[..])[i + 1..]
    ensures !ok ==> a[..] == old(a[..])
  {
    ghost var sorted := a[..][..i];
    ghost var rest := a[..][i + 1..];
    var x := a[i];
    var j;
    j, ok := FindSlot(a, i, x, key);
    if !ok {
      return;
    }
    forall k | j < k <= i {
      a[k] := a[k - 1];
    }
    a[j] := x;
    SplicedAt(a[..], sorted, j, x, rest);
  }

  /**
   * With the first `i` elements of `s` sorted in place, inserting the next one in place
   * leaves the first `i + 1` sorted and the rest as they were.
   */
  lemma SortStep(s: seq<MailProperties>, i: nat, key: SortKey)
    requires i < |s|
    ensures var t := SortBy(s[..i], key) + s[i..];
            Insert(t[..i], t[i], key) + t[i + 1..] == SortBy(s[..i + 1], key) + s[i + 1..]
    ensures i <= 1 ==> SortBy(s[..i], key) + s[i..] == s
  {
    var t := SortBy(s[..i], key) + s[i..];
    assert t[..i] == SortBy(s[..i], key) && t[i] == s[i] && t[i + 1..] == s[i + 1..];
    assert s[..i + 1][..i] == s[..i];
    if i == 0 {
      assert s[..0] == [] && s[0..] == s;
    } else if i == 1 {
      assert SortBy(s[..1], key) == [s[0]];
      assert [s[0]] + s[1..] == s;
    }
  }

  /**
   * One round of the in-place sort: with the first `i` elements of `s` sorted in `a` and the
   * rest as in `s`, the first `i + 1` end up sorted. False, with `a` untouched, when the
   * comparator throws.
   */
  method SortNext(a: array<MailProperties>, ghost s: seq<MailProperties>, i: nat, key: SortKey) returns (ok: bool)
    requires i < a.Length == |s|
    requires a[..] == SortBy(s[..i], key) + s[i..]
    requires key == To ==> i <= 1
    modifies a
    ensures ok <==> !(key == To && i >= 1)
    ensures ok ==> a[..] == SortBy(s[..i + 1], key) + s[i + 1..]
    ensures !ok ==> a[..] == s
  {
    SortStep(s, i, key);
    ok := InsertAt(a, i, key);
  }

  /** Once every element has been inserted, the sorted prefix is the sort of the whole list. */
  lemma SortedWhole(s: seq<MailProperties>, key: SortKey)
    ensures SortBy(s[..|s|], key) + s[|s|..] == SortBy(s, key)
  {
    assert s[..|s|] == s;
  }

  /** Sorts `a` in place, stably, with `sortMails` on `key`; false when the comparator throws. */
  method SortInPlace(a: array<MailProperties>, key: SortKey) returns (ok: bool)
    modifies a
    ensures ok <==> !(key == To && a.Length >= 2)
    ensures ok ==> a[..] == SortBy(old(a[..]), key)
    ensures !ok ==> a[..] == old(a[..])
  {
    ghost var s := a[..];
    var i := 0;
    while i < a.Length
      invariant 0 <= i <= a.Length == |s|
      invariant a[..] == SortBy(s[..i], key) + s[i..]
      invariant key == To ==> i <= 1
    {
      ok := SortNext(a, s, i, key);
      if !ok {
        return;
      }
      i := i + 1;
    }
    SortedWhole(s, key);
    return true;
  }

  /** The swaps of `reverse`: the ends of `a` are exchanged, moving inwards. */
  method SwapEnds(a: array<MailProperties>)
    modifies a
    ensures forall k :: 0 <= k < a.Length ==> a[k] == old(a[a.Length - 1 - k])
  {
    var n := a.Length;
    var i := 0;
    while i < n - 1 - i
      invariant 0 <= i <= n - i
      invariant forall k :: 0 <= k < i ==> a[k] == old(a[n - 1 - k])
      invariant forall k :: n - i <= k < n ==> a[k] == old(a[n - 1 - k])
      invariant forall k :: i <= k < n - i ==> a[k] == old(a[k])
    {
      a[i], a[n - 1 - i] := a[n - 1 - i], a[i];
      i := i + 1;
    }
  }

  /** `reverse` on the array: reverses `a` in place. */
  method ReverseInPlace(a: array<MailProperties>)
    modifies a
    ensures a[..] == Reversed(old(a[..]))
  {
    SwapEnds(a);
    ReversedOf(old(a[..]), a[..]);
  }

  /**
   * The handler's steps after filtering: sort the candidates in place on `sortBy`
   * (default `id`), reverse them for `sort=desc`, and cut out the requested page.
   * Sorting on `to` throws "Incompatible type" as soon as two messages are compared.
   */
  method ListMails(candidates: seq<MailProperties>, q: Query) returns (r: Result<seq<MailProperties>>)
    requires ValidQuery(q)
    ensures r.Err? <==> KeyOf(q) == To && |candidates| >= 2
    ensures r.Err? ==> r.message == IncompatibleType
    ensures r.Ok? ==> r.value == Paginate(Ordered(candidates, q), PageOf(q), PerPageOf(q))
  {
    var a := new MailProperties[|candidates|](k requires 0 <= k < |candidates| => candidates[k]);
    assert a[..] == candidates;
    var key := KeyOf(q);
    var ok := SortInPlace(a, key);
    if !ok {
      return Err(IncompatibleType);
    }
    if q.sort == Some(Desc) {
      ReverseInPlace(a);
    }
    var page := PageOf(q);
    var perPage := PerPageOf(q);
    var sorted := a[..];
    r := Ok(Paginate(sorted, page, perPage));
  }
}
