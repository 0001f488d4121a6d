/** The order of the "next birthdays" listing, shared by both bots
    (src/components/bot/impl/component.cpp and src/bot.cpp): birthdays are
    keyed by (has its day already passed this year, month, day), so the ones
    still ahead come first in calendar order, followed by the ones already
    passed, also in calendar order. */
module NextOrder {

  /** `std::tuple(m1, d1) < std::tuple(m2, d2)`. */
  predicate Before(m1: int, d1: int, m2: int, d2: int) {
    m1 < m2 || (m1 == m2 && d1 < d2)
  }

  /** The comparator's tuple (l_year, m, d); `passed` is 1 when the month and
      day come before today's. */
  datatype Key = Key(passed: int, month: int, day: int)

  function KeyOf(m: int, d: int, todayMonth: int, todayDay: int): Key {
    Key(if Before(m, d, todayMonth, todayDay) then 1 else 0, m, d)
  }

  /** The comparator: lexicographic `<` on the key tuples. */
  predicate KeyLess(a: Key, b: Key) {
    a.passed < b.passed || (a.passed == b.passed && Before(a.month, a.day, b.month, b.day))
  }

  /** Birthdays in listing order for the day (todayMonth, todayDay); `monthDay`
      reads the month and day of an entry. */
  predicate SortedForDay<T>(s: seq<T>, monthDay: T -> (int, int), todayMonth: int, todayDay: int) {
    forall i, j :: 0 <= i < j < |s| ==>
      !KeyLess(KeyOf(monthDay(s[j]).0, monthDay(s[j]).1, todayMonth, todayDay),
               KeyOf(monthDay(s[i]).0, monthDay(s[i]).1, todayMonth, todayDay))
  }

  /** Entry x goes no later than entry y in the listing. */
  predicate InOrder<T>(x: T, y: T, monthDay: T -> (int, int), todayMonth: int, todayDay: int) {
    !KeyLess(KeyOf(monthDay(y).0, monthDay(y).1, todayMonth, todayDay),
             KeyOf(monthDay(x).0, monthDay(x).1, todayMonth, todayDay))
  }

  /** While a[i] moves down to position j, the entries a[..i+1] other than
      the one at j are in order ... */
  predicate OrderedExcept<T>(s: seq<T>, i: int, j: int, monthDay: T -> (int, int), todayMonth: int, todayDay: int)
    requires i < |s|
  {
    forall k, l :: 0 <= k < l <= i && l != j ==> InOrder(s[k], s[l], monthDay, todayMonth, todayDay)
  }

  /** ... and the moving entry must come before every entry it has passed. */
  predicate PassedAll<T>(s: seq<T>, i: int, j: int, monthDay: T -> (int, int), todayMonth: int, todayDay: int)
    requires 0 <= j <= i < |s|
  {
    forall l :: j < l <= i ==> !InOrder(s[l], s[j], monthDay, todayMonth, todayDay)
  }

  lemma SwapStep<T>(s: seq<T>, i: int, j: int, monthDay: T -> (int, int), todayMonth: int, todayDay: int)
    requires 0 < j <= i < |s|
    requires OrderedExcept(s, i, j, monthDay, todayMonth, todayDay)
    requires PassedAll(s, i, j, monthDay, todayMonth, todayDay)
    requires !InOrder(s[j - 1], s[j], monthDay, todayMonth, todayDay)
    ensures OrderedExcept(s[j - 1 := s[j]][j := s[j - 1]], i, j - 1, monthDay, todayMonth, todayDay)
    ensures PassedAll(s[j - 1 := s[j]][j := s[j - 1]], i, j - 1, monthDay, todayMonth, todayDay)
  {
  }

  lemma StopStep<T>(s: seq<T>, i: int, j: int, monthDay: T -> (int, int), todayMonth: int, todayDay: int)
    requires 0 <= j <= i < |s|
    requires OrderedExcept(s, i, j, monthDay, todayMonth, todayDay)
    requires PassedAll(s, i, j, monthDay, todayMonth, todayDay)
    requires j > 0 ==> InOrder(s[j - 1], s[j], monthDay, todayMonth, todayDay)
    ensures forall k, l :: 0 <= k < l <= i ==> InOrder(s[k], s[l], monthDay, todayMonth, todayDay)
  {
  }

  /** One step of the insertion sort: a[i] moves down past every entry of the
      sorted prefix a[..i] that must come after it. */
  method InsertLast<T>(a: array<T>, i: int, monthDay: T -> (int, int), todayMonth: int, todayDay: int)
    requires 0 <= i < a.Length
    requires forall k, l :: 0 <= k < l < i ==> InOrder(a[k], a[l], monthDay, todayMonth, todayDay)
    modifies a
    ensures forall k, l :: 0 <= k < l <= i ==> InOrder(a[k], a[l], monthDay, todayMonth, todayDay)
    ensures multiset(a[..]) == multiset(old(a[..]))
  {
    var j := i;
    while j > 0 && !InOrder(a[j - 1], a[j], monthDay, todayMonth, todayDay)
      invariant 0 <= j <= i
      invariant multiset(a[..]) == multiset(old(a[..]))
      invariant OrderedExcept(a[..], i, j, monthDay, todayMonth, todayDay)
      invariant PassedAll(a[..], i, j, monthDay, todayMonth, todayDay)
    {
      SwapStep(a[..], i, j, monthDay, todayMonth, todayDay);
      a[j - 1], a[j] := a[j], a[j - 1];
      j := j - 1;
    }
    StopStep(a[..], i, j, monthDay, todayMonth, todayDay);
  }

  /** The `std::sort` with the listing comparator, as an in-place insertion
      sort (the source's sort is not stable; nothing below depends on the
      order of entries with the same month and day). */
  method SortForDay<T>(a: array<T>, monthDay: T -> (int, int), todayMonth: int, todayDay: int)
    modifies a
    ensures SortedForDay(a[..], monthDay, todayMonth, todayDay)
    ensures multiset(a[..]) == multiset(old(a[..]))
  {
    var i := 0;
    while i < a.Length
      invariant 0 <= i <= a.Length
      invariant forall k, l :: 0 <= k < l < i ==> InOrder(a[k], a[l], monthDay, todayMonth, todayDay)
      invariant multiset(a[..]) == multiset(old(a[..]))
    {
      InsertLast(a, i, monthDay, todayMonth, todayDay);
      i := i + 1;
    }
  }

  // ---------------------------------------------------------------------
  // What the order promises

  /** A birthday falling today heads the listing. */
  lemma TodayFirst<T>(s: seq<T>, monthDay: T -> (int, int), todayMonth: int, todayDay: int, i: int)
    requires SortedForDay(s, monthDay, todayMonth, todayDay)
    requires 0 <= i < |s| && monthDay(s[i]) == (todayMonth, todayDay)
    ensures monthDay(s[0]) == (todayMonth, todayDay)
  {
    if i > 0 {
      assert !KeyLess(KeyOf(monthDay(s[i]).0, monthDay(s[i]).1, todayMonth, todayDay),
                      KeyOf(monthDay(s[0]).0, monthDay(s[0]).1, todayMonth, todayDay));
    }
  }

  /** Every birthday still ahead this year (today included) is listed before
      every birthday already passed. */
  lemma UpcomingBeforePassed<T>(s: seq<T>, monthDay: T -> (int, int), todayMonth: int, todayDay: int, i: int, j: int)
    requires SortedForDay(s, monthDay, todayMonth, todayDay)
    requires 0 <= i < |s| && 0 <= j < |s|
    requires !Before(monthDay(s[i]).0, monthDay(s[i]).1, todayMonth, todayDay)
    requires Before(monthDay(s[j]).0, monthDay(s[j]).1, todayMonth, todayDay)
    ensures i < j
  {
  }

  /** Among the birthdays on the same side of today, the listing follows the
      calendar. */
  lemma CalendarOrderWithinSide<T>(s: seq<T>, monthDay: T -> (int, int), todayMonth: int, todayDay: int, i: int, j: int)
    requires SortedForDay(s, monthDay, todayMonth, todayDay)
    requires 0 <= i < j < |s|
    requires Before(monthDay(s[i]).0, monthDay(s[i]).1, todayMonth, todayDay) ==
             Before(monthDay(s[j]).0, monthDay(s[j]).1, todayMonth, todayDay)
    ensures !Before(monthDay(s[j]).0, monthDay(s[j]).1, monthDay(s[i]).0, monthDay(s[i]).1)
  {
    assert !KeyLess(KeyOf(monthDay(s[j]).0, monthDay(s[j]).1, todayMonth, todayDay),
                    KeyOf(monthDay(s[i]).0, monthDay(s[i]).1, todayMonth, todayDay));
  }

  /** Truncating a sorted listing to its first n entries keeps n entries no
      later in the order than any entry dropped. */
  lemma KeptAreFirst<T>(s: seq<T>, monthDay: T -> (int, int), todayMonth: int, todayDay: int, n: int)
    requires SortedForDay(s, monthDay, todayMonth, todayDay)
    requires 0 <= n <= |s|
    ensures SortedForDay(s[..n], monthDay, todayMonth, todayDay)
    ensures forall x, y :: x in s[..n] && y in s[n..] ==>
              !KeyLess(KeyOf(monthDay(y).0, monthDay(y).1, todayMonth, todayDay),
                       KeyOf(monthDay(x).0, monthDay(x).1, todayMonth, todayDay))
  {
    forall x, y | x in s[..n] && y in s[n..]
      ensures !KeyLess(KeyOf(monthDay(y).0, monthDay(y).1, todayMonth, todayDay),
                       KeyOf(monthDay(x).0, monthDay(x).1, todayMonth, todayDay))
    {
      var i :| 0 <= i < n && s[..n][i] == x;
      var j :| 0 <= j < |s| - n && s[n..][j] == y;
      assert s[i] == x && s[n + j] == y;
    }
  }

  /** The first n entries of a sorted arrangement of rows are in order, come
      from rows, and none comes after an entry left out. */
  lemma TruncatedListing<T>(rows: seq<T>, sorted: seq<T>, n: int, monthDay: T -> (int, int), todayMonth: int, todayDay: int)
    requires multiset(sorted) == multiset(rows)
    requires SortedForDay(sorted, monthDay, todayMonth, todayDay)
    requires 0 <= n <= |sorted|
    ensures SortedForDay(sorted[..n], monthDay, todayMonth, todayDay)
    ensures multiset(sorted[..n]) <= multiset(rows)
    ensures forall x, y :: x in sorted[..n] && y in rows && y !in sorted[..n] ==> InOrder(x, y, monthDay, todayMonth, todayDay)
  {
    KeptAreFirst(sorted, monthDay, todayMonth, todayDay, n);
    assert sorted == sorted[..n] + sorted[n..];
    assert multiset(sorted) == multiset(sorted[..n]) + multiset(sorted[n..]);
    forall x, y | x in sorted[..n] && y in rows && y !in sorted[..n]
      ensures InOrder(x, y, monthDay, todayMonth, todayDay)
    {
      assert y in multiset(rows);
      assert y in sorted[n..];
    }
  }

  /** The `std::sort` on a copy of the fetched rows followed by `resize` to at
      most `limit` entries: the listing holds the first `limit` birthdays in
      order. */
  method SortAndTruncate<T>(rows: seq<T>, limit: nat, monthDay: T -> (int, int), todayMonth: int, todayDay: int)
    returns (shown: seq<T>)
    ensures |shown| == if |rows| < limit then |rows| else limit
    ensures SortedForDay(shown, monthDay, todayMonth, todayDay)
    ensures multiset(shown) <= multiset(rows)
    ensures forall x, y :: x in shown && y in rows && y !in shown ==> InOrder(x, y, monthDay, todayMonth, todayDay)
  {
    var list := new T[|rows|](i requires 0 <= i < |rows| => rows[i]);
    assert list[..] == rows;
    SortForDay(list, monthDay, todayMonth, todayDay);
    var n := if list.Length > limit then limit else list.Length;
    TruncatedListing(rows, list[..], n, monthDay, todayMonth, todayDay);
    shown := list[..n];
  }
}
