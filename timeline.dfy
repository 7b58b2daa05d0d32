/**
 * The clock and calendar the screens reach through `Date`, left abstract, and
 * `Array.prototype.sort` with the comparator `(a, b) => new Date(b.time) - new Date(a.time)`.
 */
module Timeline {
  import opened Wrappers
  import opened Text
  import opened Seqs

  /**
   * What `Date` answers. `parse` gives the time value in milliseconds of
   * `new Date(s)`, `None` when that is NaN (an Invalid Date). The others are
   * defined for valid time values only: `iso` is `toISOString()`, `dateString`
   * is the local `toDateString()`, `dayStart`/`dayEnd` are the results of
   * `setHours(0, 0, 0, 0)` and `setHours(23, 59, 59, 999)` in local time, and
   * `localeDate` is `toLocaleDateString('en-US', …)`.
   */
  datatype Calendar = Calendar(
    parse: string -> Option<int>,
    iso: int -> string,
    dateString: int -> string,
    dayStart: int -> int,
    dayEnd: int -> int,
    localeDate: int -> string)

  /** `date.toISOString().split('T')[0]`: the UTC calendar date. */
  function UtcDay(cal: Calendar, ms: int): string
  {
    Split(cal.iso(ms), 'T')[0]
  }

  /** `toISOString()` always starts with the year: a digit, or the sign of an expanded year. */
  ghost predicate IsoShaped(cal: Calendar)
  {
    forall ms :: |cal.iso(ms)| > 0 && (IsDigit(cal.iso(ms)[0]) || cal.iso(ms)[0] == '+' || cal.iso(ms)[0] == '-')
  }

  /** `toDateString()` of a valid date is never the text an Invalid Date prints. */
  ghost predicate DateStringShaped(cal: Calendar)
  {
    forall ms :: cal.dateString(ms) != "Invalid Date"
  }

  /** Local midnight is a fixed point of `setHours(0, 0, 0, 0)` and lies on the same day. */
  ghost predicate DayLaws(cal: Calendar)
  {
    forall ms :: cal.dayStart(cal.dayStart(ms)) == cal.dayStart(ms) && cal.dayEnd(cal.dayStart(ms)) == cal.dayEnd(ms)
  }

  /** A UTC date string is never "Invalid Date": it is empty or starts like the ISO string. */
  lemma UtcDayIsNotInvalid(cal: Calendar, ms: int)
    requires IsoShaped(cal)
    ensures UtcDay(cal, ms) != "Invalid Date"
  {
    var s := cal.iso(ms);
    SplitFirstIsPrefix(s, 'T');
    var d := UtcDay(cal, ms);
    if d != [] {
      assert d[0] == s[0];
    }
  }

  /** The UTC date is the ISO string up to its first `T`, which it does not contain. */
  lemma UtcDayShape(cal: Calendar, ms: int)
    ensures IsPrefix(UtcDay(cal, ms), cal.iso(ms))
    ensures UtcDay(cal, ms) == cal.iso(ms)
      || (|UtcDay(cal, ms)| < |cal.iso(ms)| && cal.iso(ms)[|UtcDay(cal, ms)|] == 'T')
    ensures forall j :: 0 <= j < |UtcDay(cal, ms)| ==> UtcDay(cal, ms)[j] != 'T'
    ensures IsoShaped(cal) ==> UtcDay(cal, ms) != "Invalid Date"
  {
    SplitFirstIsPrefix(cal.iso(ms), 'T');
    SplitPartsFree(cal.iso(ms), 'T');
    SplitFirstStops(cal.iso(ms), 'T');
    if IsoShaped(cal) {
      UtcDayIsNotInvalid(cal, ms);
    }
  }

  /** The comparator puts `a` before `b`: both parse and `a` is strictly more recent. NaN never reorders. */
  predicate Before<T>(key: T -> Option<int>, a: T, b: T)
  {
    key(a).Some? && key(b).Some? && key(a).value > key(b).value
  }

  function Insert<T>(key: T -> Option<int>, x: T, r: seq<T>): seq<T>
    decreases |r|
  {
    if r == [] then [x]
    else if Before(key, r[0], x) then [r[0]] + Insert(key, x, r[1..])
    else [x] + r
  }

  /**
   * `sort` with the most-recent-first comparator, as a stable insertion sort.
   * Where a time value is NaN the comparator returns NaN and the order is up to
   * the engine; this model keeps such elements where insertion leaves them.
   */
  function SortDesc<T>(key: T -> Option<int>, s: seq<T>): (res: seq<T>)
    ensures |res| == |s|
    decreases |s|
  {
    if s == [] then []
    else
      var rest := SortDesc(key, s[1..]);
      InsertLength(key, s[0], rest);
      Insert(key, s[0], rest)
  }

  lemma {:induction false} InsertLength<T>(key: T -> Option<int>, x: T, r: seq<T>)
    ensures |Insert(key, x, r)| == |r| + 1
    decreases |r|
  {
    if r != [] && Before(key, r[0], x) {
      InsertLength(key, x, r[1..]);
    }
  }

  predicate AllTimed<T>(key: T -> Option<int>, s: seq<T>)
  {
    forall i :: 0 <= i < |s| ==> key(s[i]).Some?
  }

  /** No element is strictly more recent than one before it. */
  predicate MostRecentFirst<T>(key: T -> Option<int>, s: seq<T>)
  {
    forall i, j :: 0 <= i < j < |s| ==> !Before(key, s[j], s[i])
  }

  /** The elements with time value exactly `k`, in order. */
  function WithKey<T>(key: T -> Option<int>, s: seq<T>, k: int): seq<T>
    decreases |s|
  {
    if s == [] then [] else (if key(s[0]) == Some(k) then [s[0]] else []) + WithKey(key, s[1..], k)
  }

  lemma {:induction false} InsertMultiset<T>(key: T -> Option<int>, x: T, r: seq<T>)
    ensures multiset(Insert(key, x, r)) == multiset(r) + multiset{x}
    decreases |r|
  {
    if r != [] && Before(key, r[0], x) {
      InsertMultiset(key, x, r[1..]);
      assert r == [r[0]] + r[1..];
    }
  }

  /** Sorting only reorders: the result is a permutation of the input. */
  lemma {:induction false} SortPermutes<T>(key: T -> Option<int>, s: seq<T>)
    ensures multiset(SortDesc(key, s)) == multiset(s)
    ensures |SortDesc(key, s)| == |s|
    decreases |s|
  {
    if s != [] {
      SortPermutes(key, s[1..]);
      InsertMultiset(key, s[0], SortDesc(key, s[1..]));
      assert s == [s[0]] + s[1..];
    }
    assert |multiset(SortDesc(key, s))| == |multiset(s)|;
  }

  /** Sorting keeps exactly the same elements. */
  lemma SortMembers<T>(key: T -> Option<int>, s: seq<T>)
    ensures forall x :: x in SortDesc(key, s) <==> x in s
  {
    SortPermutes(key, s);
    forall x ensures x in SortDesc(key, s) <==> x in s {
      assert x in SortDesc(key, s) <==> x in multiset(SortDesc(key, s));
      assert x in s <==> x in multiset(s);
    }
  }

  /** Inserting an element no later than `top` among elements no later than `top` keeps them all no later. */
  lemma {:induction false} InsertBelow<T>(key: T -> Option<int>, x: T, r: seq<T>, top: int)
    requires key(x).Some? && key(x).value <= top && AllTimed(key, r)
    requires forall i :: 0 <= i < |r| ==> key(r[i]).value <= top
    ensures AllTimed(key, Insert(key, x, r))
    ensures forall j :: 0 <= j < |Insert(key, x, r)| ==> key(Insert(key, x, r)[j]).value <= top
    decreases |r|
  {
    if r != [] && Before(key, r[0], x) {
      InsertBelow(key, x, r[1..], top);
      var t := Insert(key, x, r[1..]);
      assert Insert(key, x, r) == [r[0]] + t;
      forall j | 0 <= j < |[r[0]] + t| ensures key(([r[0]] + t)[j]).Some? {
        if j > 0 {
          assert ([r[0]] + t)[j] == t[j - 1];
        }
      }
    }
  }

  lemma {:induction false} InsertSorted<T>(key: T -> Option<int>, x: T, r: seq<T>)
    requires key(x).Some? && AllTimed(key, r) && MostRecentFirst(key, r)
    ensures AllTimed(key, Insert(key, x, r)) && MostRecentFirst(key, Insert(key, x, r))
    decreases |r|
  {
    if r != [] && Before(key, r[0], x) {
      var rest := r[1..];
      assert MostRecentFirst(key, rest) by {
        forall i, j | 0 <= i < j < |rest| ensures !Before(key, rest[j], rest[i]) {
          assert rest[i] == r[i + 1] && rest[j] == r[j + 1];
        }
      }
      InsertSorted(key, x, rest);
      var top := key(r[0]).value;
      assert forall i :: 0 <= i < |rest| ==> key(rest[i]).value <= top by {
        forall i | 0 <= i < |rest| ensures key(rest[i]).value <= top {
          assert rest[i] == r[i + 1];
          assert !Before(key, r[i + 1], r[0]);
        }
      }
      InsertBelow(key, x, rest, top);
    }
  }

  /** On parseable times the result is ordered most recent first. */
  lemma {:induction false} SortSorted<T>(key: T -> Option<int>, s: seq<T>)
    requires AllTimed(key, s)
    ensures AllTimed(key, SortDesc(key, s)) && MostRecentFirst(key, SortDesc(key, s))
    decreases |s|
  {
    if s != [] {
      SortSorted(key, s[1..]);
      InsertSorted(key, s[0], SortDesc(key, s[1..]));
    }
  }

  /** Sorting a sequence that is already in order gives it back unchanged. */
  lemma {:induction false} SortKeepsSorted<T>(key: T -> Option<int>, s: seq<T>)
    requires MostRecentFirst(key, s)
    ensures SortDesc(key, s) == s
    decreases |s|
  {
    if s != [] {
      assert MostRecentFirst(key, s[1..]) by {
        forall i, j | 0 <= i < j < |s[1..]| ensures !Before(key, s[1..][j], s[1..][i]) {
          assert s[1..][i] == s[i + 1] && s[1..][j] == s[j + 1];
        }
      }
      SortKeepsSorted(key, s[1..]);
      if |s| > 1 {
        assert !Before(key, s[1], s[0]);
      }
    }
  }

  /** Sorting twice is sorting once. */
  lemma SortIdempotent<T>(key: T -> Option<int>, s: seq<T>)
    requires AllTimed(key, s)
    ensures SortDesc(key, SortDesc(key, s)) == SortDesc(key, s)
  {
    SortSorted(key, s);
    SortKeepsSorted(key, SortDesc(key, s));
  }

  lemma {:induction false} InsertStable<T>(key: T -> Option<int>, x: T, r: seq<T>, k: int)
    ensures WithKey(key, Insert(key, x, r), k) == (if key(x) == Some(k) then [x] else []) + WithKey(key, r, k)
    decreases |r|
  {
    if r != [] && Before(key, r[0], x) {
      InsertStable(key, x, r[1..], k);
    }
  }

  /** The sort is stable: events with equal time values keep their relative input order. */
  lemma {:induction false} SortStable<T>(key: T -> Option<int>, s: seq<T>, k: int)
    ensures WithKey(key, SortDesc(key, s), k) == WithKey(key, s, k)
    decreases |s|
  {
    if s != [] {
      SortStable(key, s[1..], k);
      InsertStable(key, s[0], SortDesc(key, s[1..]), k);
    }
  }

  lemma {:induction false} InsertMap<A, B>(key: A -> Option<int>, keyB: B -> Option<int>, f: A -> B, x: A, r: seq<A>)
    requires forall a :: keyB(f(a)) == key(a)
    ensures Map(f, Insert(key, x, r)) == Insert(keyB, f(x), Map(f, r))
    decreases |r|
  {
    if r != [] {
      assert Map(f, r)[0] == f(r[0]) && Map(f, r)[1..] == Map(f, r[1..]);
      if Before(key, r[0], x) {
        InsertMap(key, keyB, f, x, r[1..]);
      }
    }
  }

  /** Transforming the elements in a way that keeps their times commutes with sorting. */
  lemma {:induction false} SortMap<A, B>(key: A -> Option<int>, keyB: B -> Option<int>, f: A -> B, s: seq<A>)
    requires forall a :: keyB(f(a)) == key(a)
    ensures Map(f, SortDesc(key, s)) == SortDesc(keyB, Map(f, s))
    decreases |s|
  {
    if s != [] {
      SortMap(key, keyB, f, s[1..]);
      InsertMap(key, keyB, f, s[0], SortDesc(key, s[1..]));
    }
  }
}
