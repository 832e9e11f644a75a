/**
 * The list operations on the meal diary that the storage layer and the screens
 * share: meals of one day, calorie sums, the newest-first ordering, update and
 * removal by id, and grouping by date.
 */
module MealQueries {
  import opened Wrappers
  import opened Seqs
  import opened Types

  /** `meals.filter(m => m.date === day)`. */
  function OnDate(meals: seq<Meal>, day: int): seq<Meal> {
    Filter(meals, (m: Meal) => m.date == day)
  }

  /** `meals.reduce((sum, meal) => sum + meal.calories, 0)`. */
  function SumCalories(meals: seq<Meal>): real {
    if |meals| == 0 then 0.0 else SumCalories(meals[..|meals| - 1]) + meals[|meals| - 1].calories
  }

  /** The sum over two lists joined is the sum of their sums. */
  lemma {:induction false} SumCaloriesAppend(a: seq<Meal>, b: seq<Meal>)
    ensures SumCalories(a + b) == SumCalories(a) + SumCalories(b)
    decreases |b|
  {
    if |b| == 0 {
      assert a + b == a;
    } else {
      assert (a + b)[..|a + b| - 1] == a + b[..|b| - 1];
      SumCaloriesAppend(a, b[..|b| - 1]);
    }
  }

  lemma SumCaloriesCons(m: Meal, s: seq<Meal>)
    ensures SumCalories([m] + s) == m.calories + SumCalories(s)
  {
    SumCaloriesAppend([m], s);
    assert [m][..0] == [];
  }

  /** Newest first: timestamps never increase along the list. */
  predicate NewestFirst(s: seq<Meal>) {
    forall i, j :: 0 <= i < j < |s| ==> s[i].timestamp >= s[j].timestamp
  }

  /** Places `m` before the first meal that is not newer than it. */
  function InsertByTime(m: Meal, s: seq<Meal>): (r: seq<Meal>)
    requires NewestFirst(s)
    ensures NewestFirst(r)
    ensures multiset(r) == multiset(s) + multiset{m}
    ensures |r| == |s| + 1 && (r[0] == m || (|s| > 0 && r[0] == s[0]))
  {
    if |s| == 0 || s[0].timestamp <= m.timestamp then [m] + s
    else
      var rest := InsertByTime(m, s[1..]);
      assert s == [s[0]] + s[1..];
      assert s[0].timestamp >= rest[0].timestamp;
      [s[0]] + rest
  }

  /**
   * `.sort((a, b) => b.timestamp - a.timestamp)`: newest first; meals with equal
   * timestamps keep their relative order, as in a stable sort.
   */
  function SortNewestFirst(s: seq<Meal>): (r: seq<Meal>)
    ensures NewestFirst(r)
    ensures multiset(r) == multiset(s)
  {
    if |s| == 0 then []
    else
      assert s == [s[0]] + s[1..];
      InsertByTime(s[0], SortNewestFirst(s[1..]))
  }

  lemma {:induction false} SumInsertByTime(m: Meal, s: seq<Meal>)
    requires NewestFirst(s)
    ensures SumCalories(InsertByTime(m, s)) == m.calories + SumCalories(s)
  {
    if |s| == 0 || s[0].timestamp <= m.timestamp {
      SumCaloriesCons(m, s);
    } else {
      SumInsertByTime(m, s[1..]);
      SumCaloriesCons(s[0], InsertByTime(m, s[1..]));
      SumCaloriesCons(s[0], s[1..]);
      assert s == [s[0]] + s[1..];
    }
  }

  /** Ordering the meals does not change their calorie total. */
  lemma {:induction false} SumSortNewestFirst(s: seq<Meal>)
    ensures SumCalories(SortNewestFirst(s)) == SumCalories(s)
  {
    if |s| > 0 {
      var t := SortNewestFirst(s[1..]);
      assert SortNewestFirst(s) == InsertByTime(s[0], t);
      SumSortNewestFirst(s[1..]);
      SumInsertByTime(s[0], t);
      assert s == [s[0]] + s[1..];
      SumCaloriesCons(s[0], s[1..]);
    }
  }

  /** Today's meals, newest first: `filter` by date, then `sort` by timestamp. */
  function TodayMeals(meals: seq<Meal>, today: int): (r: seq<Meal>)
    ensures NewestFirst(r)
    ensures multiset(r) == multiset(OnDate(meals, today))
  {
    SortNewestFirst(OnDate(meals, today))
  }

  /** Today's list holds the meals dated today, and only those. */
  lemma TodayMealsExact(meals: seq<Meal>, today: int)
    ensures forall k :: 0 <= k < |TodayMeals(meals, today)| ==>
      TodayMeals(meals, today)[k].date == today && TodayMeals(meals, today)[k] in meals
    ensures forall k :: 0 <= k < |meals| && meals[k].date == today ==> meals[k] in TodayMeals(meals, today)
  {
    var t := OnDate(meals, today);
    var r := TodayMeals(meals, today);
    forall k | 0 <= k < |r| ensures r[k].date == today && r[k] in meals {
      assert r[k] in multiset(r);
      assert r[k] in t;
    }
    forall k | 0 <= k < |meals| && meals[k].date == today ensures meals[k] in r {
      assert meals[k] in t;
      assert meals[k] in multiset(t);
    }
  }

  /** The calories of today's meals, in storage order. */
  function DailyCalories(meals: seq<Meal>, today: int): real {
    SumCalories(OnDate(meals, today))
  }

  /** The listed meals of today add up to the day's calorie total. */
  lemma TodayMealsAddUp(meals: seq<Meal>, today: int)
    ensures SumCalories(TodayMeals(meals, today)) == DailyCalories(meals, today)
  {
    SumSortNewestFirst(OnDate(meals, today));
  }

  /** `meals.map(m => m.id === updated.id ? updated : m)`. */
  function ReplaceById(meals: seq<Meal>, updated: Meal): (r: seq<Meal>)
    ensures |r| == |meals|
    ensures forall k :: 0 <= k < |meals| ==> r[k] == if meals[k].id == updated.id then updated else meals[k]
  {
    if |meals| == 0 then []
    else [if meals[0].id == updated.id then updated else meals[0]] + ReplaceById(meals[1..], updated)
  }

  function Ids(meals: seq<Meal>): (ids: seq<string>)
    ensures |ids| == |meals| && forall k :: 0 <= k < |meals| ==> ids[k] == meals[k].id
  {
    if |meals| == 0 then [] else [meals[0].id] + Ids(meals[1..])
  }

  /** An update never adds, drops or reorders entries: the ids stay as they were. */
  lemma ReplaceKeepsIds(meals: seq<Meal>, updated: Meal)
    ensures Ids(ReplaceById(meals, updated)) == Ids(meals)
  {
  }

  /** Updating twice with the same meal is updating once. */
  lemma ReplaceIdempotent(meals: seq<Meal>, updated: Meal)
    ensures ReplaceById(ReplaceById(meals, updated), updated) == ReplaceById(meals, updated)
  {
  }

  /** `meals.filter(meal => meal.id !== id)`. */
  function RemoveById(meals: seq<Meal>, id: string): (r: seq<Meal>)
    ensures forall m :: m in r <==> m in meals && m.id != id
  {
    Filter(meals, (m: Meal) => m.id != id)
  }

  /** Removal drops exactly the meals with that id, every copy, and keeps the others with their counts. */
  lemma RemoveByIdExact(meals: seq<Meal>, id: string, m: Meal)
    ensures multiset(RemoveById(meals, id))[m] == if m.id == id then 0 else multiset(meals)[m]
  {
    FilterMultiset(meals, (x: Meal) => x.id != id, m);
  }

  /** Removing a just-added meal whose id was new gives back the list as it was. */
  lemma RemoveUndoesAdd(meals: seq<Meal>, m: Meal)
    requires forall k :: 0 <= k < |meals| ==> meals[k].id != m.id
    ensures RemoveById([m] + meals, m.id) == meals
  {
    var p := (x: Meal) => x.id != m.id;
    FilterAppend([m], meals, p);
    FilterAll(meals, p);
  }

  /** The dates that occur in `meals`. */
  function LoggedDates(meals: seq<Meal>): set<int> {
    set m | m in meals :: m.date
  }

  /** `groups` buckets `meals` by date: one non-empty bucket per date, holding that date's meals in order. */
  predicate Grouped(meals: seq<Meal>, groups: map<int, seq<Meal>>) {
    groups.Keys == LoggedDates(meals)
    && forall d :: d in groups ==> groups[d] == OnDate(meals, d) && |groups[d]| > 0
  }

  lemma LoggedDatesSnoc(meals: seq<Meal>, m: Meal)
    ensures LoggedDates(meals + [m]) == LoggedDates(meals) + {m.date}
  {
    var s := meals + [m];
    forall x | x in LoggedDates(s) ensures x in LoggedDates(meals) + {m.date} {
      var y :| y in s && y.date == x;
      if y != m {
        assert y in meals;
      }
    }
    forall x | x in LoggedDates(meals) ensures x in LoggedDates(s) {
      var y :| y in meals && y.date == x;
      assert y in s;
    }
    assert m in s;
  }

  lemma OnDateSnoc(meals: seq<Meal>, m: Meal, d: int)
    ensures OnDate(meals + [m], d) == OnDate(meals, d) + (if m.date == d then [m] else [])
  {
    FilterAppend(meals, [m], (x: Meal) => x.date == d);
  }

  lemma OnDateAbsent(meals: seq<Meal>, d: int)
    requires d !in LoggedDates(meals)
    ensures OnDate(meals, d) == []
  {
    assert forall k :: 0 <= k < |meals| ==> meals[k].date in LoggedDates(meals);
    FilterNone(meals, (x: Meal) => x.date == d);
  }

  /** Pushing a meal with a date not seen before opens that date's bucket. */
  lemma GroupNewDate(meals: seq<Meal>, m: Meal, groups: map<int, seq<Meal>>)
    requires Grouped(meals, groups) && m.date !in groups
    ensures Grouped(meals + [m], groups[m.date := [m]])
  {
    var s := meals + [m];
    LoggedDatesSnoc(meals, m);
    OnDateAbsent(meals, m.date);
    forall d | d in groups[m.date := [m]] ensures groups[m.date := [m]][d] == OnDate(s, d) {
      OnDateSnoc(meals, m, d);
    }
  }

  /** Pushing a meal with a known date appends it to that date's bucket. */
  lemma GroupKnownDate(meals: seq<Meal>, m: Meal, groups: map<int, seq<Meal>>)
    requires Grouped(meals, groups) && m.date in groups
    ensures Grouped(meals + [m], groups[m.date := groups[m.date] + [m]])
  {
    var s := meals + [m];
    LoggedDatesSnoc(meals, m);
    var g := groups[m.date := groups[m.date] + [m]];
    assert g.Keys == groups.Keys;
    forall d | d in g ensures g[d] == OnDate(s, d) && |g[d]| > 0 {
      OnDateSnoc(meals, m, d);
    }
  }

  /**
   * The `reduce` that groups meals by date into a dictionary: each meal is pushed onto
   * its date's bucket, the bucket being created on first sight. The keys are also
   * returned in the order they were created, which is the order `Object.keys` lists them.
   */
  method GroupByDate(meals: seq<Meal>) returns (groups: map<int, seq<Meal>>, keys: seq<int>)
    ensures Grouped(meals, groups)
    ensures |keys| == |groups| && KeyOrder(keys, groups)
    ensures forall a, b :: 0 <= a < b < |keys| ==> FirstIndex(meals, keys[a]) < FirstIndex(meals, keys[b])
  {
    groups := map[];
    keys := [];
    var i := 0;
    while i < |meals|
      invariant 0 <= i <= |meals|
      invariant Grouped(meals[..i], groups)
      invariant KeyOrder(keys, groups)
      invariant FirstSeenOrder(meals, keys, i)
    {
      var m := meals[i];
      assert meals[..i + 1] == meals[..i] + [m];
      if m.date !in groups {
        GroupNewDate(meals[..i], m, groups);
        NewKeyOrder(keys, groups, m.date, [m]);
        FirstSightIndex(meals, i, groups);
        FirstSeenOrderGrows(meals, keys, i);
        groups := groups[m.date := [m]];
        keys := keys + [m.date];
      } else {
        GroupKnownDate(meals[..i], m, groups);
        groups := groups[m.date := groups[m.date] + [m]];
      }
      i := i + 1;
    }
    assert meals[..i] == meals;
    DistinctCard(keys);
  }

  /** The position of the first meal dated `d`, or `|meals|` when there is none. */
  function FirstIndex(meals: seq<Meal>, d: int): (i: nat)
    ensures i <= |meals|
    ensures i < |meals| ==> meals[i].date == d
    ensures forall j :: 0 <= j < i ==> meals[j].date != d
  {
    if |meals| == 0 then 0
    else if meals[0].date == d then 0
    else 1 + FirstIndex(meals[1..], d)
  }

  /** A date that is not among the first `i` meals' dates but is the `i`th meal's is first seen at `i`. */
  lemma FirstSightIndex(meals: seq<Meal>, i: int, groups: map<int, seq<Meal>>)
    requires 0 <= i < |meals| && Grouped(meals[..i], groups) && meals[i].date !in groups
    ensures FirstIndex(meals, meals[i].date) == i
  {
    var d := meals[i].date;
    forall j | 0 <= j < i ensures meals[j].date != d {
      assert meals[j] == meals[..i][j];
      assert meals[j].date in LoggedDates(meals[..i]);
    }
  }

  /** The dates in `keys` were all first seen before position `i`, and in the order listed. */
  predicate FirstSeenOrder(meals: seq<Meal>, keys: seq<int>, i: int) {
    (forall k :: 0 <= k < |keys| ==> FirstIndex(meals, keys[k]) < i)
    && forall a, b :: 0 <= a < b < |keys| ==> FirstIndex(meals, keys[a]) < FirstIndex(meals, keys[b])
  }

  /** A date first seen at `i` extends the order at its end. */
  lemma FirstSeenOrderGrows(meals: seq<Meal>, keys: seq<int>, i: int)
    requires 0 <= i < |meals| && FirstSeenOrder(meals, keys, i) && FirstIndex(meals, meals[i].date) == i
    ensures FirstSeenOrder(meals, keys + [meals[i].date], i + 1)
  {
    var ks := keys + [meals[i].date];
    forall k | 0 <= k < |ks| ensures FirstIndex(meals, ks[k]) < i + 1 {
      if k < |keys| {
        assert ks[k] == keys[k];
      }
    }
    forall a, b | 0 <= a < b < |ks| ensures FirstIndex(meals, ks[a]) < FirstIndex(meals, ks[b]) {
      assert ks[a] == keys[a];
      if b < |keys| {
        assert ks[b] == keys[b];
      }
    }
  }

  /** `keys` lists the dates of `groups` once each. */
  predicate KeyOrder(keys: seq<int>, groups: map<int, seq<Meal>>) {
    (set x | x in keys) == groups.Keys
    && forall a, b :: 0 <= a < b < |keys| ==> keys[a] != keys[b]
  }

  /** Opening a bucket for a new date appends that date to the key list. */
  lemma NewKeyOrder(keys: seq<int>, groups: map<int, seq<Meal>>, d: int, bucket: seq<Meal>)
    requires KeyOrder(keys, groups) && d !in groups
    ensures KeyOrder(keys + [d], groups[d := bucket])
  {
    assert (set x | x in keys + [d]) == (set x | x in keys) + {d};
  }

  /** A list without repeats has as many elements as its set. */
  lemma {:induction false} DistinctCard(s: seq<int>)
    requires forall a, b :: 0 <= a < b < |s| ==> s[a] != s[b]
    ensures |set x | x in s| == |s|
  {
    if |s| > 0 {
      var init := s[..|s| - 1];
      DistinctCard(init);
      assert s == init + [s[|s| - 1]];
      assert (set x | x in s) == (set x | x in init) + {s[|s| - 1]};
    }
  }
}
