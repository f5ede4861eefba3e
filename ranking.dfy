/**
 * The client's ranking of participants: the highest, second-highest and
 * lowest progress, the list sorted by progress for display, the badges
 * each card shows, and the range check before a page is sent to the
 * server.  Progress is in tenths of a percent, as the server derives it.
 */
module Ranking {
  import opened JsBuiltins
  import opened Surahs
  import opened UserStore

  /** `users.map(u => Number(u.progress) || 0)` */
  function ProgressValues(users: seq<UserView>): (vs: seq<int>)
    ensures |vs| == |users|
    ensures forall k :: 0 <= k < |users| ==> vs[k] == users[k].progress
  {
    seq(|users|, k requires 0 <= k < |users| => users[k].progress)
  }

  /** `Math.max(...vs)` on a non-empty list. */
  function Max(vs: seq<int>): (m: int)
    requires |vs| > 0
    ensures m in vs && forall v :: v in vs ==> v <= m
  {
    if |vs| == 1 then vs[0]
    else
      var rest := Max(vs[1..]);
      assert vs == [vs[0]] + vs[1..];
      if vs[0] > rest then vs[0] else rest
  }

  /** `Math.min(...vs)` on a non-empty list. */
  function Min(vs: seq<int>): (m: int)
    requires |vs| > 0
    ensures m in vs && forall v :: v in vs ==> m <= v
  {
    if |vs| == 1 then vs[0]
    else
      var rest := Min(vs[1..]);
      assert vs == [vs[0]] + vs[1..];
      if vs[0] < rest then vs[0] else rest
  }

  /** `maxProgress`: the top value, or 0 for an empty list. */
  function MaxProgress(vs: seq<int>): (m: int)
    ensures |vs| == 0 ==> m == 0
    ensures |vs| > 0 ==> m in vs && forall v :: v in vs ==> v <= m
  {
    if |vs| > 0 then Max(vs) else 0
  }

  /** `minProgress`: the bottom value, or 0 for an empty list. */
  function MinProgress(vs: seq<int>): (m: int)
    ensures |vs| == 0 ==> m == 0
    ensures |vs| > 0 ==> m in vs && forall v :: v in vs ==> m <= v
  {
    if |vs| > 0 then Min(vs) else 0
  }

  /** `vs.filter(v => v < bound)` */
  function Below(vs: seq<int>, bound: int): (r: seq<int>)
    ensures forall v :: v in r <==> v in vs && v < bound
  {
    if vs == [] then []
    else
      assert vs == [vs[0]] + vs[1..];
      (if vs[0] < bound then [vs[0]] else []) + Below(vs[1..], bound)
  }

  /**
   * `secondMax`: the largest value strictly below the top one, when there
   * is such a value and it is positive; otherwise none.
   */
  function SecondMax(vs: seq<int>): (second: Option<int>)
  {
    if |vs| == 0 then None
    else
      var lessThanMax := Below(vs, MaxProgress(vs));
      if |lessThanMax| == 0 then None
      else
        var candidate := Max(lessThanMax);
        if candidate > 0 then Some(candidate) else None
  }

  /**
   * What `secondMax` means: when present it is a value of the list, positive,
   * below the top, and no value below the top exceeds it; it is absent
   * exactly when all values equal the top or every value below the top is 0
   * or less.
   */
  lemma SecondMaxSpec(vs: seq<int>)
    ensures var s := SecondMax(vs); var top := MaxProgress(vs);
      s.Some? ==>
        s.value in vs && 0 < s.value < top && forall v :: v in vs && v < top ==> v <= s.value
    ensures var top := MaxProgress(vs);
      SecondMax(vs).None? <==>
        (forall v :: v in vs ==> v == top) || (forall v :: v in vs && v < top ==> v <= 0)
  {
    if |vs| > 0 {
      var top := MaxProgress(vs);
      var lessThanMax := Below(vs, top);
      if |lessThanMax| == 0 {
        forall v | v in vs ensures v == top {
          assert v !in lessThanMax;
        }
      } else {
        assert lessThanMax[0] in lessThanMax;
        var candidate := Max(lessThanMax);
        if candidate <= 0 {
          assert forall v :: v in vs && v < top ==> v in lessThanMax;
        } else {
          assert candidate in vs && candidate < top;
        }
      }
    }
  }

  predicate SortedByProgress(s: seq<UserView>) {
    forall i, j :: 0 <= i < j < |s| ==> s[i].progress >= s[j].progress
  }

  /** Places u before the first element whose progress is not above u's, so that u precedes its equals. */
  function Insert(u: UserView, s: seq<UserView>): (r: seq<UserView>)
    ensures multiset(r) == multiset(s) + multiset{u}
    ensures |r| == |s| + 1
  {
    if s == [] || s[0].progress <= u.progress then [u] + s
    else
      assert s == [s[0]] + s[1..];
      [s[0]] + Insert(u, s[1..])
  }

  /** Inserting into a list sorted by progress keeps it sorted. */
  lemma {:induction false} InsertSorted(u: UserView, s: seq<UserView>)
    requires SortedByProgress(s)
    ensures SortedByProgress(Insert(u, s))
    ensures Insert(u, s)[0] == u || (|s| > 0 && Insert(u, s)[0] == s[0])
    decreases |s|
  {
    if s != [] && s[0].progress > u.progress {
      var rest := Insert(u, s[1..]);
      InsertSorted(u, s[1..]);
      var r := [s[0]] + rest;
      assert r == Insert(u, s);
      forall i, j | 0 <= i < j < |r| ensures r[i].progress >= r[j].progress {
        if i == 0 {
          assert rest[0].progress <= s[0].progress;
          assert r[j] == rest[j - 1];
          if j > 1 { assert rest[0].progress >= rest[j - 1].progress; }
        } else {
          assert r[i] == rest[i - 1] && r[j] == rest[j - 1];
        }
      }
    }
  }

  /**
   * `[...users]` sorted by progress, highest first: a new list, the
   * input left as it is; JavaScript's sort is stable, so insertion keeps
   * equal elements in their original order.
   */
  function SortByProgress(users: seq<UserView>): (r: seq<UserView>)
    ensures multiset(r) == multiset(users)
    ensures SortedByProgress(r)
  {
    if users == [] then []
    else
      assert users == [users[0]] + users[1..];
      InsertSorted(users[0], SortByProgress(users[1..]));
      Insert(users[0], SortByProgress(users[1..]))
  }

  function WithProgress(s: seq<UserView>, p: int): (r: seq<UserView>) {
    if s == [] then [] else (if s[0].progress == p then [s[0]] else []) + WithProgress(s[1..], p)
  }

  lemma {:induction false} InsertStable(u: UserView, s: seq<UserView>, p: int)
    requires SortedByProgress(s)
    ensures WithProgress(Insert(u, s), p) ==
      (if u.progress == p then [u] else []) + WithProgress(s, p)
    decreases |s|
  {
    if s == [] || s[0].progress <= u.progress {
      assert ([u] + s)[1..] == s;
    } else {
      var rest := Insert(u, s[1..]);
      assert ([s[0]] + rest)[1..] == rest;
      InsertStable(u, s[1..], p);
      if s[0].progress == p {
        // u.progress < p here, so u is not kept by the filter
        assert u.progress != p;
      }
    }
  }

  /**
   * The sort is stable: for every progress value, the users with that
   * value appear in the display in the same order as in the input.
   */
  lemma {:induction false} SortStable(users: seq<UserView>, p: int)
    ensures WithProgress(SortByProgress(users), p) == WithProgress(users, p)
    decreases |users|
  {
    if users != [] {
      SortStable(users[1..], p);
      InsertStable(users[0], SortByProgress(users[1..]), p);
    }
  }

  /** The badges on one card. */
  datatype Badges = Badges(leader: bool, second: bool, lagger: bool)

  /** `isLeader`, `isSecond` and `isLagger` for a card with progress prog. */
  function BadgesOf(vs: seq<int>, prog: int): (b: Badges) {
    var top := MaxProgress(vs);
    var second := SecondMax(vs);
    Badges(prog == top, second.Some? && prog == second.value && prog != top, prog == MinProgress(vs))
  }

  /**
   * For a card of the list: no card is both leader and second; the leader
   * badge marks exactly the highest progress, the lagger badge exactly the
   * lowest, and the second badge exactly the best positive progress below
   * the highest.
   */
  lemma BadgesSpec(vs: seq<int>, prog: int)
    requires prog in vs
    ensures var b := BadgesOf(vs, prog);
      !(b.leader && b.second) &&
      (b.leader <==> forall v :: v in vs ==> v <= prog) &&
      (b.lagger <==> forall v :: v in vs ==> prog <= v)
    ensures BadgesOf(vs, prog).second <==>
      0 < prog < MaxProgress(vs) && forall v :: v in vs && v < MaxProgress(vs) ==> v <= prog
  {
    SecondMaxSpec(vs);
    var top := MaxProgress(vs);
    if 0 < prog < top && forall v :: v in vs && v < top ==> v <= prog {
      assert !(forall v :: v in vs ==> v == top);
      assert SecondMax(vs).Some?;
      assert SecondMax(vs).value == prog;
    }
  }

  /** In a sorted rearrangement of the users, every user's progress lies between the first and the last. */
  lemma SortedEnds(users: seq<UserView>, display: seq<UserView>, v: int)
    requires multiset(display) == multiset(users) && SortedByProgress(display)
    requires v in ProgressValues(users)
    ensures |display| > 0 && display[|display| - 1].progress <= v <= display[0].progress
  {
    var vs := ProgressValues(users);
    var j :| 0 <= j < |vs| && vs[j] == v;
    assert users[j] in multiset(display);
    var k :| 0 <= k < |display| && display[k] == users[j];
  }

  /** Every element of a rearrangement of the users carries one of their progress values. */
  lemma RearrangedValue(users: seq<UserView>, display: seq<UserView>, k: int)
    requires multiset(display) == multiset(users)
    requires 0 <= k < |display|
    ensures display[k].progress in ProgressValues(users)
  {
    assert display[k] in multiset(users);
    var j :| 0 <= j < |users| && users[j] == display[k];
    assert ProgressValues(users)[j] == display[k].progress;
  }

  /**
   * On a non-empty list the first card of the display carries the leader
   * badge and the last the lagger badge.
   */
  lemma DisplayEndsBadged(users: seq<UserView>)
    requires |users| > 0
    ensures var display := SortByProgress(users); var vs := ProgressValues(users);
      |display| == |users| &&
      BadgesOf(vs, display[0].progress).leader &&
      BadgesOf(vs, display[|display| - 1].progress).lagger
  {
    var display := SortByProgress(users);
    var vs := ProgressValues(users);
    assert |display| == |multiset(display)| == |multiset(users)| == |users|;
    var first, last := display[0].progress, display[|display| - 1].progress;
    RearrangedValue(users, display, 0);
    RearrangedValue(users, display, |display| - 1);
    forall v | v in vs ensures last <= v <= first {
      SortedEnds(users, display, v);
    }
    BadgesSpec(vs, first);
    BadgesSpec(vs, last);
  }

  /**
   * `updatePage`'s guard: a page is sent only when it is a number, not 0,
   * and within 1 to TotalPages; anything else sends nothing.
   */
  function PageToSend(input: Number): (page: Option<int>)
    ensures page.Some? <==> input.Int? && 1 <= input.value <= TotalPages
    ensures page.Some? ==> page.value == input.value
  {
    match input
    case NaN => None
    case Int(p) => if p == 0 || p < 1 || p > TotalPages then None else Some(p)
  }

  /**
   * A page that passes the guard is stored by the server as it is (it is
   * never 0, so the old page is not kept) and the lookup does not clamp it.
   */
  lemma SentPageIsStored(input: Number, users: seq<User>, k: int)
    requires PageToSend(input).Some?
    requires 0 <= k < |users|
    ensures var p := PageToSend(input).value;
      WithPage(users, k, OrElse(Int(p), users[k].currentPage))[k].currentPage == p &&
      ClampPage(Int(p)) == p && 1 <= Juz(p) <= 30
  {
    JuzBounds(PageToSend(input).value);
  }
}
