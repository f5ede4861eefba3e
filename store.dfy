/**
 * The server's in-memory participant list (`let users = []`) and the
 * effects of its four handlers on it: the listing with derived fields
 * (GET /users), create (POST /users), update of the current page
 * (PUT /users/:id) and removal (DELETE /users/:id).
 */
module UserStore {
  import opened JsBuiltins
  import opened Surahs
  import SurahTable

  /** One participant record as the server keeps it. */
  datatype User = User(id: int, name: string, currentPage: int)

  /** A record as the listing returns it, with the fields derived from its page; progress is in tenths of a percent. */
  datatype UserView = UserView(
    id: int, name: string, currentPage: int,
    juz: int, surah: string, surahArabic: string, progress: int)

  predicate UniqueIds(users: seq<User>) {
    forall i, j :: 0 <= i < j < |users| ==> users[i].id != users[j].id
  }

  /** `users.length ? Math.max(...users.map(u => u.id)) : 0` */
  function MaxId(users: seq<User>): (m: int)
    ensures |users| == 0 ==> m == 0
    ensures |users| > 0 ==> exists k :: 0 <= k < |users| && users[k].id == m
    ensures forall k :: 0 <= k < |users| ==> users[k].id <= m
  {
    if |users| == 0 then 0
    else if |users| == 1 then users[0].id
    else
      var rest := MaxId(users[1..]);
      assert forall k :: 1 <= k < |users| ==> users[k] == users[1..][k - 1];
      if users[0].id > rest then users[0].id else rest
  }

  /** The id a new record gets: one more than the largest id, which no record has. */
  function NextId(users: seq<User>): (id: int)
    ensures forall k :: 0 <= k < |users| ==> users[k].id < id
    ensures |users| == 0 ==> id == 1
  {
    MaxId(users) + 1
  }

  /** `users.findIndex(u => u.id == id)`: the first record with that id, or -1; `users.find` picks the same record. */
  function FindIndex(users: seq<User>, id: int): (k: int)
    ensures -1 <= k < |users|
    ensures k == -1 <==> forall j :: 0 <= j < |users| ==> users[j].id != id
    ensures k >= 0 ==> users[k].id == id && forall j :: 0 <= j < k ==> users[j].id != id
  {
    if |users| == 0 then -1
    else if users[0].id == id then 0
    else
      var k := FindIndex(users[1..], id);
      assert forall j :: 1 <= j < |users| ==> users[j] == users[1..][j - 1];
      if k == -1 then -1 else k + 1
  }

  /** The list after a create with an already trimmed, non-empty name. */
  function Created(users: seq<User>, name: string): (r: seq<User>) {
    users + [User(NextId(users), name, 1)]
  }

  /** The list after record k's page is set. */
  function WithPage(users: seq<User>, k: int, page: int): (r: seq<User>)
    requires 0 <= k < |users|
  {
    users[k := users[k].(currentPage := page)]
  }

  /** The list after `users.splice(k, 1)`. */
  function RemovedAt(users: seq<User>, k: int): (r: seq<User>)
    requires 0 <= k < |users|
  {
    users[..k] + users[k + 1..]
  }

  function CountId(users: seq<User>, id: int): (n: nat) {
    if users == [] then 0 else (if users[0].id == id then 1 else 0) + CountId(users[1..], id)
  }

  /**
   * A create adds exactly one record at the end, with a fresh id and page
   * 1, and keeps every earlier record; so ids that were unique stay unique.
   */
  lemma CreatedSpec(users: seq<User>, name: string)
    ensures var r := Created(users, name);
      |r| == |users| + 1 && r[..|users|] == users &&
      r[|users|].name == name && r[|users|].currentPage == 1 &&
      forall k :: 0 <= k < |users| ==> users[k].id < r[|users|].id
    ensures UniqueIds(users) ==> UniqueIds(Created(users, name))
  {
    var r := Created(users, name);
    assert r[..|users|] == users;
  }

  /**
   * An update changes the page of record k and nothing else: every other
   * record, and the id and name of record k, stay as they were.
   */
  lemma WithPageSpec(users: seq<User>, k: int, page: int)
    requires 0 <= k < |users|
    ensures var r := WithPage(users, k, page);
      |r| == |users| && r[k].currentPage == page &&
      r[k].id == users[k].id && r[k].name == users[k].name &&
      forall j :: 0 <= j < |users| && j != k ==> r[j] == users[j]
    ensures UniqueIds(users) ==> UniqueIds(WithPage(users, k, page))
  {
  }

  lemma {:induction false} CountIdAppend(a: seq<User>, b: seq<User>, id: int)
    ensures CountId(a + b, id) == CountId(a, id) + CountId(b, id)
    decreases |a|
  {
    if a == [] {
      assert a + b == b;
    } else {
      assert (a + b)[1..] == a[1..] + b;
      CountIdAppend(a[1..], b, id);
    }
  }

  /**
   * A removal drops record k alone: the others keep their order, the
   * records as a whole lose exactly that one, and the number of records
   * carrying its id goes down by exactly one.
   */
  lemma RemovedAtSpec(users: seq<User>, k: int)
    requires 0 <= k < |users|
    ensures var r := RemovedAt(users, k);
      |r| == |users| - 1 &&
      (forall j :: 0 <= j < |r| ==> r[j] == if j < k then users[j] else users[j + 1]) &&
      multiset(r) + multiset{users[k]} == multiset(users) &&
      CountId(r, users[k].id) + 1 == CountId(users, users[k].id)
  {
    var r := RemovedAt(users, k);
    assert users == users[..k] + [users[k]] + users[k + 1..];
    CountIdAppend(users[..k], users[k + 1..], users[k].id);
    CountIdAppend(users[..k] + [users[k]], users[k + 1..], users[k].id);
    CountIdAppend(users[..k], [users[k]], users[k].id);
    assert [users[k]][1..] == [];
  }

  /** With unique ids, removing the first record with an id leaves none with that id. */
  lemma RemovedAtUnique(users: seq<User>, id: int)
    requires UniqueIds(users)
    requires FindIndex(users, id) >= 0
    ensures var r := RemovedAt(users, FindIndex(users, id));
      UniqueIds(r) && forall j :: 0 <= j < |r| ==> r[j].id != id
  {
    var k := FindIndex(users, id);
    var r := RemovedAt(users, k);
    assert |r| == |users| - 1;
    assert forall j :: 0 <= j < |r| ==> r[j] == users[if j < k then j else j + 1];
    forall i, j | 0 <= i < j < |r| ensures r[i].id != r[j].id {
      assert r[i] == users[if i < k then i else i + 1];
      assert r[j] == users[if j < k then j else j + 1];
    }
  }

  /**
   * The derived fields the listing adds to a record, t being the section
   * table: the section comes from the clamped page, the division and the
   * progress from the raw one.
   */
  function ViewOf(t: seq<Entry>, u: User): (v: UserView)
    requires ValidTable(t)
    ensures v.id == u.id && v.name == u.name && v.currentPage == u.currentPage
    ensures 1 <= u.currentPage <= TotalPages ==> 1 <= v.juz <= 30 && 0 <= v.progress <= 1000
  {
    var info := Describe(t, LastAtMost(t, ClampPage(Int(u.currentPage))));
    JuzBounds(if 1 <= u.currentPage <= TotalPages then u.currentPage else 1);
    ProgressBounds(if 0 <= u.currentPage <= TotalPages then u.currentPage else 0, TotalPages);
    UserView(u.id, u.name, u.currentPage, Juz(u.currentPage), info.name, info.arabic, ProgressTenths(u.currentPage))
  }

  /**
   * The server module's state: the participant list it updates in place and
   * the section table it reads.
   */
  class Store {
    var users: seq<User>
    const sections: seq<Entry>

    /** The list as loaded at start-up (empty when there is no data file), beside the server's section table. */
    constructor (initial: seq<User>)
      ensures users == initial
      ensures sections == SurahTable.Table() && ValidTable(sections)
    {
      users := initial;
      sections := SurahTable.Table();
      SurahTable.TableValid();
    }

    /** GET /users: `users.map(...)` giving every record, in order, with its derived fields. */
    method List() returns (views: seq<UserView>)
      requires ValidTable(sections)
      ensures |views| == |users|
      ensures forall k :: 0 <= k < |users| ==> views[k] == ViewOf(sections, users[k])
    {
      views := [];
      for k := 0 to |users|
        invariant |views| == k
        invariant forall j :: 0 <= j < k ==> views[j] == ViewOf(sections, users[j])
      {
        var u := users[k];
        var entry := FindSurahEntryIn(sections, Int(u.currentPage));
        views := views + [UserView(u.id, u.name, u.currentPage, Juz(u.currentPage),
                                   entry.name, entry.arabic, ProgressTenths(u.currentPage))];
      }
    }

    /**
     * POST /users: a name that is blank after trimming is refused and
     * nothing changes; otherwise one record with the trimmed name, the next
     * id and page 1 is appended.
     */
    method Create(rawName: string) returns (created: Option<User>)
      modifies this
      ensures AllWhitespace(rawName) ==> created == None && users == old(users)
      ensures !AllWhitespace(rawName) ==>
        created == Some(User(NextId(old(users)), Trim(rawName), 1)) &&
        users == Created(old(users), Trim(rawName))
    {
      var name := Trim(rawName);
      TrimSpec(rawName);
      if name == [] {
        return None;
      }
      var maxId := if |users| > 0 then MaxId(users) else 0;
      var newUser := User(maxId + 1, name, 1);
      users := users + [newUser];
      created := Some(newUser);
    }

    /**
     * PUT /users/:id: the first record with that id gets the new page,
     * or keeps its old page when the input is NaN or 0; an unknown id is
     * reported and nothing changes.
     */
    method Update(id: int, currentPage: Number) returns (updated: Option<User>)
      modifies this
      ensures var k := FindIndex(old(users), id);
        if k == -1 then updated == None && users == old(users)
        else
          users == WithPage(old(users), k, OrElse(currentPage, old(users)[k].currentPage)) &&
          updated == Some(users[k])
    {
      var k := FindIndex(users, id);
      if k == -1 {
        return None;
      }
      var user := users[k];
      user := user.(currentPage := OrElse(currentPage, user.currentPage));
      users := users[k := user];
      updated := Some(user);
    }

    /**
     * DELETE /users/:id: the first record with that id is spliced out and
     * returned; an unknown id is reported and nothing changes.
     */
    method Delete(id: int) returns (removed: Option<User>)
      modifies this
      ensures var k := FindIndex(old(users), id);
        if k == -1 then removed == None && users == old(users)
        else users == RemovedAt(old(users), k) && removed == Some(old(users)[k])
    {
      var k := FindIndex(users, id);
      if k == -1 {
        return None;
      }
      removed := Some(users[k]);
      users := users[..k] + users[k + 1..];
    }
  }
}
