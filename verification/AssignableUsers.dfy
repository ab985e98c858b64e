/** The directory of users a work item can be assigned to: the store that logins
    fill and reads prune, and the merged directory over it. */
module AssignableUsers {
  import opened Prelude
  import Sorting
  import Text

  /** A directory entry; a login time that cannot be read is `None`. */
  datatype Entry = Entry(
    id: string, name: Option<string>, email: Option<string>, roles: seq<string>, lastLoginAt: Option<int>)

  /** The text under a key: an entry, JSON that is no entry, the empty string, or
      text that is not JSON. */
  datatype Stored = Good(entry: Entry) | Falsy | Blank | Corrupt

  type Hash = map<string, Stored>

  const ROLE_STANDARD := "standard"

  /** `isExpired` */
  predicate IsExpired(e: Entry, now: int, window: int) {
    e.lastLoginAt.None? || now - e.lastLoginAt.value > window
  }

  predicate IsCurrent(s: Stored, now: int, window: int) {
    s.Good? && !IsExpired(s.entry, now, window)
  }

  /** What a read of the whole hash prunes. */
  predicate IsPrunable(s: Stored, now: int, window: int) {
    s == Corrupt || s == Blank || (s.Good? && IsExpired(s.entry, now, window))
  }

  /** Entries are stored under their own ids. */
  ghost predicate Keyed(hash: Hash) {
    forall id :: id in hash && hash[id].Good? ==> hash[id].entry.id == id
  }

  function SortName(e: Entry): string {
    if e.name.Some? then e.name.value else e.id
  }

  /** The keys whose entries are current, each once, in some order. */
  ghost predicate IsKeyList(keys: seq<string>, hash: Hash, now: int, window: int) {
    Unique(keys) && forall id :: id in keys <==> id in hash && IsCurrent(hash[id], now, window)
  }

  function EntryAt(hash: Hash, id: string): Entry {
    if id in hash && hash[id].Good? then hash[id].entry else Entry(id, None, None, [], None)
  }

  function EntriesAt(hash: Hash, keys: seq<string>): seq<Entry> {
    Map(keys, (id: string) => EntryAt(hash, id))
  }

  /** `users` is the directory of a hash at a time: the entry of every current key,
      once for each, in name order. Ties may come in any order. */
  ghost predicate Lists(users: seq<Entry>, hash: Hash, now: int, window: int, rank: string -> int) {
    && (exists keys :: IsKeyList(keys, hash, now, window) && multiset(users) == multiset(EntriesAt(hash, keys)))
    && Sorting.SortedBy(users, (e: Entry) => rank(SortName(e)))
  }

  function FindIn(hash: Hash, id: string, now: int, window: int): Option<Entry> {
    if id in hash && IsCurrent(hash[id], now, window) then Some(hash[id].entry) else None
  }

  function NewEntry(id: string, name: Option<string>, email: Option<string>, roles: Option<seq<string>>, now: int): Entry {
    Entry(id, name, email, if roles.Some? then roles.value else [ROLE_STANDARD], Some(now))
  }

  /** The hash without what a read prunes; `kept` are the ids whose removal has no
      effect. */
  function Pruned(hash: Hash, now: int, window: int, kept: set<string>): Hash {
    map id | id in hash && (id in kept || !IsPrunable(hash[id], now, window)) :: hash[id]
  }

  lemma EntriesAtAppend(hash: Hash, keys: seq<string>, id: string)
    ensures EntriesAt(hash, keys + [id]) == EntriesAt(hash, keys) + [EntryAt(hash, id)]
  {
  }

  /** The loop over the hash: the current entries, and the keys to prune. */
  method Collect(raw: Hash, now: int, window: int) returns (users: seq<Entry>, pruned: set<string>, ghost keys: seq<string>)
    ensures IsKeyList(keys, raw, now, window) && users == EntriesAt(raw, keys)
    ensures forall id :: id in pruned <==> id in raw && IsPrunable(raw[id], now, window)
  {
    var left := raw.Keys;
    pruned, keys, users := {}, [], [];
    while left != {}
      invariant left <= raw.Keys
      invariant forall id :: id in pruned <==> id in raw && id !in left && IsPrunable(raw[id], now, window)
      invariant Unique(keys) && forall id :: id in keys <==> id in raw && id !in left && IsCurrent(raw[id], now, window)
      invariant users == EntriesAt(raw, keys)
      decreases |left|
    {
      var id :| id in left;
      EntriesAtAppend(raw, keys, id);
      hide EntriesAt;
      left := left - {id};
      if IsPrunable(raw[id], now, window) {
        pruned := pruned + {id};
      } else if raw[id].Good? {
        keys := keys + [id];
        users := users + [raw[id].entry];
      }
    }
  }

  /** The store over one shared hash. */
  class Store {
    var hash: Hash
    const window: int

    constructor (window: int)
      ensures hash == map[] && this.window == window
    {
      hash := map[];
      this.window := window;
    }

    /** `upsertAssignableUser` */
    method Upsert(id: string, name: Option<string>, email: Option<string>, roles: Option<seq<string>>, now: int)
      modifies this
      ensures hash == old(hash)[id := Good(Entry(id, name, email, if roles.Some? then roles.value else ["standard"], Some(now)))]
      ensures hash == Step(old(hash), UpsertOp(now, NewEntry(id, name, email, roles, now)), window)
    {
      hash := hash[id := Good(NewEntry(id, name, email, roles, now))];
    }

    /** `removeAssignableUser` */
    method Remove(id: string)
      modifies this
      ensures hash == old(hash) - {id}
    {
      hash := hash - {id};
    }

    /** `listAssignableUsers`: the hash is read once, in whatever order it comes. */
    method List(now: int, rank: string -> int, kept: set<string>) returns (users: seq<Entry>)
      modifies this
      ensures Lists(users, old(hash), now, window, rank)
      ensures hash == Step(old(hash), ListOp(now, kept), window)
    {
      var pruned: set<string>;
      ghost var keys: seq<string>;
      users, pruned, keys := Collect(hash, now, window);
      hash := map id | id in hash && (id in kept || id !in pruned) :: hash[id];
      Sorting.SortByIsSorted(users, (e: Entry) => rank(SortName(e)));
      users := Sorting.SortBy(users, (e: Entry) => rank(SortName(e)));
    }

    /** `findAssignableUserInStore` */
    method Find(id: string, now: int, kept: bool) returns (found: Option<Entry>)
      modifies this
      ensures found == FindIn(old(hash), id, now, window)
      ensures hash == Step(old(hash), FindOp(now, id, !kept), window)
    {
      if id !in hash || hash[id] == Blank || hash[id] == Falsy {
        return None;
      }
      if IsPrunable(hash[id], now, window) {
        if !kept {
          hash := hash - {id};
        }
        return None;
      }
      return Some(hash[id].entry);
    }
  }

  // ---- A store that never prunes ----

  datatype Op =
    | UpsertOp(at: int, entry: Entry)
    | RemoveOp(at: int, id: string)
    | ListOp(at: int, kept: set<string>)
    | FindOp(at: int, id: string, took: bool)

  /** One operation on the store as it is. An upsert stamps its entry with its own
      time and stores it under its own id. */
  function Step(hash: Hash, op: Op, window: int): Hash {
    match op
    case UpsertOp(at, e) => hash[e.id := Good(e.(lastLoginAt := Some(at)))]
    case RemoveOp(_, id) => hash - {id}
    case ListOp(at, kept) => Pruned(hash, at, window, kept)
    case FindOp(at, id, took) =>
      if took && id in hash && hash[id] != Blank && IsPrunable(hash[id], at, window) then hash - {id} else hash
  }

  /** The same operation on a store that never prunes. */
  function PlainStep(hash: Hash, op: Op): Hash {
    match op
    case UpsertOp(at, e) => hash[e.id := Good(e.(lastLoginAt := Some(at)))]
    case RemoveOp(_, id) => hash - {id}
    case _ => hash
  }

  /** Everything left is as it was written, and whatever is missing would not be
      shown at `now` or later. */
  ghost predicate Shadows(hash: Hash, plain: Hash, now: int, window: int) {
    && (forall id :: id in hash ==> id in plain && plain[id] == hash[id])
    && (forall id :: id in plain && id !in hash ==> !IsCurrent(plain[id], now, window))
  }

  lemma ExpiredStays(s: Stored, now: int, later: int, window: int)
    requires now <= later && !IsCurrent(s, now, window)
    ensures !IsCurrent(s, later, window)
  {
  }

  lemma StepShadows(hash: Hash, plain: Hash, op: Op, now: int, window: int)
    requires Shadows(hash, plain, now, window) && now <= op.at
    ensures Shadows(Step(hash, op, window), PlainStep(plain, op), op.at, window)
  {
    forall id | id in plain && id !in hash ensures !IsCurrent(plain[id], op.at, window) {
      ExpiredStays(plain[id], now, op.at, window);
    }
  }

  /** A store and its shadow show the same. */
  lemma ShadowShowsTheSame(hash: Hash, plain: Hash, now: int, window: int)
    requires Shadows(hash, plain, now, window)
    ensures forall id :: FindIn(hash, id, now, window) == FindIn(plain, id, now, window)
    ensures forall users, rank: string -> int ::
              Lists(users, hash, now, window, rank) <==> Lists(users, plain, now, window, rank)
  {
    forall keys ensures IsKeyList(keys, hash, now, window) <==> IsKeyList(keys, plain, now, window) {
      forall id
        ensures (id in hash && IsCurrent(hash[id], now, window)) <==> (id in plain && IsCurrent(plain[id], now, window))
      {
      }
    }
    forall keys | IsKeyList(keys, hash, now, window) ensures EntriesAt(hash, keys) == EntriesAt(plain, keys) {
      assert forall i :: 0 <= i < |keys| ==> keys[i] in keys;
    }
  }

  function HashAt(start: Hash, ops: seq<Op>, n: nat, window: int): Hash
    requires n <= |ops|
  {
    if n == 0 then start else Step(HashAt(start, ops, n - 1, window), ops[n - 1], window)
  }

  function PlainAt(start: Hash, ops: seq<Op>, n: nat): Hash
    requires n <= |ops|
  {
    if n == 0 then start else PlainStep(PlainAt(start, ops, n - 1), ops[n - 1])
  }

  predicate ClockNeverGoesBack(ops: seq<Op>) {
    forall i :: 0 < i < |ops| ==> ops[i - 1].at <= ops[i].at
  }

  lemma {:induction false} RunShadows(start: Hash, ops: seq<Op>, n: nat, window: int)
    requires ClockNeverGoesBack(ops) && n <= |ops|
    ensures n > 0 ==> Shadows(HashAt(start, ops, n, window), PlainAt(start, ops, n), ops[n - 1].at, window)
    ensures n == 0 ==> HashAt(start, ops, n, window) == PlainAt(start, ops, n)
  {
    if n > 0 {
      RunShadows(start, ops, n - 1, window);
      StepShadows(HashAt(start, ops, n - 1, window), PlainAt(start, ops, n - 1), ops[n - 1],
                  if n == 1 then ops[0].at else ops[n - 2].at, window);
    }
  }

  /** Runs store entries under their own ids, which searching the directory needs. */
  lemma {:induction false} RunStaysKeyed(start: Hash, ops: seq<Op>, n: nat, window: int)
    requires Keyed(start) && n <= |ops|
    ensures Keyed(HashAt(start, ops, n, window))
  {
    if n > 0 {
      RunStaysKeyed(start, ops, n - 1, window);
    }
  }

  /** Over any run of upserts, removals and reads, with a clock that never goes
      back, every list and every lookup answers what a store that never prunes
      would: whichever prunings take effect. */
  lemma PruningIsInvisible(start: Hash, ops: seq<Op>, n: nat, window: int)
    requires ClockNeverGoesBack(ops) && n < |ops|
    ensures var hash, plain, now := HashAt(start, ops, n, window), PlainAt(start, ops, n), ops[n].at;
            && (forall id :: FindIn(hash, id, now, window) == FindIn(plain, id, now, window))
            && (forall users, rank: string -> int ::
                  Lists(users, hash, now, window, rank) <==> Lists(users, plain, now, window, rank))
  {
    RunShadows(start, ops, n, window);
    var hash, plain, now := HashAt(start, ops, n, window), PlainAt(start, ops, n), ops[n].at;
    forall id | id in plain && id !in hash ensures !IsCurrent(plain[id], now, window) {
      if n > 0 {
        ExpiredStays(plain[id], ops[n - 1].at, now, window);
      }
    }
    ShadowShowsTheSame(hash, plain, now, window);
  }

  // ---- Who is in the directory ----

  ghost predicate UniqueIds(users: seq<Entry>) {
    forall i, j :: 0 <= i < j < |users| ==> users[i].id != users[j].id
  }

  lemma ListedIds(users: seq<Entry>, hash: Hash, now: int, window: int, rank: string -> int)
    requires Keyed(hash) && Lists(users, hash, now, window, rank)
    ensures UniqueIds(users)
    ensures forall e :: e in users ==> FindIn(hash, e.id, now, window) == Some(e)
    ensures forall id :: id in hash && IsCurrent(hash[id], now, window) ==> hash[id].entry in users
  {
    var keys :| IsKeyList(keys, hash, now, window) && multiset(users) == multiset(EntriesAt(hash, keys));
    var entries := EntriesAt(hash, keys);
    Sorting.SameMembers(users, entries);
    assert forall i :: 0 <= i < |keys| ==> keys[i] in keys && entries[i].id == keys[i];
    assert Unique(entries);
    Sorting.UniqueSurvives(entries, users);
    forall e | e in users ensures FindIn(hash, e.id, now, window) == Some(e) {
      var i :| 0 <= i < |entries| && entries[i] == e;
    }
    forall id | id in hash && IsCurrent(hash[id], now, window) ensures hash[id].entry in users {
      var i :| 0 <= i < |keys| && keys[i] == id;
      assert entries[i] in entries;
    }
    forall i, j | 0 <= i < j < |users| ensures users[i].id != users[j].id {
      assert users[i] in users && users[j] in users;
    }
  }

  predicate Writes(op: Op, id: string) {
    (op.UpsertOp? && op.entry.id == id) || (op.RemoveOp? && op.id == id)
  }

  /** Operation `k` is the last before `n` to write the id. */
  ghost predicate LastWrite(ops: seq<Op>, k: int, n: nat, id: string)
    requires n <= |ops|
  {
    0 <= k < n && Writes(ops[k], id) && forall j :: k < j < n ==> !Writes(ops[j], id)
  }

  /** What is stored under the id in a store that never prunes, after the operation
      that wrote it last. */
  predicate StoredBy(hash: Hash, op: Op, id: string) {
    if op.UpsertOp? then id in hash && hash[id] == Good(op.entry.(lastLoginAt := Some(op.at))) else id !in hash
  }

  lemma WriteStores(hash: Hash, op: Op, id: string)
    ensures Writes(op, id) ==> StoredBy(PlainStep(hash, op), op, id)
    ensures !Writes(op, id) ==> (id in PlainStep(hash, op) <==> id in hash)
    ensures !Writes(op, id) && id in hash ==> PlainStep(hash, op)[id] == hash[id]
  {
  }

  lemma {:induction false} PlainIsLastWrite(start: Hash, ops: seq<Op>, k: nat, n: nat, id: string)
    requires n <= |ops| && LastWrite(ops, k, n, id)
    ensures StoredBy(PlainAt(start, ops, n), ops[k], id)
    decreases n
  {
    hide PlainStep, Writes;
    WriteStores(PlainAt(start, ops, n - 1), ops[n - 1], id);
    if k < n - 1 {
      PlainIsLastWrite(start, ops, k, n - 1, id);
    }
  }

  lemma {:induction false} PlainIsAsStarted(start: Hash, ops: seq<Op>, n: nat, id: string)
    requires n <= |ops| && forall j :: 0 <= j < n ==> !Writes(ops[j], id)
    ensures id in PlainAt(start, ops, n) <==> id in start
    ensures id in start ==> PlainAt(start, ops, n)[id] == start[id]
  {
    hide PlainStep, Writes;
    if n > 0 {
      PlainIsAsStarted(start, ops, n - 1, id);
      WriteStores(PlainAt(start, ops, n - 1), ops[n - 1], id);
    }
  }

  /** The entry `shown` and no other is what a read answers for the id: a lookup
      finds it, and every list of the same store holds it and no other entry with
      that id. */
  ghost predicate Shows(hash: Hash, id: string, now: int, window: int, shown: Option<Entry>) {
    && FindIn(hash, id, now, window) == shown
    && forall users: seq<Entry>, rank: string -> int, e: Entry :: Lists(users, hash, now, window, rank) && e.id == id ==>
                                                                    (e in users <==> shown == Some(e))
  }

  lemma ShowsWhatIsFound(hash: Hash, id: string, now: int, window: int)
    requires Keyed(hash)
    ensures Shows(hash, id, now, window, FindIn(hash, id, now, window))
  {
    forall users: seq<Entry>, rank: string -> int, e: Entry | Lists(users, hash, now, window, rank) && e.id == id
      ensures e in users <==> FindIn(hash, id, now, window) == Some(e)
    {
      ListedIds(users, hash, now, window, rank);
    }
  }

  /** Over any run, whatever has been pruned when: an id last upserted is found and
      listed, with that entry, exactly until more than the window has passed since;
      an id last removed is not; and an id not written is if it was there to begin
      with, with a time that can be read and is not longer ago than the window. */
  lemma KnownExactly(start: Hash, ops: seq<Op>, n: nat, id: string, window: int)
    requires Keyed(start) && ClockNeverGoesBack(ops) && n < |ops|
    ensures var hash, now := HashAt(start, ops, n, window), ops[n].at;
            && (forall k :: LastWrite(ops, k, n, id) && ops[k].UpsertOp? ==>
                  Shows(hash, id, now, window,
                        if now - ops[k].at <= window then Some(ops[k].entry.(lastLoginAt := Some(ops[k].at))) else None))
            && (forall k :: LastWrite(ops, k, n, id) && ops[k].RemoveOp? ==> Shows(hash, id, now, window, None))
            && ((forall j :: 0 <= j < n ==> !Writes(ops[j], id)) ==>
                  Shows(hash, id, now, window,
                        if id in start && start[id].Good? && start[id].entry.lastLoginAt.Some?
                           && now - start[id].entry.lastLoginAt.value <= window
                        then Some(start[id].entry) else None))
  {
    hide Shows, HashAt, PlainAt, Lists;
    PruningIsInvisible(start, ops, n, window);
    forall k | LastWrite(ops, k, n, id) ensures StoredBy(PlainAt(start, ops, n), ops[k], id) {
      PlainIsLastWrite(start, ops, k, n, id);
    }
    if forall j :: 0 <= j < n ==> !Writes(ops[j], id) {
      PlainIsAsStarted(start, ops, n, id);
    }
    RunStaysKeyed(start, ops, n, window);
    ShowsWhatIsFound(HashAt(start, ops, n, window), id, ops[n].at, window);
  }

  /** A list whose prunings all take effect leaves the current entries, and the
      values that are no entry though they parse. */
  lemma ListLeaves(hash: Hash, now: int, window: int, id: string)
    ensures var left := Step(hash, ListOp(now, {}), window);
            && (id in left <==> && id in hash
                                && (hash[id] == Falsy || (hash[id].Good? && hash[id].entry.lastLoginAt.Some?
                                                          && now - hash[id].entry.lastLoginAt.value <= window)))
            && (id in left ==> left[id] == hash[id])
  {
  }

  // ---- assignees.js: the merged directory ----

  /** Whether stub sign-in and Entra ID sign-in are on. */
  datatype Config = Config(stub: bool, entra: bool)

  predicate UsesStore(c: Config) {
    !c.stub || c.entra
  }

  predicate HasId(users: seq<Entry>, id: string) {
    exists i :: 0 <= i < |users| && users[i].id == id
  }

  /** `getAssignableUsers`; `None` for a directory read that fails. */
  function GetAssignableUsers(c: Config, stubUsers: seq<Entry>, listed: Option<seq<Entry>>): seq<Entry> {
    var storeUsers := if listed.Some? then listed.value else [];
    if !c.stub then storeUsers
    else if !UsesStore(c) then stubUsers
    else stubUsers + Filter(storeUsers, (u: Entry) => !HasId(stubUsers, u.id))
  }

  function ById(users: seq<Entry>, id: string): Option<Entry> {
    Find(users, (u: Entry) => u.id == id)
  }

  /** `findAssignableUser`; the outer `None` of `stored` is a lookup that fails. */
  function FindAssignableUser(c: Config, stubUsers: seq<Entry>, id: string, stored: Option<Option<Entry>>): Option<Entry> {
    if Text.Trim(id) == "" then None
    else if c.stub && ById(stubUsers, id).Some? then ById(stubUsers, id)
    else if !UsesStore(c) then None
    else if stored.Some? then stored.value else None
  }

  /** A list and a lookup made of the same store at the same time, both answered
      or both failed. */
  ghost predicate SameRead(
    listed: Option<seq<Entry>>, stored: Option<Option<Entry>>, id: string,
    hash: Hash, now: int, window: int, rank: string -> int)
  {
    || (listed == None && stored == None)
    || (listed.Some? && Lists(listed.value, hash, now, window, rank) && stored == Some(FindIn(hash, id, now, window)))
  }

  /** Searching a list without repeated ids finds the one entry that has the id. */
  lemma FoundInUnique(users: seq<Entry>, e: Entry)
    requires UniqueIds(users) && e in users
    ensures ById(users, e.id) == Some(e)
  {
    var r := ById(users, e.id);
    assert r.Some?;
    var i, j :| 0 <= i < |users| && 0 <= j < |users| && users[i] == e && users[j] == r.value;
  }

  lemma StoreSearchAgrees(users: seq<Entry>, id: string, hash: Hash, now: int, window: int, rank: string -> int)
    requires Keyed(hash) && Lists(users, hash, now, window, rank)
    ensures ById(users, id) == FindIn(hash, id, now, window)
  {
    ListedIds(users, hash, now, window, rank);
    if id in hash && IsCurrent(hash[id], now, window) {
      FoundInUnique(users, hash[id].entry);
    }
  }

  lemma {:induction false} SearchBoth(a: seq<Entry>, b: seq<Entry>, id: string)
    ensures ById(a + b, id) == if ById(a, id).Some? then ById(a, id) else ById(b, id)
  {
    if a == [] {
      assert a + b == b;
    } else {
      assert (a + b)[1..] == a[1..] + b;
      SearchBoth(a[1..], b, id);
    }
  }

  lemma {:induction false} SearchOthers(users: seq<Entry>, stubUsers: seq<Entry>, id: string)
    requires !HasId(stubUsers, id)
    ensures ById(Filter(users, (u: Entry) => !HasId(stubUsers, u.id)), id) == ById(users, id)
  {
    if users != [] {
      SearchOthers(users[1..], stubUsers, id);
      var rest := Filter(users[1..], (u: Entry) => !HasId(stubUsers, u.id));
      SearchBoth(if HasId(stubUsers, users[0].id) then [] else [users[0]], rest, id);
      assert [users[0]][1..] == [];
      assert ById([users[0]], id) == if users[0].id == id then Some(users[0]) else None;
    }
  }

  /** Who the directory lists: with stub sign-in on, the stub users; with Entra ID on,
      or the stub off, the store's users, less those whose id a stub user has. */
  lemma DirectoryHolds(c: Config, stubUsers: seq<Entry>, listed: Option<seq<Entry>>, e: Entry)
    ensures e in GetAssignableUsers(c, stubUsers, listed)
            <==> || (c.stub && e in stubUsers)
                 || ((c.entra || !c.stub) && listed.Some? && e in listed.value
                     && (c.stub ==> forall u :: u in stubUsers ==> u.id != e.id))
  {
    if HasId(stubUsers, e.id) {
      var i :| 0 <= i < |stubUsers| && stubUsers[i].id == e.id;
      assert stubUsers[i] in stubUsers;
    }
  }

  /** Looking an id up in the directory agrees with searching the directory listed,
      exactly when the id is not blank or nobody listed has it. */
  lemma DirectoryAgreesExactly(
    c: Config, stubUsers: seq<Entry>, listed: Option<seq<Entry>>, stored: Option<Option<Entry>>, id: string,
    hash: Hash, now: int, window: int, rank: string -> int)
    requires Keyed(hash) && SameRead(listed, stored, id, hash, now, window, rank)
    ensures var directory := GetAssignableUsers(c, stubUsers, listed);
            FindAssignableUser(c, stubUsers, id, stored) == ById(directory, id)
            <==> Text.Trim(id) != "" || !HasId(directory, id)
  {
    var users := if listed.Some? then listed.value else [];
    if listed.Some? {
      StoreSearchAgrees(users, id, hash, now, window, rank);
    }
    var others := Filter(users, (u: Entry) => !HasId(stubUsers, u.id));
    SearchBoth(stubUsers, others, id);
    SearchMeans(stubUsers, id);
    if !HasId(stubUsers, id) {
      SearchOthers(users, stubUsers, id);
    }
    SearchMeans(GetAssignableUsers(c, stubUsers, listed), id);
  }

  lemma SearchMeans(users: seq<Entry>, id: string)
    ensures ById(users, id).Some? <==> HasId(users, id)
  {
    if HasId(users, id) {
      var i :| 0 <= i < |users| && users[i].id == id;
      assert users[i] in users;
    }
  }

  lemma {:induction false} FilteredIds(users: seq<Entry>, stubUsers: seq<Entry>)
    requires UniqueIds(users)
    ensures UniqueIds(Filter(users, (u: Entry) => !HasId(stubUsers, u.id)))
  {
    if users != [] {
      FilteredIds(users[1..], stubUsers);
      assert forall u :: u in users[1..] ==> u.id != users[0].id;
    }
  }

  /** `STUB_USERS` */
  const STUB_USERS: seq<Entry> := [
    Entry("stub-caseworker-1", Some("Stub Caseworker One"), Some("caseworker-1@stub.example"), [ROLE_STANDARD], None),
    Entry("stub-caseworker-2", Some("Stub Caseworker Two"), Some("caseworker-2@stub.example"), [ROLE_STANDARD], None),
    Entry("stub-caseworker-3", Some("Stub Caseworker Three"), Some("caseworker-3@stub.example"), [ROLE_STANDARD], None)]

  lemma StubIdsAreUnique()
    ensures UniqueIds(STUB_USERS)
  {
    assert STUB_USERS[0].id[16] == '1' && STUB_USERS[1].id[16] == '2' && STUB_USERS[2].id[16] == '3';
  }

  /** The directory lists no id twice. */
  lemma DirectoryHasNoDuplicates(
    c: Config, stubUsers: seq<Entry>, listed: Option<seq<Entry>>, hash: Hash, now: int, window: int, rank: string -> int)
    requires UniqueIds(stubUsers) && Keyed(hash)
    requires listed.Some? ==> Lists(listed.value, hash, now, window, rank)
    ensures UniqueIds(GetAssignableUsers(c, stubUsers, listed))
  {
    var users := if listed.Some? then listed.value else [];
    if listed.Some? {
      ListedIds(users, hash, now, window, rank);
    }
    FilteredIds(users, stubUsers);
    var others := Filter(users, (u: Entry) => !HasId(stubUsers, u.id));
    var both := stubUsers + others;
    forall i, j | 0 <= i < j < |both| ensures both[i].id != both[j].id {
      if i < |stubUsers| <= j {
        assert both[j] in others;
        assert stubUsers[i].id == both[i].id;
      }
    }
  }
}
