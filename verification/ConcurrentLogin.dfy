/** Concurrent-login notices: the session keys of each login, the one registry
    entry an identity has, and every way the separate registry reads and writes
    of logins, requests, dismissals and logouts can interleave. */
module ConcurrentLogin {
  import opened Prelude

  type UserId = string
  type SessionId = string

  /** The most recent login of an identity. */
  datatype Entry = Entry(lastLoginAt: int, lastLoginSessionId: SessionId)

  datatype Variant = AlertNotice | InfoNotice

  datatype Notice = Notice(variant: Variant, otherLoginAt: int)

  // ---- What is decided from what was read ----

  /** The info note a login arms: another session's earlier login. */
  function ArmedInfo(previous: Option<Entry>, id: SessionId): Option<int> {
    if previous.Some? && previous.value.lastLoginSessionId != id then Some(previous.value.lastLoginAt) else None
  }

  /** `computeInfoNotice` */
  function ComputeInfo(info: Option<int>, dismissedFor: int): Option<Notice> {
    if info.Some? && info.value != 0 && info.value > dismissedFor then Some(Notice(InfoNotice, info.value)) else None
  }

  /** `computeAlertNotice`, once the registry has been read; a failed read counts
      as nothing found. */
  function ComputeAlert(latest: Option<Entry>, id: SessionId, loginAt: int, dismissedFor: int): Option<Notice> {
    if latest.Some? && latest.value.lastLoginSessionId != id
       && latest.value.lastLoginAt > loginAt && latest.value.lastLoginAt > dismissedFor
    then Some(Notice(AlertNotice, latest.value.lastLoginAt))
    else None
  }

  /** The alert wins over the info note. */
  function ComputeNotice(
    latest: Option<Entry>, id: SessionId, loginAt: int, info: Option<int>, dismissedFor: int): Option<Notice>
  {
    var alert := ComputeAlert(latest, id, loginAt, dismissedFor);
    if alert.Some? then alert else ComputeInfo(info, dismissedFor)
  }

  /** The login a dismissal is recorded against: the one found, or the moment the
      dismissal began. */
  function DismissedAgainst(latest: Option<Entry>, startedAt: int): int {
    if latest.Some? && latest.value.lastLoginAt != 0 then latest.value.lastLoginAt else startedAt
  }

  function Max(a: int, b: int): int {
    if a >= b then a else b
  }

  function Lookup(entries: map<UserId, Entry>, user: UserId): Option<Entry> {
    if user in entries then Some(entries[user]) else None
  }

  /** A request carries the alert exactly for another session's login later than the
      session's own and than the last one dismissed; and otherwise the info note
      exactly while the login it is about has not been dismissed. */
  lemma NoticeExactly(latest: Option<Entry>, id: SessionId, loginAt: int, info: Option<int>, dismissedFor: int, at: int)
    ensures var notice := ComputeNotice(latest, id, loginAt, info, dismissedFor);
            var isAlert := latest.Some? && latest.value.lastLoginSessionId != id
                           && latest.value.lastLoginAt > loginAt && latest.value.lastLoginAt > dismissedFor;
            && (notice == Some(Notice(AlertNotice, at)) <==> isAlert && latest.value.lastLoginAt == at)
            && (notice == Some(Notice(InfoNotice, at)) <==> !isAlert && info == Some(at) && at != 0 && at > dismissedFor)
  {
  }

  // ---- The handlers, run on their own ----

  /** The session keys of one request. */
  class Yar {
    var id: SessionId
    var loginAt: Option<int>
    var info: Option<int>
    var dismissedFor: Option<int>

    constructor (id: SessionId)
      ensures this.id == id && loginAt == None && info == None && dismissedFor == None
    {
      this.id := id;
      loginAt, info, dismissedFor := None, None, None;
    }
  }

  class Registry {
    var entries: map<UserId, Entry>

    constructor ()
      ensures entries == map[]
    {
      entries := map[];
    }
  }

  function OrZero(n: Option<int>): int {
    if n.Some? then n.value else 0
  }

  /** `recordLogin`. `writeTook` is whether the write reached the cache, `at` the
      time it carries. A failed read or write never fails the login. */
  method RecordLogin(registry: Registry, yar: Yar, userId: UserId, readOk: bool, writeTook: bool, at: int)
    returns (previous: Option<Entry>)
    modifies registry
    ensures previous == if userId != "" && readOk then Lookup(old(registry.entries), userId) else None
    ensures registry.entries == if userId != "" && writeTook then old(registry.entries)[userId := Entry(at, yar.id)]
                                else old(registry.entries)
  {
    if userId == "" {
      return None;
    }
    previous := None;
    if readOk {
      previous := Lookup(registry.entries, userId);
    }
    if writeTook {
      registry.entries := registry.entries[userId := Entry(at, yar.id)];
    }
  }

  /** `markLoginAndNotifyPrevious`; the session has just been reset, so as a rule no
      note is armed yet. */
  method MarkLogin(registry: Registry, yar: Yar, userId: UserId, stampAt: int, readOk: bool, writeTook: bool, writeAt: int)
    modifies registry, yar
    ensures yar.loginAt == Some(stampAt) && yar.id == old(yar.id) && yar.dismissedFor == old(yar.dismissedFor)
    ensures var found := if userId != "" && readOk then Lookup(old(registry.entries), userId) else None;
            yar.info == if found.Some? && found.value.lastLoginSessionId != yar.id then Some(found.value.lastLoginAt)
                        else old(yar.info)
    ensures registry.entries == if userId != "" && writeTook then old(registry.entries)[userId := Entry(writeAt, yar.id)]
                                else old(registry.entries)
  {
    yar.loginAt := Some(stampAt);
    var previous := RecordLogin(registry, yar, userId, readOk, writeTook, writeAt);
    if previous.Some? && previous.value.lastLoginSessionId != yar.id {
      yar.info := Some(previous.value.lastLoginAt);
    }
  }

  /** `clearLogin`: the entry goes only if it names the session. */
  method ClearLogin(registry: Registry, yar: Yar, userId: UserId, readOk: bool, dropTook: bool)
    modifies registry
    ensures registry.entries ==
            if userId in old(registry.entries) && userId != "" && readOk && dropTook
               && old(registry.entries)[userId].lastLoginSessionId == yar.id
            then old(registry.entries) - {userId}
            else old(registry.entries)
  {
    if userId == "" || !readOk {
      return;
    }
    var latest := Lookup(registry.entries, userId);
    if latest.Some? && latest.value.lastLoginSessionId == yar.id && dropTook {
      registry.entries := registry.entries - {userId};
    }
  }

  /** `concurrentLoginNoticeExt`, for an authenticated request with the feature
      on: the notice the response carries. */
  method NoticeExt(registry: Registry, yar: Yar, userId: UserId, readOk: bool) returns (notice: Option<Notice>)
    ensures notice == if userId == "" then None
                      else ComputeNotice(if readOk then Lookup(registry.entries, userId) else None, yar.id,
                                         if yar.loginAt.Some? then yar.loginAt.value else 0, yar.info,
                                         if yar.dismissedFor.Some? then yar.dismissedFor.value else 0)
  {
    if userId == "" {
      return None;
    }
    var dismissedFor := OrZero(yar.dismissedFor);
    var latest := None;
    if readOk {
      latest := Lookup(registry.entries, userId);
    }
    notice := ComputeAlert(latest, yar.id, OrZero(yar.loginAt), dismissedFor);
    if notice.None? {
      notice := ComputeInfo(yar.info, dismissedFor);
    }
  }

  /** `dismissNotice` */
  method DismissNotice(registry: Registry, yar: Yar, userId: UserId, readOk: bool, now: int)
    modifies yar
    ensures var latest := if userId != "" && readOk then Lookup(registry.entries, userId) else None;
            var against := if latest.Some? && latest.value.lastLoginAt != 0 then latest.value.lastLoginAt else now;
            var before := if old(yar.dismissedFor).Some? then old(yar.dismissedFor).value else 0;
            yar.dismissedFor == Some(if before >= against then before else against)
    ensures yar.info == None && yar.id == old(yar.id) && yar.loginAt == old(yar.loginAt)
  {
    var latestAt := now;
    if userId != "" && readOk {
      var latest := Lookup(registry.entries, userId);
      if latest.Some? && latest.value.lastLoginAt != 0 {
        latestAt := latest.value.lastLoginAt;
      }
    }
    yar.dismissedFor := Some(Max(OrZero(yar.dismissedFor), latestAt));
    yar.info := None;
  }

  // ---- The interleaved system ----

  /** How far a login has come. */
  datatype Phase =
    | Stamped
    | GotPrevious(previous: Option<Entry>)
    | Written(previous: Option<Entry>)
    | LoggedIn

  /** A session from its login on. `wrote` is whether its own registry write took
      effect; `seen` is how many logins had been recorded when the last of its
      completed dismissals began, if there is one. */
  datatype Session = Session(
    user: UserId, phase: Phase, wrote: bool, loginAt: int, info: Option<int>, dismissedFor: int, seen: Option<nat>)

  /** A request under way: a page waiting for its notice, or a dismissal. `seen`
      of a page is the session's when it read the mark; `begun` of a dismissal is
      how many logins had been recorded when it began. */
  datatype Request =
    | PageBegun(id: SessionId, mark: int, seen: Option<nat>)
    | PageRead(id: SessionId, mark: int, seen: Option<nat>, latest: Option<Entry>)
    | DismissBegun(id: SessionId, startedAt: int, begun: nat)
    | DismissRead(id: SessionId, latestAt: int, begun: nat)

  /** A login the registry was told of. */
  datatype Login = Login(user: UserId, at: int, id: SessionId)

  datatype World = World(
    now: int,
    registry: map<UserId, Entry>,
    sessions: map<SessionId, Session>,
    requests: map<nat, Request>,
    recorded: seq<Login>)

  const START := World(0, map[], map[], map[], [])

  /** One atomic step. `ok` is whether a read succeeds, `took` whether a write
      takes effect, `at` what `Date.now()` answers. An entry may go at any time:
      by logout, or because it expired. */
  datatype Label =
    | Stamp(id: SessionId, user: UserId, at: int)
    | LoginGet(id: SessionId, ok: bool)
    | LoginSet(id: SessionId, at: int, took: bool)
    | LoginDone(id: SessionId)
    | BeginPage(r: nat, id: SessionId)
    | PageGet(r: nat, ok: bool)
    | Answer(r: nat)
    | BeginDismiss(r: nat, id: SessionId, at: int)
    | DismissGet(r: nat, ok: bool)
    | EndDismiss(r: nat)
    | Drop(user: UserId)

  predicate InPhase(w: World, id: SessionId, loggedIn: bool) {
    id in w.sessions && (w.sessions[id].phase.LoggedIn? <==> loggedIn)
  }

  /** Session ids are fresh, the clock only moves forward, and only a session that
      has finished logging in makes requests. */
  predicate CanStep(w: World, l: Label) {
    match l
    case Stamp(id, user, at) => id !in w.sessions && user != "" && at > w.now
    case LoginGet(id, _) => id in w.sessions && w.sessions[id].phase.Stamped?
    case LoginSet(id, at, _) => id in w.sessions && w.sessions[id].phase.GotPrevious? && at > w.now
    case LoginDone(id) => id in w.sessions && w.sessions[id].phase.Written?
    case BeginPage(r, id) => r !in w.requests && InPhase(w, id, true)
    case PageGet(r, _) => r in w.requests && w.requests[r].PageBegun? && w.requests[r].id in w.sessions
    case Answer(r) => r in w.requests && w.requests[r].PageRead? && w.requests[r].id in w.sessions
    case BeginDismiss(r, id, at) => r !in w.requests && InPhase(w, id, true) && at > w.now
    case DismissGet(r, _) => r in w.requests && w.requests[r].DismissBegun? && w.requests[r].id in w.sessions
    case EndDismiss(r) => r in w.requests && w.requests[r].DismissRead? && w.requests[r].id in w.sessions
    case Drop(_) => true
  }

  function Later(seen: Option<nat>, begun: nat): Option<nat> {
    if seen.Some? && seen.value >= begun then seen else Some(begun)
  }

  function ReadFor(w: World, id: SessionId, ok: bool): Option<Entry>
    requires id in w.sessions
  {
    if ok then Lookup(w.registry, w.sessions[id].user) else None
  }

  function Next(w: World, l: Label): World
    requires CanStep(w, l)
  {
    match l
    case Stamp(id, user, at) =>
      w.(now := at, sessions := w.sessions[id := Session(user, Stamped, false, at, None, 0, None)])
    case LoginGet(id, ok) =>
      w.(sessions := w.sessions[id := w.sessions[id].(phase := GotPrevious(ReadFor(w, id, ok)))])
    case LoginSet(id, at, took) =>
      var s := w.sessions[id];
      var written := w.(now := at, sessions := w.sessions[id := s.(phase := Written(s.phase.previous), wrote := took)]);
      if took
      then written.(registry := w.registry[s.user := Entry(at, id)], recorded := w.recorded + [Login(s.user, at, id)])
      else written
    case LoginDone(id) =>
      var s := w.sessions[id];
      w.(sessions := w.sessions[id := s.(phase := LoggedIn, info := ArmedInfo(s.phase.previous, id))])
    case BeginPage(r, id) =>
      w.(requests := w.requests[r := PageBegun(id, w.sessions[id].dismissedFor, w.sessions[id].seen)])
    case PageGet(r, ok) =>
      var q := w.requests[r];
      w.(requests := w.requests[r := PageRead(q.id, q.mark, q.seen, ReadFor(w, q.id, ok))])
    case Answer(r) =>
      w.(requests := w.requests - {r})
    case BeginDismiss(r, id, at) =>
      w.(now := at, requests := w.requests[r := DismissBegun(id, at, |w.recorded|)])
    case DismissGet(r, ok) =>
      var q := w.requests[r];
      w.(requests := w.requests[r := DismissRead(q.id, DismissedAgainst(ReadFor(w, q.id, ok), q.startedAt), q.begun)])
    case EndDismiss(r) =>
      var q := w.requests[r];
      var s := w.sessions[q.id];
      w.(requests := w.requests - {r},
         sessions := w.sessions[q.id := s.(dismissedFor := Max(s.dismissedFor, q.latestAt), info := None,
                                           seen := Later(s.seen, q.begun))])
    case Drop(user) => w.(registry := w.registry - {user})
  }

  /** The notice an `Answer` step puts on the page. */
  function NoticeOf(w: World, r: nat): Option<Notice>
    requires CanStep(w, Answer(r))
  {
    var q := w.requests[r];
    var s := w.sessions[q.id];
    ComputeNotice(q.latest, q.id, s.loginAt, s.info, q.mark)
  }

  ghost predicate IsRun(ws: seq<World>, ls: seq<Label>) {
    && |ws| == |ls| + 1 && ws[0] == START
    && forall i :: 0 <= i < |ls| ==> CanStep(ws[i], ls[i]) && ws[i + 1] == Next(ws[i], ls[i])
  }

  ghost predicate Reachable(w: World) {
    exists ws, ls :: IsRun(ws, ls) && ws[|ws| - 1] == w
  }

  // ---- What every interleaving keeps ----

  /** Every one of the first `n` recorded logins of an identity is no later than
      `at`. */
  ghost predicate NoneLater(recorded: seq<Login>, n: nat, user: UserId, at: int) {
    forall i :: 0 <= i < n && i < |recorded| && recorded[i].user == user ==> recorded[i].at <= at
  }

  ghost predicate IsRecorded(w: World, user: UserId, e: Entry) {
    exists i :: 0 <= i < |w.recorded| && w.recorded[i] == Login(user, e.lastLoginAt, e.lastLoginSessionId)
  }

  /** The entry is the latest login recorded for the identity. */
  ghost predicate IsLatest(recorded: seq<Login>, user: UserId, e: Entry) {
    && NoneLater(recorded, |recorded|, user, e.lastLoginAt)
    && Login(user, e.lastLoginAt, e.lastLoginSessionId) in recorded
  }

  /** The login a session found on signing in is another session's. */
  predicate IsOthers(previous: Option<Entry>, id: SessionId) {
    previous.Some? ==> previous.value.lastLoginAt > 0 && previous.value.lastLoginSessionId != id
  }

  /** A recorded login is the own write of a session, made after its stamp. */
  ghost predicate Owned(w: World, i: nat)
    requires i < |w.recorded|
  {
    var l := w.recorded[i];
    && 0 < l.at <= w.now
    && l.id in w.sessions
    && var s := w.sessions[l.id];
    s.wrote && s.user == l.user && s.loginAt < l.at
  }

  ghost predicate GoodSession(w: World, id: SessionId)
    requires id in w.sessions
  {
    var s := w.sessions[id];
    && 0 < s.loginAt <= w.now
    && (s.wrote ==> exists i :: 0 <= i < |w.recorded| && w.recorded[i].user == s.user && w.recorded[i].id == id
                                && w.recorded[i].at > s.loginAt)
    && (s.wrote ==> s.phase.Written? || s.phase.LoggedIn?)
    && (s.phase.GotPrevious? || s.phase.Written? ==> IsOthers(s.phase.previous, id))
    && 0 <= s.dismissedFor <= w.now
    && (s.seen.None? ==> s.dismissedFor == 0)
    && (s.seen.Some? ==> s.phase.LoggedIn? && s.info == None && HeardUpTo(w, s.seen, s.user, s.dismissedFor))
  }

  ghost predicate GoodRequest(w: World, r: nat)
    requires r in w.requests
  {
    var q := w.requests[r];
    && q.id in w.sessions && w.sessions[q.id].phase.LoggedIn?
    && var s := w.sessions[q.id];
    match q
    case PageBegun(_, mark, seen) =>
      HeardUpTo(w, seen, s.user, mark) && (seen.Some? ==> s.seen.Some?) && mark <= s.dismissedFor
    case PageRead(_, mark, seen, latest) =>
      && HeardUpTo(w, seen, s.user, mark) && (seen.Some? ==> s.seen.Some?) && mark <= s.dismissedFor
      && (latest.Some? ==> Told(s, q.id, latest.value) && IsRecorded(w, s.user, latest.value))
    case DismissBegun(_, startedAt, begun) => startedAt <= w.now && HeardUpTo(w, Some(begun), s.user, startedAt)
    case DismissRead(_, latestAt, begun) => latestAt <= w.now && HeardUpTo(w, Some(begun), s.user, latestAt)
  }

  /** A mark covers every login of the identity recorded by then. */
  ghost predicate HeardUpTo(w: World, seen: Option<nat>, user: UserId, mark: int) {
    seen.Some? ==> seen.value <= |w.recorded| && NoneLater(w.recorded, seen.value, user, mark)
  }

  /** What a session may find in the registry: never itself unless its own write
      took effect, and then nothing but a login after its stamp. */
  predicate Told(s: Session, id: SessionId, e: Entry) {
    && e.lastLoginAt > 0
    && (e.lastLoginSessionId == id ==> s.wrote)
    && (s.wrote ==> e.lastLoginAt > s.loginAt)
  }

  ghost predicate Good(w: World) {
    && w.now >= 0
    && (forall i :: 0 <= i < |w.recorded| ==> Owned(w, i))
    && (forall user :: user in w.registry ==> IsLatest(w.recorded, user, w.registry[user]))
    && (forall id :: id in w.sessions ==> GoodSession(w, id))
    && (forall r :: r in w.requests ==> GoodRequest(w, r))
  }

  /** What another session or request may rely on while a step is taken. */
  ghost predicate Preserves(w: World, w': World) {
    && w.now <= w'.now && |w.recorded| <= |w'.recorded|
    && (forall i :: 0 <= i < |w.recorded| ==> w'.recorded[i] == w.recorded[i])
    && (forall id :: id in w.sessions ==> id in w'.sessions && SameSession(w.sessions[id], w'.sessions[id]))
  }

  predicate SameSession(s: Session, s': Session) {
    && s'.user == s.user && s'.loginAt == s.loginAt
    && (s.wrote ==> s'.wrote) && s.dismissedFor <= s'.dismissedFor
    && (s.phase.LoggedIn? ==> s'.phase.LoggedIn? && s'.wrote == s.wrote && (s.seen.Some? ==> s'.seen.Some?))
  }

  lemma RequestSurvives(w: World, w': World, r: nat)
    requires r in w.requests && r in w'.requests && w'.requests[r] == w.requests[r]
    requires GoodRequest(w, r) && Preserves(w, w')
    ensures GoodRequest(w', r)
  {
  }

  lemma SessionSurvives(w: World, w': World, id: SessionId)
    requires id in w.sessions && id in w'.sessions && w'.sessions[id] == w.sessions[id]
    requires GoodSession(w, id) && Preserves(w, w')
    ensures GoodSession(w', id)
  {
  }

  lemma OwnedSurvives(w: World, w': World, i: nat)
    requires i < |w.recorded| && Owned(w, i) && Preserves(w, w')
    ensures Owned(w', i)
  {
  }

  /** A good world stays good when the registry still holds latest logins and the
      session and the request a step changes are good. */
  lemma GoodAfter(w: World, w': World, id: Option<SessionId>, r: Option<nat>)
    requires Good(w) && Preserves(w, w')
    requires forall i :: |w.recorded| <= i < |w'.recorded| ==> Owned(w', i)
    requires forall user :: user in w'.registry ==> IsLatest(w'.recorded, user, w'.registry[user])
    requires forall k :: k in w'.sessions && Some(k) != id ==> k in w.sessions && w'.sessions[k] == w.sessions[k]
    requires forall k :: k in w'.requests && Some(k) != r ==> k in w.requests && w'.requests[k] == w.requests[k]
    requires id.Some? && id.value in w'.sessions ==> GoodSession(w', id.value)
    requires r.Some? && r.value in w'.requests ==> GoodRequest(w', r.value)
    ensures Good(w')
  {
    hide GoodSession, GoodRequest, IsLatest, Owned;
    forall i | 0 <= i < |w'.recorded| ensures Owned(w', i) {
      if i < |w.recorded| {
        OwnedSurvives(w, w', i);
      }
    }
    hide SameSession;
    forall k | k in w'.sessions ensures GoodSession(w', k) {
      if Some(k) != id {
        SessionSurvives(w, w', k);
      }
    }
    forall k | k in w'.requests ensures GoodRequest(w', k) {
      if Some(k) != r {
        RequestSurvives(w, w', k);
      }
    }
  }

  lemma StepPreserves(w: World, l: Label)
    requires Good(w) && CanStep(w, l)
    ensures Preserves(w, Next(w, l))
  {
    hide GoodRequest, IsLatest, Owned;
    if l.LoginSet? {
      assert GoodSession(w, l.id);
    }
  }

  /** What a read finds is the latest login recorded. */
  lemma FoundIsTold(w: World, id: SessionId, ok: bool)
    requires Good(w) && id in w.sessions && ReadFor(w, id, ok).Some?
    ensures Told(w.sessions[id], id, ReadFor(w, id, ok).value)
    ensures NoneLater(w.recorded, |w.recorded|, w.sessions[id].user, ReadFor(w, id, ok).value.lastLoginAt)
    ensures IsRecorded(w, w.sessions[id].user, ReadFor(w, id, ok).value)
    ensures ReadFor(w, id, ok).value.lastLoginAt <= w.now
  {
    hide GoodRequest;
    var s, e := w.sessions[id], ReadFor(w, id, ok).value;
    assert GoodSession(w, id);
    assert IsLatest(w.recorded, s.user, e);
    var i :| 0 <= i < |w.recorded| && w.recorded[i] == Login(s.user, e.lastLoginAt, e.lastLoginSessionId);
    assert Owned(w, i);
  }

  lemma RecordedBefore(w: World)
    requires Good(w)
    ensures forall i :: 0 <= i < |w.recorded| ==> 0 < w.recorded[i].at <= w.now
  {
    forall i | 0 <= i < |w.recorded| ensures 0 < w.recorded[i].at <= w.now {
      assert Owned(w, i);
    }
  }

  lemma LoginStepKeeps(w: World, l: Label)
    requires Good(w) && CanStep(w, l) && (l.Stamp? || l.LoginGet? || l.LoginDone? || (l.LoginSet? && !l.took))
    ensures Good(Next(w, l))
  {
    hide GoodRequest, IsLatest;
    StepPreserves(w, l);
    assert l.id in w.sessions ==> GoodSession(w, l.id);
    if l.LoginGet? && ReadFor(w, l.id, l.ok).Some? {
      FoundIsTold(w, l.id, l.ok);
    }
    GoodAfter(w, Next(w, l), Some(l.id), None);
  }

  lemma LoginSetKeeps(w: World, l: Label)
    requires Good(w) && CanStep(w, l) && l.LoginSet? && l.took
    ensures Good(Next(w, l))
  {
    hide GoodRequest;
    StepPreserves(w, l);
    RecordedBefore(w);
    var w', s := Next(w, l), w.sessions[l.id];
    var n := |w.recorded|;
    assert GoodSession(w, l.id);
    assert w'.recorded[n] == Login(s.user, l.at, l.id);
    forall user | user in w'.registry ensures IsLatest(w'.recorded, user, w'.registry[user]) {
      if user != s.user {
        assert IsLatest(w.recorded, user, w.registry[user]);
      }
    }
    assert GoodSession(w', l.id);
    GoodAfter(w, w', Some(l.id), None);
  }

  lemma PageStepKeeps(w: World, l: Label)
    requires Good(w) && CanStep(w, l) && (l.BeginPage? || l.PageGet? || l.Answer?)
    ensures Good(Next(w, l))
  {
    hide IsLatest, NoneLater;
    StepPreserves(w, l);
    if l.BeginPage? {
      assert GoodSession(w, l.id);
    } else {
      assert GoodRequest(w, l.r);
    }
    if l.PageGet? && ReadFor(w, w.requests[l.r].id, l.ok).Some? {
      FoundIsTold(w, w.requests[l.r].id, l.ok);
    }
    GoodAfter(w, Next(w, l), None, Some(l.r));
  }

  lemma DismissGetKeeps(w: World, l: Label)
    requires Good(w) && CanStep(w, l) && (l.BeginDismiss? || l.DismissGet?)
    ensures Good(Next(w, l))
  {
    hide IsLatest, GoodSession;
    StepPreserves(w, l);
    RecordedBefore(w);
    if l.DismissGet? {
      assert GoodRequest(w, l.r);
      if ReadFor(w, w.requests[l.r].id, l.ok).Some? {
        FoundIsTold(w, w.requests[l.r].id, l.ok);
      }
    }
    GoodAfter(w, Next(w, l), None, Some(l.r));
  }

  lemma EndDismissKeeps(w: World, l: Label)
    requires Good(w) && CanStep(w, l) && l.EndDismiss?
    ensures Good(Next(w, l))
  {
    hide IsLatest;
    StepPreserves(w, l);
    var id := w.requests[l.r].id;
    assert GoodRequest(w, l.r) && GoodSession(w, id);
    assert GoodSession(Next(w, l), id);
    GoodAfter(w, Next(w, l), Some(id), Some(l.r));
  }

  lemma DropKeeps(w: World, l: Label)
    requires Good(w) && CanStep(w, l) && l.Drop?
    ensures Good(Next(w, l))
  {
    hide IsLatest, GoodSession, GoodRequest;
    StepPreserves(w, l);
    GoodAfter(w, Next(w, l), None, None);
  }

  lemma StepKeeps(w: World, l: Label)
    requires Good(w) && CanStep(w, l)
    ensures Good(Next(w, l))
  {
    hide Good, Next, CanStep;
    if l.Drop? {
      DropKeeps(w, l);
    } else if l.EndDismiss? {
      EndDismissKeeps(w, l);
    } else if l.BeginDismiss? || l.DismissGet? {
      DismissGetKeeps(w, l);
    } else if l.BeginPage? || l.PageGet? || l.Answer? {
      PageStepKeeps(w, l);
    } else if l.LoginSet? && l.took {
      LoginSetKeeps(w, l);
    } else {
      LoginStepKeeps(w, l);
    }
  }

  lemma {:induction false} RunIsGood(ws: seq<World>, ls: seq<Label>, i: nat)
    requires IsRun(ws, ls) && i < |ws|
    ensures Good(ws[i])
  {
    if i > 0 {
      RunIsGood(ws, ls, i - 1);
      StepKeeps(ws[i - 1], ls[i - 1]);
    }
  }

  lemma ReachableIsGood(w: World)
    requires Reachable(w)
    ensures Good(w)
  {
    var ws, ls :| IsRun(ws, ls) && ws[|ws| - 1] == w;
    RunIsGood(ws, ls, |ws| - 1);
  }

  // ---- What the notices tell ----

  /** What a finished session is promised of the registry: no entry for its
      identity, an entry that names it, or a later login. */
  predicate Promise(w: World, id: SessionId)
    requires id in w.sessions
  {
    var s := w.sessions[id];
    || s.user !in w.registry
    || w.registry[s.user].lastLoginSessionId == id
    || w.registry[s.user].lastLoginAt > s.loginAt
  }

  /** A login of the identity has been recorded since the session's stamp, by
      whichever session. */
  ghost predicate RecordedSince(w: World, id: SessionId)
    requires id in w.sessions
  {
    exists i :: 0 <= i < |w.recorded| && w.recorded[i].user == w.sessions[id].user
                && w.recorded[i].at > w.sessions[id].loginAt
  }

  /** In every interleaving of logins, requests, dismissals and logouts, the
      promise holds exactly when the entry is gone or some login of the identity
      has been recorded since the session was stamped. */
  lemma RegistryTellsExactly(w: World, id: SessionId)
    requires Reachable(w) && id in w.sessions
    ensures Promise(w, id) <==> w.sessions[id].user !in w.registry || RecordedSince(w, id)
  {
    hide GoodRequest;
    ReachableIsGood(w);
    var s := w.sessions[id];
    if s.user in w.registry {
      FoundIsTold(w, id, true);
      var e := w.registry[s.user];
      assert ReadFor(w, id, true) == Some(e);
      var k :| 0 <= k < |w.recorded| && w.recorded[k] == Login(s.user, e.lastLoginAt, e.lastLoginSessionId);
      assert Owned(w, k);
    }
  }

  /** So it holds for every session whose own write took effect. */
  lemma RegistryTells(w: World, id: SessionId)
    requires Reachable(w) && id in w.sessions && w.sessions[id].wrote
    ensures Promise(w, id)
  {
    ReachableIsGood(w);
    assert GoodSession(w, id);
    RegistryTellsExactly(w, id);
  }

  /** A page carries the alert exactly when the entry it read names another
      session, is later than the login its session dismissed last, and, for a
      session whose own write was lost, later than its stamp too; whatever
      happened between the read and the answer. With nothing dismissed the mark is
      0, and every session that wrote is alerted unless the entry names it. */
  lemma AlertExactly(w: World, r: nat)
    requires Reachable(w) && CanStep(w, Answer(r))
    ensures var q, notice := w.requests[r], NoticeOf(w, r);
            var s := w.sessions[q.id];
            && ((notice.Some? && notice.value.variant == AlertNotice)
                <==> && q.latest.Some? && q.latest.value.lastLoginSessionId != q.id && q.latest.value.lastLoginAt > q.mark
                     && (s.wrote || q.latest.value.lastLoginAt > s.loginAt))
            && (q.latest.Some? ==> q.latest.value.lastLoginAt > 0)
  {
    ReachableIsGood(w);
    assert GoodRequest(w, r);
  }

  /** The moment another session records a login, every finished session of the
      identity is due the alert, whatever it has dismissed before. */
  lemma NewLoginIsTold(w: World, id: SessionId, other: SessionId, at: int)
    requires Reachable(w) && CanStep(w, LoginSet(other, at, true)) && id != other
    requires id in w.sessions && w.sessions[id].phase.LoggedIn? && w.sessions[id].user == w.sessions[other].user
    ensures var w' := Next(w, LoginSet(other, at, true));
            var s := w'.sessions[id];
            ComputeAlert(Lookup(w'.registry, s.user), id, s.loginAt, s.dismissedFor) == Some(Notice(AlertNotice, at))
  {
    ReachableIsGood(w);
    assert GoodSession(w, id);
  }

  /** What the session's keys say of the login its registry read found, from the
      read until a dismissal has ended. */
  predicate RemembersFound(s: Session, found: Option<Entry>) {
    match s.phase
    case Stamped => false
    case GotPrevious(previous) => previous == found
    case Written(previous) => previous == found
    case LoggedIn => s.seen.None? ==> s.info == (if found.Some? then Some(found.value.lastLoginAt) else None)
  }

  lemma StepRemembers(w: World, l: Label, id: SessionId, found: Option<Entry>)
    requires Good(w) && CanStep(w, l) && id in w.sessions
    requires RemembersFound(w.sessions[id], found)
    ensures id in Next(w, l).sessions && RemembersFound(Next(w, l).sessions[id], found)
  {
    hide GoodRequest, IsLatest, Owned, HeardUpTo;
    assert GoodSession(w, id);
  }

  lemma {:induction false} RunRemembers(ws: seq<World>, ls: seq<Label>, g: nat, j: nat)
    requires IsRun(ws, ls) && g < j < |ws| && ls[g].LoginGet?
    ensures ls[g].id in ws[g].sessions && ls[g].id in ws[j].sessions
    ensures RemembersFound(ws[j].sessions[ls[g].id], ReadFor(ws[g], ls[g].id, ls[g].ok))
    decreases j
  {
    if g + 1 < j {
      hide Good, RemembersFound, Next;
      RunRemembers(ws, ls, g, j - 1);
      RunIsGood(ws, ls, j - 1);
      StepRemembers(ws[j - 1], ls[j - 1], ls[g].id, ReadFor(ws[g], ls[g].id, ls[g].ok));
    }
  }

  /** In every run, until a session has dismissed anything, each of its pages
      without an alert carries the info note about the login its registry read
      found on signing in, and none if it found none or failed. */
  lemma InfoTellsExactly(ws: seq<World>, ls: seq<Label>, g: nat, j: nat)
    requires IsRun(ws, ls) && g < j < |ls| && ls[g].LoginGet? && ls[j].Answer?
    requires ws[j].requests[ls[j].r].id == ls[g].id && ws[j].sessions[ls[g].id].seen == None
    ensures var q, s := ws[j].requests[ls[j].r], ws[j].sessions[ls[g].id];
            var found := ReadFor(ws[g], ls[g].id, ls[g].ok);
            NoticeOf(ws[j], ls[j].r) ==
            if ComputeAlert(q.latest, q.id, s.loginAt, q.mark).Some? then ComputeAlert(q.latest, q.id, s.loginAt, q.mark)
            else if found.Some? then Some(Notice(InfoNotice, found.value.lastLoginAt))
            else None
  {
    hide IsLatest, Owned, HeardUpTo, Next;
    RunRemembers(ws, ls, g, j);
    RunIsGood(ws, ls, j);
    RunIsGood(ws, ls, g);
    var id := ls[g].id;
    assert GoodSession(ws[j], id) && GoodRequest(ws[j], ls[j].r);
    if ReadFor(ws[g], id, ls[g].ok).Some? {
      FoundIsTold(ws[g], id, ls[g].ok);
    }
  }

  lemma {:induction false} RecordedGrows(ws: seq<World>, ls: seq<Label>, i: nat, j: nat)
    requires IsRun(ws, ls) && i <= j < |ws|
    ensures |ws[i].recorded| <= |ws[j].recorded|
    ensures forall k :: 0 <= k < |ws[i].recorded| ==> ws[j].recorded[k] == ws[i].recorded[k]
    ensures forall id :: id in ws[i].sessions ==> id in ws[j].sessions && ws[j].sessions[id].user == ws[i].sessions[id].user
    decreases j
  {
    hide Next, CanStep, Good;
    if i < j {
      RecordedGrows(ws, ls, i, j - 1);
      RunIsGood(ws, ls, j - 1);
      StepPreserves(ws[j - 1], ls[j - 1]);
    }
  }

  /** A later read of the registry never finds an earlier login. */
  lemma LaterReadIsLater(ws: seq<World>, ls: seq<Label>, i: nat, j: nat, id: SessionId)
    requires IsRun(ws, ls) && i <= j < |ws| && id in ws[i].sessions && id in ws[j].sessions
    requires ReadFor(ws[i], id, true).Some? && ReadFor(ws[j], id, true).Some?
    ensures 0 < ReadFor(ws[i], id, true).value.lastLoginAt <= ReadFor(ws[j], id, true).value.lastLoginAt
  {
    hide Good, Next;
    RunIsGood(ws, ls, i);
    RunIsGood(ws, ls, j);
    RecordedGrows(ws, ls, i, j);
    FoundIsTold(ws[i], id, true);
    FoundIsTold(ws[j], id, true);
  }

  /** The promise does fail: whenever an identity with an entry signs in again,
      uninterrupted, and the registry write is lost, the session is logged in,
      the entry names another and is no later than its stamp, and no alert tells
      it so. */
  lemma UnwrittenLogin(w: World, id: SessionId, user: UserId, at1: int, at2: int)
    requires Reachable(w) && id !in w.sessions && user != "" && w.now < at1 < at2
    requires user in w.registry
    ensures var w1 := Next(w, Stamp(id, user, at1));
            var w2 := Next(w1, LoginGet(id, true));
            var w3 := Next(w2, LoginSet(id, at2, false));
            var w4 := Next(w3, LoginDone(id));
            && Reachable(w4) && w4.sessions[id].phase.LoggedIn?
            && !Promise(w4, id)
            && ComputeAlert(Lookup(w4.registry, user), id, w4.sessions[id].loginAt, 0) == None
  {
    hide Good;
    ReachableIsGood(w);
    EntryNotLate(w, user);
    var w1 := Next(w, Stamp(id, user, at1));
    var w2 := Next(w1, LoginGet(id, true));
    var w3 := Next(w2, LoginSet(id, at2, false));
    StepReaches(w, Stamp(id, user, at1));
    StepReaches(w1, LoginGet(id, true));
    StepReaches(w2, LoginSet(id, at2, false));
    StepReaches(w3, LoginDone(id));
  }

  lemma EntryNotLate(w: World, user: UserId)
    requires Good(w) && user in w.registry
    ensures 0 < w.registry[user].lastLoginAt <= w.now && w.registry[user].lastLoginSessionId in w.sessions
  {
    var e := w.registry[user];
    assert IsLatest(w.recorded, user, e);
    var i :| 0 <= i < |w.recorded| && w.recorded[i] == Login(user, e.lastLoginAt, e.lastLoginSessionId);
    assert Owned(w, i);
  }

  lemma StepReaches(w: World, l: Label)
    requires Reachable(w) && CanStep(w, l)
    ensures Reachable(Next(w, l))
  {
    hide Next, CanStep;
    var ws, ls :| IsRun(ws, ls) && ws[|ws| - 1] == w;
    var ws', ls' := ws + [Next(w, l)], ls + [l];
    assert IsRun(ws', ls') && ws'[|ws'| - 1] == Next(w, l);
  }

  // ---- Dismissals ----

  /** After a dismissal a page carries no notice until a login for the identity
      has been recorded later than every login recorded before the dismissal
      began; and then it is the alert, never the info note. */
  lemma QuietUntilLaterLogin(w: World, r: nat)
    requires Reachable(w) && CanStep(w, Answer(r)) && w.requests[r].seen.Some? && NoticeOf(w, r).Some?
    ensures var q, notice := w.requests[r], NoticeOf(w, r).value;
            var user := w.sessions[q.id].user;
            && notice.variant == AlertNotice
            && (forall i :: 0 <= i < q.seen.value && i < |w.recorded| && w.recorded[i].user == user
                  ==> w.recorded[i].at < notice.otherLoginAt)
            && (exists i :: q.seen.value <= i < |w.recorded| && w.recorded[i].user == user
                            && w.recorded[i].at == notice.otherLoginAt && w.recorded[i].id != q.id)
  {
    ReachableIsGood(w);
    assert GoodRequest(w, r);
    var q := w.requests[r];
    assert GoodSession(w, q.id);
    var i :| 0 <= i < |w.recorded|
             && w.recorded[i] == Login(w.sessions[q.id].user, q.latest.value.lastLoginAt, q.latest.value.lastLoginSessionId);
    assert i >= q.seen.value;
  }

  predicate SeenAtLeast(seen: Option<nat>, n: nat) {
    seen.Some? && seen.value >= n
  }

  lemma StepKeepsMark(w: World, l: Label, id: SessionId)
    requires CanStep(w, l) && id in w.sessions
    ensures id in Next(w, l).sessions
    ensures Next(w, l).sessions[id].dismissedFor >= w.sessions[id].dismissedFor
    ensures w.sessions[id].seen.Some? ==> SeenAtLeast(Next(w, l).sessions[id].seen, w.sessions[id].seen.value)
  {
  }

  /** Within a session the dismissed-for mark never decreases, and a dismissal is
      never forgotten. */
  lemma {:induction false} MarkNeverDecreases(ws: seq<World>, ls: seq<Label>, id: SessionId, i: nat, j: nat)
    requires IsRun(ws, ls) && i <= j < |ws| && id in ws[i].sessions
    ensures id in ws[j].sessions && ws[j].sessions[id].dismissedFor >= ws[i].sessions[id].dismissedFor
    ensures ws[i].sessions[id].seen.Some? ==> SeenAtLeast(ws[j].sessions[id].seen, ws[i].sessions[id].seen.value)
    decreases j
  {
    hide Next, CanStep;
    if i < j {
      MarkNeverDecreases(ws, ls, id, i, j - 1);
      StepKeepsMark(ws[j - 1], ls[j - 1], id);
    }
  }

  /** Every page a session begins after one of its dismissals has ended counts
      all the logins recorded when that dismissal began as seen, even if the
      dismissal's own registry read failed or found nothing. */
  lemma DismissalIsSeen(ws: seq<World>, ls: seq<Label>, i: nat, j: nat)
    requires IsRun(ws, ls) && i < j < |ls| && ls[i].EndDismiss? && ls[j].BeginPage?
    requires ws[i].requests[ls[i].r].id == ls[j].id
    ensures ls[j].r in ws[j + 1].requests
    ensures SeenAtLeast(ws[j + 1].requests[ls[j].r].seen, ws[i].requests[ls[i].r].begun)
  {
    MarkNeverDecreases(ws, ls, ls[j].id, i + 1, j);
  }

  // ---- The handlers are the steps taken together ----

  /** A login nobody interrupts leaves what `MarkLogin` does. */
  lemma LoginAlone(w: World, id: SessionId, user: UserId, at1: int, readOk: bool, at2: int, took: bool)
    requires id !in w.sessions && user != "" && w.now < at1 < at2
    ensures var w3 := Next(Next(Next(w, Stamp(id, user, at1)), LoginGet(id, readOk)), LoginSet(id, at2, took));
            var w' := Next(w3, LoginDone(id));
            && w'.sessions[id] == Session(user, LoggedIn, took, at1,
                                          ArmedInfo(if readOk then Lookup(w.registry, user) else None, id), 0, None)
            && w'.registry == if took then w.registry[user := Entry(at2, id)] else w.registry
  {
  }

  /** A page nobody interrupts carries what `NoticeExt` computes. */
  lemma PageAlone(w: World, r: nat, id: SessionId, readOk: bool)
    requires CanStep(w, BeginPage(r, id))
    ensures var w' := Next(Next(w, BeginPage(r, id)), PageGet(r, readOk));
            var s := w.sessions[id];
            && CanStep(w', Answer(r))
            && NoticeOf(w', r) == ComputeNotice(if readOk then Lookup(w.registry, s.user) else None,
                                                id, s.loginAt, s.info, s.dismissedFor)
  {
  }

  /** A dismissal nobody interrupts sets the mark `DismissNotice` sets. */
  lemma DismissAlone(w: World, r: nat, id: SessionId, at: int, readOk: bool)
    requires CanStep(w, BeginDismiss(r, id, at))
    ensures var w' := Next(Next(Next(w, BeginDismiss(r, id, at)), DismissGet(r, readOk)), EndDismiss(r));
            var s := w.sessions[id];
            && w'.sessions[id].info == None
            && w'.sessions[id].dismissedFor
               == Max(s.dismissedFor, DismissedAgainst(if readOk then Lookup(w.registry, s.user) else None, at))
  {
  }
}
