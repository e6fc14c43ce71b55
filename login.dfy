/** The login page: recording one login per signed-in user and browser
    session, and the "latest five logins" history view.

    The write guard runs whenever the authentication status or the user
    changes.  It writes a login record only for an authenticated user with
    a login id, when this mount is not already writing and the session
    storage has no `hasLogged_<id>` mark; the mark is stored once the
    create call succeeds.  The history view subscribes once to the login
    list and shows, of every snapshot, the five newest entries that carry
    a login time.  Times are integers (milliseconds since the epoch); the
    data service, the session storage and the router are state of the
    model, not code. */
module Login {
  import opened Wrappers

  /** `authStatus` as the authenticator reports it. */
  datatype AuthStatus = Configuring | Unauthenticated | Authenticated

  /** The signed-in user, as far as the page reads it:
      `user.signInDetails?.loginId`. */
  datatype User = User(loginId: Option<string>)

  /** A record handed to the create call. */
  datatype LoginRecord = LoginRecord(uid: string, loginTime: int)

  /** An entry of a snapshot of the login list; `loginTime` may be absent. */
  datatype LoginItem = LoginItem(id: string, uid: string, loginTime: Option<int>)

  /** The JST shift added to the current time: nine hours in milliseconds. */
  const JstOffset := 9 * 60 * 60 * 1000

  /** How many logins the history shows. */
  const HistorySize := 5

  /** The session key that marks a user's login as recorded. */
  function SessionKey(loginId: string): (key: string)
    ensures |key| == 10 + |loginId| && key[..10] == "hasLogged_" && key[10..] == loginId
  {
    "hasLogged_" + loginId
  }

  /** `sessionStorage.getItem(key)` is truthy: present and not empty. */
  predicate IsMarked(session: map<string, string>, key: string)
    ensures IsMarked(session, key) ==> key in session
    ensures key in session && session[key] != "" ==> IsMarked(session, key)
  {
    key in session && session[key] != ""
  }

  /** Different users have different session keys, so marking one user's
      login never blocks another's. */
  lemma {:induction false} SessionKeysDistinct(a: string, b: string)
    requires a != b
    ensures SessionKey(a) != SessionKey(b)
  {
    assert SessionKey(a)[10..] == a && SessionKey(b)[10..] == b;
  }

  /** The stored login time for the current time `now`. */
  function JstTimestamp(now: int): (t: int)
    ensures t - now == 32400000
  {
    now + JstOffset
  }

  /** The guard of the write effect: the login id to record for, or nothing.
      A write happens exactly for an authenticated user with a non-empty
      login id, when no write has started in this mount and the user's
      session key is not marked. */
  function WriteFor(status: AuthStatus, user: Option<User>, writing: bool, session: map<string, string>): (r: Option<string>)
    ensures r.Some? <==>
              status == Authenticated && user.Some? && !writing &&
              user.value.loginId.Some? && user.value.loginId.value != "" &&
              !IsMarked(session, SessionKey(user.value.loginId.value))
    ensures r.Some? ==> r == user.value.loginId
  {
    if status == Authenticated && user.Some? && !writing then
      match user.value.loginId
      case None => None
      case Some(id) =>
        if id == "" then None
        else if IsMarked(session, SessionKey(id)) then None
        else Some(id)
    else None
  }

  /** A create call that has been issued and not yet settled: the key to mark
      on success. */
  datatype PendingWrite = PendingWrite(sessionKey: string, record: LoginRecord)

  /** One mount of the login page. */
  class LoginApp {
    /** `isWritingRef.current`. */
    var writing: bool
    /** The browser's session storage, which outlives the mount. */
    var session: map<string, string>
    /** The create call in flight, if any. */
    var pending: Option<PendingWrite>
    /** The records handed to the create call by this mount, in order. */
    var created: seq<LoginRecord>
    /** Whether the redirect to the list page has been scheduled. */
    var redirectScheduled: bool
    /** `subscriptionRef.current` is set. */
    var subscribed: bool
    /** Whether that subscription still delivers snapshots. */
    var listening: bool
    /** How many subscriptions this mount has registered. */
    var subscriptions: nat
    var showHistory: bool
    /** The `logins` state. */
    var logins: seq<LoginItem>

    ghost predicate Valid()
      reads this
    {
      subscriptions == (if subscribed then 1 else 0) &&
      (listening ==> subscribed) &&
      (pending.Some? ==> writing) &&
      (|created| <= 1) &&
      (!writing ==> created == [] && pending.None?)
    }

    /** A fresh mount over the session storage left by earlier ones. */
    constructor (session: map<string, string>)
      ensures Valid()
      ensures this.session == session
      ensures !writing && pending.None? && created == [] && !redirectScheduled
      ensures !subscribed && !listening && subscriptions == 0 && !showHistory && logins == []
    {
      this.session := session;
      writing := false;
      pending := None;
      created := [];
      redirectScheduled := false;
      subscribed := false;
      listening := false;
      subscriptions := 0;
      showHistory := false;
      logins := [];
    }

    /** The write effect, run with the current status, user and time.  When
        the guard lets it through, the writing flag is set before the create
        call is issued with the JST login time. */
    method LoginEffect(status: AuthStatus, user: Option<User>, now: int) returns (wrote: bool)
      requires Valid()
      modifies this
      ensures Valid()
      ensures wrote <==> WriteFor(status, user, old(writing), old(session)).Some?
      ensures wrote ==>
                var id := WriteFor(status, user, old(writing), old(session)).value;
                writing &&
                created == old(created) + [LoginRecord(id, JstTimestamp(now))] &&
                pending == Some(PendingWrite(SessionKey(id), LoginRecord(id, JstTimestamp(now))))
      ensures !wrote ==> writing == old(writing) && created == old(created) && pending == old(pending)
      ensures session == old(session) && redirectScheduled == old(redirectScheduled)
      ensures subscribed == old(subscribed) && listening == old(listening) && subscriptions == old(subscriptions)
      ensures showHistory == old(showHistory) && logins == old(logins)
    {
      var target := WriteFor(status, user, writing, session);
      if target.None? {
        return false;
      }
      var id := target.value;
      writing := true;
      var record := LoginRecord(id, JstTimestamp(now));
      created := created + [record];
      pending := Some(PendingWrite(SessionKey(id), record));
      wrote := true;
    }

    /** The create call settles.  Only a success marks the session key and
        schedules the redirect; either way the writing flag stays set. */
    method CreateSettled(succeeded: bool)
      requires Valid()
      requires pending.Some?
      modifies this
      ensures Valid()
      ensures pending.None? && writing
      ensures succeeded ==> session == old(session)[old(pending).value.sessionKey := "true"] && redirectScheduled
      ensures !succeeded ==> session == old(session) && redirectScheduled == old(redirectScheduled)
      ensures created == old(created)
      ensures subscribed == old(subscribed) && listening == old(listening) && subscriptions == old(subscriptions)
      ensures showHistory == old(showHistory) && logins == old(logins)
    {
      if succeeded {
        session := session[pending.value.sessionKey := "true"];
        redirectScheduled := true;
      }
      pending := None;
    }

    /** The "show history" handler: shows the history and subscribes, unless
        a subscription is already registered. */
    method ShowHistory()
      requires Valid()
      modifies this
      ensures Valid()
      ensures showHistory && subscribed
      ensures subscriptions == 1
      ensures listening == (old(listening) || !old(subscribed))
      ensures writing == old(writing) && session == old(session) && pending == old(pending)
      ensures created == old(created) && redirectScheduled == old(redirectScheduled) && logins == old(logins)
    {
      showHistory := true;
      if subscribed {
        return;
      }
      subscribed := true;
      listening := true;
      subscriptions := subscriptions + 1;
    }

    /** A snapshot of the login list arrives on the subscription. */
    method ReceiveSnapshot(items: seq<LoginItem>)
      requires Valid()
      requires listening
      modifies this
      ensures Valid()
      ensures logins == LatestLogins(items)
      ensures writing == old(writing) && session == old(session) && pending == old(pending)
      ensures created == old(created) && redirectScheduled == old(redirectScheduled)
      ensures subscribed == old(subscribed) && listening == old(listening) && subscriptions == old(subscriptions)
      ensures showHistory == old(showHistory)
    {
      logins := LatestLogins(items);
    }

    /** The unmount cleanup: a registered subscription stops delivering. */
    method Unmount()
      requires Valid()
      modifies this
      ensures Valid()
      ensures !listening
      ensures subscribed == old(subscribed) && subscriptions == old(subscriptions)
      ensures writing == old(writing) && session == old(session) && pending == old(pending)
      ensures created == old(created) && logins == old(logins)
      ensures redirectScheduled == old(redirectScheduled) && showHistory == old(showHistory)
    {
      listening := false;
    }

    /** The sign-out handler's own step: the session storage is cleared
        before the authenticator signs out. */
    method HandleSignOut()
      requires Valid()
      modifies this
      ensures Valid()
      ensures session == map[]
      ensures writing == old(writing) && pending == old(pending) && created == old(created)
      ensures subscribed == old(subscribed) && listening == old(listening) && subscriptions == old(subscriptions)
      ensures redirectScheduled == old(redirectScheduled) && showHistory == old(showHistory) && logins == old(logins)
    {
      session := map[];
    }
  }

  // ---------------------------------------------------------------------
  // The history selection.

  /** An entry that carries a login time. */
  predicate Timed(x: LoginItem) {
    x.loginTime.Some?
  }

  /** `.filter((item) => item.loginTime)`. */
  function KeepTimed(items: seq<LoginItem>): (r: seq<LoginItem>)
    ensures forall i :: 0 <= i < |r| ==> Timed(r[i])
    ensures forall x :: Timed(x) ==> multiset(r)[x] == multiset(items)[x]
    ensures forall x :: !Timed(x) ==> multiset(r)[x] == 0
    ensures multiset(r) <= multiset(items)
  {
    if items == [] then []
    else
      assert items == [items[0]] + items[1..];
      if Timed(items[0]) then [items[0]] + KeepTimed(items[1..]) else KeepTimed(items[1..])
  }

  /** The login time of a timed entry. */
  function Time(x: LoginItem): int
    requires Timed(x)
  {
    x.loginTime.value
  }

  /** Every entry carries a login time. */
  predicate AllTimed(s: seq<LoginItem>) {
    forall i :: 0 <= i < |s| ==> Timed(s[i])
  }

  /** Newest first: no entry is newer than one before it. */
  predicate NewestFirst(s: seq<LoginItem>)
    requires AllTimed(s)
  {
    forall i, j :: 0 <= i < j < |s| ==> Time(s[i]) >= Time(s[j])
  }

  /** Puts `x` in front of the first entry that is not newer than it, so an
      entry sorted earlier stays in front of one with the same time. */
  function Insert(x: LoginItem, s: seq<LoginItem>): (r: seq<LoginItem>)
    requires Timed(x) && AllTimed(s)
    ensures AllTimed(r)
    ensures multiset(r) == multiset(s) + multiset{x}
  {
    if s == [] || Time(x) >= Time(s[0]) then [x] + s
    else
      assert s == [s[0]] + s[1..];
      [s[0]] + Insert(x, s[1..])
  }

  /** No entry is newer than `t`. */
  predicate NoneNewerThan(s: seq<LoginItem>, t: int)
    requires AllTimed(s)
  {
    forall i :: 0 <= i < |s| ==> Time(s[i]) <= t
  }

  /** Inserting an entry no newer than `t` keeps every entry no newer than `t`. */
  lemma {:induction false} InsertNoneNewer(x: LoginItem, s: seq<LoginItem>, t: int)
    requires Timed(x) && AllTimed(s)
    requires Time(x) <= t && NoneNewerThan(s, t)
    ensures NoneNewerThan(Insert(x, s), t)
  {
    if s != [] && Time(x) < Time(s[0]) {
      InsertNoneNewer(x, s[1..], t);
    }
  }

  /** An entry in front of newer-first entries that are no newer than it
      gives a newest-first list. */
  lemma ConsNewestFirst(a: LoginItem, s: seq<LoginItem>)
    requires Timed(a) && AllTimed(s)
    requires NewestFirst(s) && NoneNewerThan(s, Time(a))
    ensures AllTimed([a] + s) && NewestFirst([a] + s)
  {
    var r := [a] + s;
    forall i, j | 0 <= i < j < |r| ensures Time(r[i]) >= Time(r[j]) {
      assert r[j] == s[j - 1];
      if i > 0 { assert r[i] == s[i - 1]; }
    }
  }

  /** Inserting into a newest-first list keeps it newest first. */
  lemma {:induction false} InsertNewestFirst(x: LoginItem, s: seq<LoginItem>)
    requires Timed(x) && AllTimed(s) && NewestFirst(s)
    ensures NewestFirst(Insert(x, s))
  {
    if s == [] || Time(x) >= Time(s[0]) {
      ConsNewestFirst(x, s);
    } else {
      var tail := s[1..];
      assert NewestFirst(tail) by {
        forall i, j | 0 <= i < j < |tail| ensures Time(tail[i]) >= Time(tail[j]) {
          assert tail[i] == s[i + 1] && tail[j] == s[j + 1];
        }
      }
      assert NoneNewerThan(tail, Time(s[0])) by {
        forall i | 0 <= i < |tail| ensures Time(tail[i]) <= Time(s[0]) {
          assert tail[i] == s[i + 1];
        }
      }
      InsertNewestFirst(x, tail);
      InsertNoneNewer(x, tail, Time(s[0]));
      ConsNewestFirst(s[0], Insert(x, tail));
    }
  }

  /** `.sort((a, b) => time(b) - time(a))`: newest first, a permutation of
      its input. */
  function SortNewestFirst(s: seq<LoginItem>): (r: seq<LoginItem>)
    requires AllTimed(s)
    ensures AllTimed(r) && NewestFirst(r)
    ensures multiset(r) == multiset(s)
  {
    if s == [] then []
    else
      assert s == [s[0]] + s[1..];
      var sortedTail := SortNewestFirst(s[1..]);
      InsertNewestFirst(s[0], sortedTail);
      Insert(s[0], sortedTail)
  }

  /** The history shown for a snapshot:
      `[...items].filter(...).sort(...).slice(0, 5)`. */
  function LatestLogins(items: seq<LoginItem>): (r: seq<LoginItem>)
    ensures |r| <= HistorySize
    ensures AllTimed(r) && NewestFirst(r)
    ensures multiset(r) <= multiset(items)
  {
    var sorted := SortNewestFirst(KeepTimed(items));
    var n := Min(HistorySize, |sorted|);
    PrefixKeepsOrder(sorted, n);
    sorted[..n]
  }

  /** A prefix of a newest-first list is newest first and part of it. */
  lemma PrefixKeepsOrder(s: seq<LoginItem>, n: nat)
    requires AllTimed(s) && NewestFirst(s) && n <= |s|
    ensures AllTimed(s[..n]) && NewestFirst(s[..n])
    ensures multiset(s[..n]) <= multiset(s)
  {
    assert s == s[..n] + s[n..];
  }

  function Min(a: int, b: int): int {
    if a < b then a else b
  }

  /** The history holds as many entries as the snapshot has timed ones, up
      to five, and with five or fewer it holds all of them. */
  lemma {:induction false} LatestLoginsSize(items: seq<LoginItem>)
    ensures |LatestLogins(items)| == Min(HistorySize, |KeepTimed(items)|)
    ensures |KeepTimed(items)| <= HistorySize ==> multiset(LatestLogins(items)) == multiset(KeepTimed(items))
  {
    var timed := KeepTimed(items);
    var sorted := SortNewestFirst(timed);
    assert |sorted| == |multiset(sorted)| == |multiset(timed)| == |timed|;
    if |timed| <= HistorySize {
      assert LatestLogins(items) == sorted;
    }
  }

  /** No timed entry left out of the history is newer than the oldest one
      shown. */
  lemma {:induction false} LatestLoginsLeaveOutOnlyOlder(items: seq<LoginItem>, x: LoginItem)
    requires x in items && Timed(x) && x !in LatestLogins(items)
    ensures var r := LatestLogins(items); r != [] && Time(x) <= Time(r[|r| - 1])
  {
    var timed := KeepTimed(items);
    var sorted := SortNewestFirst(timed);
    var r := LatestLogins(items);
    assert r == sorted[..Min(HistorySize, |sorted|)];
    assert multiset(items)[x] > 0;
    assert multiset(sorted)[x] > 0;
    assert x in sorted;
    var k :| 0 <= k < |sorted| && sorted[k] == x;
    assert k >= |r|;
    assert r[|r| - 1] == sorted[|r| - 1];
  }

  // ---------------------------------------------------------------------
  // The write guard over several triggers.

  /** After a first write, a second trigger within the same mount never
      writes, whatever its status and user, because the writing flag stays
      set; and a failed write leaves the key unmarked. */
  method TwoTriggers(app: LoginApp, user: User, now: int, succeeded: bool,
                     status2: AuthStatus, user2: Option<User>, later: int)
    requires app.Valid() && !app.writing
    requires user.loginId.Some? && user.loginId.value != ""
    requires !IsMarked(app.session, SessionKey(user.loginId.value))
    modifies app
    ensures app.Valid()
    ensures |app.created| == 1 && app.created[0] == LoginRecord(user.loginId.value, JstTimestamp(now))
    ensures succeeded <==> IsMarked(app.session, SessionKey(user.loginId.value))
  {
    var first := app.LoginEffect(Authenticated, Some(user), now);
    assert first;
    app.CreateSettled(succeeded);
    var second := app.LoginEffect(status2, user2, later);
    assert !second;
  }

  /** A new mount over a session whose key was marked by a successful write
      records nothing for that user. */
  lemma MarkedSessionSkips(user: User, session: map<string, string>)
    requires user.loginId.Some?
    requires IsMarked(session, SessionKey(user.loginId.value))
    ensures WriteFor(Authenticated, Some(user), false, session) == None
  {
  }
}
