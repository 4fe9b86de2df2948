/** The refresh client of the browser application, composed with the server's interleaved rotation: tabs that each keep
    one refresh in flight and share one cookie. */
module RefreshClient {
  import opened Prelude
  import opened RefreshTokens
  import opened RotationRuns

  /** Where a tab's refresh is: none, sent with a cookie, past the server's checks, or answered with a cookie or an
      error. */
  datatype Flight = Idle | Sent(hash: Hash) | Processing(hash: Hash) | Answered(token: Option<Hash>)

  /** `waiters` counts the requests that hold the shared promise, `sent` the refresh requests ever made. */
  datatype Tab = Tab(flight: Flight, waiters: nat, sent: nat)

  const NEW_TAB: Tab := Tab(Idle, 0, 0)

  /** `coordinateRefresh`: join the refresh in flight, or start one with the cookie of the moment. */
  function Asked(t: Tab, cookie: Hash): Tab {
    if t.flight.Idle? then Tab(Sent(cookie), 1, t.sent + 1) else t.(waiters := t.waiters + 1)
  }

  function AskedTimes(t: Tab, cookie: Hash, n: nat): Tab
    decreases n
  {
    if n == 0 then t else AskedTimes(Asked(t, cookie), cookie, n - 1)
  }

  /** However many requests of a tab are refused at once, one refresh is sent and all of them wait for it. */
  lemma {:induction false} ManyRefusalsOneRefresh(t: Tab, cookie: Hash, n: nat)
    requires n > 0
    ensures AskedTimes(t, cookie, n)
            == if t.flight.Idle? then Tab(Sent(cookie), n, t.sent + 1) else t.(waiters := t.waiters + n)
    decreases n
  {
    if n > 1 {
      ManyRefusalsOneRefresh(Asked(t, cookie), cookie, n - 1);
    } else {
      assert AskedTimes(Asked(t, cookie), cookie, 0) == Asked(t, cookie);
    }
  }

  /** One browser. A tab's number names its refresh on the server; `alarms` counts the browser's own refreshes that took
      the reuse-or-race branch, `losses` those that cost it the family. */
  datatype World = World(server: System, cookie: Hash, tabs: map<nat, Tab>, alarms: nat, losses: nat)

  datatype Event =
    | Refused(tab: nat)
    | ServerReads(tab: nat, active: bool)
    | ServerWrites(tab: nat, successor: Hash)
    | Delivered(tab: nat)
    | LogIn(user: nat, family: Family, hash: Hash)
    | Elsewhere(step: Step)

  /** Nobody else presents a token of the browser's family; anything else may happen, its revocation included. */
  predicate Foreign(w: World, step: Step) {
    match step
    case Read(r, hash, active) =>
      && r !in w.tabs
      && (hash in w.server.table.rows && w.cookie in w.server.table.rows ==>
            w.server.table.rows[hash].family != w.server.table.rows[w.cookie].family)
    case Write(r, successor) => r !in w.tabs
    case _ => true
  }

  function Flown(w: World, tab: nat, f: Flight): map<nat, Tab>
    requires tab in w.tabs
  {
    w.tabs[tab := w.tabs[tab].(flight := f)]
  }

  function AfterServerReads(w: World, tab: nat, hash: Hash, active: bool): World
    requires tab in w.tabs
  {
    if hash !in w.server.table.rows then w.(tabs := Flown(w, tab, Answered(None)))
    else
      var verdict := RotationRuns.Verdict(w.server, hash, active);
      World(AfterRead(w.server, tab, hash, active), w.cookie,
            Flown(w, tab, if verdict == Proceed then Processing(hash) else Answered(None)),
            if verdict == Reuse || verdict == Race then w.alarms + 1 else w.alarms,
            if verdict == Reuse then w.losses + 1 else w.losses)
  }

  function AfterServerWrites(w: World, tab: nat, successor: Hash): World
    requires tab in w.tabs && tab in w.server.inFlight
  {
    var rows, hash := w.server.table.rows, w.server.inFlight[tab].hash;
    var won := hash in rows && rows[hash].consumedAt.None?;
    var lost := hash in rows && !won && ReuseOrRace(rows[hash].consumedAt.value, w.server.now) == Reuse;
    World(AfterWrite(w.server, tab, successor), w.cookie,
          Flown(w, tab, Answered(if won then Some(successor) else None)),
          if won then w.alarms else w.alarms + 1, if lost then w.losses + 1 else w.losses)
  }

  /** The response arrives: only a success sets the cookie, and the tab's promise is cleared either way. */
  function AfterDelivery(w: World, tab: nat): World
    requires tab in w.tabs && w.tabs[tab].flight.Answered?
  {
    var t := w.tabs[tab];
    w.(cookie := if t.flight.token.Some? then t.flight.token.value else w.cookie,
       tabs := w.tabs[tab := Tab(Idle, 0, t.sent)])
  }

  function Happens(w: World, e: Event): World {
    match e
    case Refused(tab) => if tab in w.tabs then w.(tabs := w.tabs[tab := Asked(w.tabs[tab], w.cookie)]) else w
    case ServerReads(tab, active) =>
      if tab in w.tabs && w.tabs[tab].flight.Sent? then AfterServerReads(w, tab, w.tabs[tab].flight.hash, active) else w
    case ServerWrites(tab, successor) =>
      if tab in w.tabs && w.tabs[tab].flight.Processing? && tab in w.server.inFlight
         && successor !in w.server.table.rows
      then AfterServerWrites(w, tab, successor) else w
    case Delivered(tab) => if tab in w.tabs && w.tabs[tab].flight.Answered? then AfterDelivery(w, tab) else w
    case LogIn(user, f, hash) =>
      if AllIdle(w) && hash !in w.server.table.rows && f !in w.server.table.lineage
      then w.(server := Next(w.server, Login(user, f, hash)), cookie := hash)
      else w
    case Elsewhere(step) => if Foreign(w, step) then w.(server := Next(w.server, step)) else w
  }

  predicate AllIdle(w: World) {
    forall tab | tab in w.tabs :: w.tabs[tab].flight.Idle?
  }

  function Unfold(w: World, events: seq<Event>): World
    decreases |events|
  {
    if events == [] then w else Unfold(Happens(w, events[0]), events[1..])
  }

  // ------------------------------------------------------------------ one tab

  /** The token the browser holds, or is about to receive in `tab`. */
  function Held(w: World, tab: nat): Hash
    requires tab in w.tabs
  {
    var f := w.tabs[tab].flight;
    if f.Answered? && f.token.Some? then f.token.value else w.cookie
  }

  ghost predicate HoldsTip(w: World, tab: nat)
    requires tab in w.tabs
  {
    var rows := w.server.table.rows;
    && w.cookie in rows && Held(w, tab) in rows
    && rows[Held(w, tab)].family == rows[w.cookie].family && rows[Held(w, tab)].consumedAt.None?
  }

  /** Requests in flight for others present tokens of other families. */
  ghost predicate OthersApart(w: World, tab: nat)
    requires w.cookie in w.server.table.rows
  {
    var s := w.server;
    forall r :: r in s.inFlight && r != tab ==>
      && s.inFlight[r].hash in s.table.rows
      && s.table.rows[s.inFlight[r].hash].family != s.table.rows[w.cookie].family
  }

  ghost predicate FlightMatches(w: World, tab: nat)
    requires tab in w.tabs
  {
    var f := w.tabs[tab].flight;
    && (tab in w.server.inFlight <==> f.Processing?)
    && (f.Processing? ==> w.server.inFlight[tab].hash == f.hash == w.cookie)
    && (f.Sent? ==> f.hash == w.cookie)
  }

  ghost predicate Trusted(w: World, tab: nat) {
    && w.tabs.Keys == {tab} && SoundSystem(w.server) && HoldsTip(w, tab) && OthersApart(w, tab) && FlightMatches(w, tab)
    && w.alarms == 0 && w.losses == 0
  }

  lemma ReadsKeepTrust(w: World, tab: nat, active: bool)
    requires Trusted(w, tab) && w.tabs[tab].flight.Sent?
    ensures Trusted(AfterServerReads(w, tab, w.cookie, active), tab)
  {
  }

  lemma WritesKeepTrust(w: World, tab: nat, successor: Hash)
    requires Trusted(w, tab) && w.tabs[tab].flight.Processing? && successor !in w.server.table.rows
    ensures Trusted(AfterServerWrites(w, tab, successor), tab)
  {
    WriteKeepsSound(w.server, tab, successor);
    var w', rows := AfterServerWrites(w, tab, successor), w.server.table.rows;
    assert w'.server.table == Rotated(w.server.table, w.cookie, successor, w.server.inFlight[tab].since);
    forall r | r in w'.server.inFlight && r != tab
      ensures w'.server.inFlight[r].hash in w'.server.table.rows
      ensures w'.server.table.rows[w'.server.inFlight[r].hash].family != w'.server.table.rows[w.cookie].family
    {
      assert w.server.inFlight[r].hash in rows && rows[w.server.inFlight[r].hash].family != rows[w.cookie].family;
    }
  }

  /** Nobody can be past the checks with a token of a family that does not exist yet. */
  lemma NewFamilyIsApart(s: System, f: Family)
    requires SoundSystem(s) && f !in s.table.lineage
    ensures forall r :: r in s.inFlight ==>
              s.inFlight[r].hash in s.table.rows && s.table.rows[s.inFlight[r].hash].family != f
  {
    forall r | r in s.inFlight
      ensures s.inFlight[r].hash in s.table.rows && s.table.rows[s.inFlight[r].hash].family != f
    {
      assert Grounded(s, s.inFlight[r]) && RowSound(s.table, s.inFlight[r].hash);
    }
  }

  lemma LogInKeepsTrust(w: World, tab: nat, user: nat, f: Family, hash: Hash)
    requires Trusted(w, tab) && AllIdle(w) && hash !in w.server.table.rows && f !in w.server.table.lineage
    ensures Trusted(Happens(w, LogIn(user, f, hash)), tab)
  {
    StepKeepsSound(w.server, Login(user, f, hash));
    NewFamilyIsApart(w.server, f);
  }

  /** A rotation of another family leaves the browser's rows alone. */
  lemma OtherWriteKeepsTrust(w: World, tab: nat, r: nat, successor: Hash)
    requires Trusted(w, tab) && r != tab && r in w.server.inFlight && successor !in w.server.table.rows
    ensures Trusted(w.(server := AfterWrite(w.server, r, successor)), tab)
  {
    WriteKeepsSound(w.server, r, successor);
    var t, t' := w.server.table, AfterWrite(w.server, r, successor).table;
    assert t.rows[w.server.inFlight[r].hash].family != t.rows[w.cookie].family;
    forall h | h in t.rows ensures h in t'.rows && t'.rows[h].family == t.rows[h].family {
    }
  }

  lemma OtherReadKeepsTrust(w: World, tab: nat, r: nat, hash: Hash, active: bool)
    requires Trusted(w, tab) && Foreign(w, Read(r, hash, active))
    requires hash in w.server.table.rows && r !in w.server.inFlight
    ensures Trusted(w.(server := AfterRead(w.server, r, hash, active)), tab)
  {
    ReadKeepsSound(w.server, r, hash, active);
  }

  lemma RevokeKeepsTrust(w: World, tab: nat, f: Family)
    requires Trusted(w, tab)
    ensures Trusted(w.(server := Next(w.server, Revoke(f))), tab)
  {
    StepKeepsSound(w.server, Revoke(f));
  }

  lemma OtherLoginKeepsTrust(w: World, tab: nat, user: nat, f: Family, hash: Hash)
    requires Trusted(w, tab)
    ensures Trusted(w.(server := Next(w.server, Login(user, f, hash))), tab)
  {
    StepKeepsSound(w.server, Login(user, f, hash));
  }

  lemma ElsewhereKeepsTrust(w: World, tab: nat, step: Step)
    requires Trusted(w, tab) && Foreign(w, step)
    ensures Trusted(w.(server := Next(w.server, step)), tab)
  {
    StepKeepsSound(w.server, step);
    match step
    case Tick(dt) =>
    case Login(user, f, hash) => OtherLoginKeepsTrust(w, tab, user, f, hash);
    case Read(r, hash, active) =>
      if hash in w.server.table.rows && r !in w.server.inFlight {
        OtherReadKeepsTrust(w, tab, r, hash, active);
      }
    case Write(r, successor) =>
      if r in w.server.inFlight && successor !in w.server.table.rows {
        OtherWriteKeepsTrust(w, tab, r, successor);
      }
    case Revoke(f) => RevokeKeepsTrust(w, tab, f);
    case RevokeAll(u) =>
  }

  lemma EventKeepsTrust(w: World, tab: nat, e: Event)
    requires Trusted(w, tab)
    ensures Trusted(Happens(w, e), tab)
  {
    match e
    case Refused(t) =>
    case ServerReads(t, active) => if t == tab && w.tabs[t].flight.Sent? { ReadsKeepTrust(w, t, active); }
    case ServerWrites(t, successor) =>
      if t == tab && w.tabs[t].flight.Processing? && successor !in w.server.table.rows {
        WritesKeepTrust(w, t, successor);
      }
    case Delivered(t) =>
    case LogIn(user, f, hash) =>
      if AllIdle(w) && hash !in w.server.table.rows && f !in w.server.table.lineage {
        LogInKeepsTrust(w, tab, user, f, hash);
      }
    case Elsewhere(step) => if Foreign(w, step) { ElsewhereKeepsTrust(w, tab, step); }
  }

  lemma {:induction false} EventsKeepTrust(w: World, tab: nat, events: seq<Event>)
    requires Trusted(w, tab)
    ensures Trusted(Unfold(w, events), tab)
    decreases |events|
  {
    if events != [] {
      EventKeepsTrust(w, tab, events[0]);
      EventsKeepTrust(Happens(w, events[0]), tab, events[1..]);
    }
  }

  /** Over every run, whatever else the server does and however many requests are refused at once, a browser with one
      tab holds the newest token of its family, and the server never mistakes one of its refreshes for reuse or a
      race. */
  lemma SingleFlightIsNeverTakenForReuse(w: World, tab: nat, events: seq<Event>)
    requires Trusted(w, tab)
    ensures var end := Unfold(w, events);
            && end.alarms == 0 && end.losses == 0
            && Sound(end.server.table) && tab in end.tabs && Held(end, tab) in end.server.table.rows
            && var f := end.server.table.rows[Held(end, tab)].family;
               && f in end.server.table.lineage && end.server.table.lineage[f] != []
               && Held(end, tab) == Tip(end.server.table, f)
  {
    EventsKeepTrust(w, tab, events);
    var end := Unfold(w, events);
    ExactlyOneUnconsumed(end.server.table, Held(end, tab));
  }

  // ------------------------------------------------------------------ several tabs

  /** A browser with idle tabs that has just logged in. */
  function LoggedIn(s: System, user: nat, f: Family, hash: Hash, tabs: set<nat>): World {
    World(Next(s, Login(user, f, hash)), hash, map tab | tab in tabs :: NEW_TAB, 0, 0)
  }

  /** The names are new, the tabs have nothing in flight, and no revocation covers the login itself. */
  ghost predicate CanLogIn(s: System, user: nat, f: Family, hash: Hash, tabs: set<nat>) {
    && SoundSystem(s) && hash !in s.table.rows && f !in s.table.lineage
    && (forall tab :: tab in tabs ==> tab !in s.inFlight)
    && (user in s.keys ==> s.keys[user].value < s.now)
  }

  lemma FreshLoginIsTrusted(s: System, user: nat, f: Family, hash: Hash, tab: nat)
    requires CanLogIn(s, user, f, hash, {tab})
    ensures Trusted(LoggedIn(s, user, f, hash, {tab}), tab)
  {
    StepKeepsSound(s, Login(user, f, hash));
    NewFamilyIsApart(s, f);
  }

  lemma UnfoldCons(w: World, e: Event, rest: seq<Event>)
    ensures Unfold(w, [e] + rest) == Unfold(Happens(w, e), rest)
  {
    assert ([e] + rest)[1..] == rest;
  }

  lemma {:induction false} UnfoldConcat(w: World, a: seq<Event>, b: seq<Event>)
    ensures Unfold(w, a + b) == Unfold(Unfold(w, a), b)
    decreases |a|
  {
    if a == [] {
      assert a + b == b;
    } else {
      assert (a + b)[1..] == a[1..] + b;
      UnfoldConcat(Happens(w, a[0]), a[1..], b);
    }
  }

  /** Two tabs send the same cookie, and the server lets the first one through. */
  lemma FirstTabRotates(w: World, a: nat, b: nat, successor: Hash) returns (events: seq<Event>)
    requires a in w.tabs && b in w.tabs && a != b && w.tabs[a].flight.Idle? && w.tabs[b].flight.Idle?
    requires w.cookie in w.server.table.rows && a !in w.server.inFlight && successor !in w.server.table.rows
    requires RotationRuns.Verdict(w.server, w.cookie, true) == Proceed && w.server.table.rows[w.cookie].consumedAt.None?
    ensures var end := Unfold(w, events);
            && end.server.now == w.server.now && end.server.keys == w.server.keys && end.losses == w.losses
            && end.server.table == Rotated(w.server.table, w.cookie, successor, w.server.now)
            && b in end.tabs && end.tabs[b].flight == Sent(w.cookie)
  {
    var e1, e2, e3, e4 := Refused(a), Refused(b), ServerReads(a, true), ServerWrites(a, successor);
    var w1 := Happens(w, e1);
    var w2 := Happens(w1, e2);
    assert w2.tabs[a].flight == Sent(w.cookie) && w2.tabs[b].flight == Sent(w.cookie) && w2.server == w.server;
    var w3 := Happens(w2, e3);
    assert w3.tabs[a].flight == Processing(w.cookie) && w3.server.inFlight[a] == Pending(w.cookie, w.server.now);
    events := [e1] + ([e2] + ([e3] + ([e4] + [])));
    UnfoldCons(w, e1, [e2] + ([e3] + ([e4] + [])));
    UnfoldCons(w1, e2, [e3] + ([e4] + []));
    UnfoldCons(w2, e3, [e4] + []);
    UnfoldCons(w3, e4, []);
  }

  /** The second one arrives after the grace window: the family is revoked although nobody stole anything. */
  lemma SecondTabLoses(w: World, b: nat) returns (events: seq<Event>)
    requires b in w.tabs && w.tabs[b].flight.Sent? && w.tabs[b].flight.hash in w.server.table.rows
    requires var row := w.server.table.rows[w.tabs[b].flight.hash];
             && row.revokedAt.None? && row.expiresAt > w.server.now + GRACE_WINDOW + 1
             && row.consumedAt == Some(w.server.now)
    ensures var end := Unfold(w, events);
            && end.losses == w.losses + 1
            && !FamilyLive(end.server.table, w.server.table.rows[w.tabs[b].flight.hash].family, end.server.now)
  {
    var e1, e2 := Elsewhere(Tick(GRACE_WINDOW + 1)), ServerReads(b, true);
    var w1 := Happens(w, e1);
    events := [e1] + ([e2] + []);
    UnfoldCons(w, e1, [e2] + []);
    UnfoldCons(w1, e2, []);
  }

  /** A browser whose tabs each refresh through their own coordinator can lose its family exactly when it has two. */
  lemma FamilyLostIffTwoTabs(s: System, user: nat, f: Family, hash: Hash, tabs: set<nat>)
    requires CanLogIn(s, user, f, hash, tabs) && tabs != {} && s.ttl > GRACE_WINDOW + 1
    ensures (exists events :: Unfold(LoggedIn(s, user, f, hash, tabs), events).losses > 0) <==> |tabs| >= 2
  {
    var w := LoggedIn(s, user, f, hash, tabs);
    if |tabs| >= 2 {
      var events := TwoTabsLose(s, user, f, hash, tabs);
      assert Unfold(w, events).losses > 0;
    } else {
      var tab :| tab in tabs;
      assert |tabs - {tab}| == 0 && tabs == {tab};
      FreshLoginIsTrusted(s, user, f, hash, tab);
      forall events ensures Unfold(w, events).losses == 0 {
        EventsKeepTrust(w, tab, events);
      }
    }
  }

  lemma TwoTabsLose(s: System, user: nat, f: Family, hash: Hash, tabs: set<nat>) returns (events: seq<Event>)
    requires CanLogIn(s, user, f, hash, tabs) && |tabs| >= 2 && s.ttl > GRACE_WINDOW + 1
    ensures var end := Unfold(LoggedIn(s, user, f, hash, tabs), events);
            end.losses > 0 && !FamilyLive(end.server.table, f, end.server.now)
  {
    var w := LoggedIn(s, user, f, hash, tabs);
    var a, b := PickTwo(tabs);
    var successor := UnusedHash(w.server.table.rows.Keys);
    var first := FirstTabRotates(w, a, b, successor);
    var rest := SecondTabLoses(Unfold(w, first), b);
    UnfoldConcat(w, first, rest);
    events := first + rest;
  }

  // ------------------------------------------------------------------ the coordinator

  /** The module-level `inFlightRefresh` of a tab, with the browser's cookie. */
  class RefreshCoordinator {
    var cookie: Hash
    var inFlightRefresh: Option<nat>
    var flight: Flight
    var waiters: nat
    var sent: nat

    ghost predicate Valid()
      reads this
    {
      inFlightRefresh.None? <==> flight.Idle?
    }

    function State(): Tab
      reads this
    {
      Tab(flight, waiters, sent)
    }

    constructor (hash: Hash)
      ensures Valid() && State() == NEW_TAB && cookie == hash
    {
      cookie, inFlightRefresh, flight, waiters, sent := hash, None, Idle, 0, 0;
    }

    /** Every caller until the refresh settles gets the same promise. */
    method CoordinateRefresh() returns (promise: nat)
      requires Valid()
      modifies this
      ensures Valid() && State() == Asked(old(State()), cookie) && inFlightRefresh == Some(promise)
      ensures cookie == old(cookie) && (old(inFlightRefresh).Some? ==> inFlightRefresh == old(inFlightRefresh))
    {
      if inFlightRefresh.None? {
        sent := sent + 1;
        inFlightRefresh, flight, waiters := Some(sent), Sent(cookie), 1;
      } else {
        waiters := waiters + 1;
      }
      promise := inFlightRefresh.value;
    }

    /** The response is stored and the `finally` handler clears the promise. */
    method Settle(token: Option<Hash>)
      requires Valid() && !flight.Idle?
      modifies this
      ensures Valid() && flight.Idle? && sent == old(sent)
      ensures cookie == if token.Some? then token.value else old(cookie)
    {
      if token.Some? {
        cookie := token.value;
      }
      inFlightRefresh, flight, waiters := None, Idle, 0;
    }

    /** `n` requests refused together: one refresh is sent, all of them get its promise, and they leave with its
        outcome. */
    method RefusedTogether(n: nat, token: Option<Hash>) returns (promises: seq<nat>)
      requires Valid() && flight.Idle? && n > 0
      modifies this
      ensures Valid() && flight.Idle? && sent == old(sent) + 1
      ensures |promises| == n && forall i :: 0 <= i < n ==> promises[i] == promises[0]
      ensures cookie == if token.Some? then token.value else old(cookie)
    {
      var first := CoordinateRefresh();
      promises := [first];
      while |promises| < n
        invariant Valid() && flight == Sent(cookie) && inFlightRefresh == Some(first)
        invariant cookie == old(cookie) && sent == old(sent) + 1
        invariant 0 < |promises| <= n && forall i :: 0 <= i < |promises| ==> promises[i] == first
      {
        var next := CoordinateRefresh();
        promises := promises + [next];
      }
      Settle(token);
    }
  }
}
