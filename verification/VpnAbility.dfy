/**
 * Who owns the tunnel's file descriptors, across the awaits of the VPN ability
 * (app/entry/src/main/ets/vpn/TetherVpnAbility.ets).  The code between two awaits runs without
 * interruption, so that each such stretch is one step; what is awaited comes back in any order.
 */
module VpnAbility {
  import opened Words

  /** An opening of a descriptor; a number that the system uses again is another opening. */
  type Fd = nat

  /** What goes on after a cleanup is awaited. */
  datatype After =
    | Quit                                  // a stale establish returns
    | Caught(generation: nat, fatal: bool)  // establish handles its error
    | Lost                                  // tick schedules a retry
    | Destroyed                             // onDestroy awaits nothing more

  /** A suspended call. */
  datatype Cont =
    | Protecting(generation: nat)
    | Connecting(generation: nat)
    | Creating(generation: nat)
    | Destroying(after: After)              // cleanup, at connection.destroy()
    | CleanedUp(after: After)               // whoever awaits a cleanup that is done

  datatype Ability = Ability(
    stopped: bool,
    generation: nat,
    socketFd: Option<Fd>,
    tunFd: Option<Fd>,
    connected: bool,                        // the published state is 'connected'
    timers: set<nat>,                       // armed retry timers
    retryTimer: Option<nat>,
    conts: multiset<Cont>,
    everOpened: set<Fd>,                    // every descriptor ever opened
    open: set<Fd>,                          // those not closed yet
    misclosed: bool)                        // a descriptor was closed that was not open

  /** `onCreate` has passed its checks and made the connection object. */
  function Created(): Ability {
    Ability(false, 0, None, None, false, {}, None, multiset{}, {}, {}, false)
  }

  function CloseFd(s: Ability, fd: Fd): Ability {
    if fd in s.open then s.(open := s.open - {fd}) else s.(misclosed := true)
  }

  function CloseSocket(s: Ability): Ability {
    if s.socketFd.Some? then CloseFd(s, s.socketFd.value).(socketFd := None) else s
  }

  function Suspend(s: Ability, c: Cont): Ability { s.(conts := s.conts + multiset{c}) }

  /** `cleanup`, up to its await if there is a tun device to destroy. */
  function Cleanup(s: Ability, after: After): Ability {
    if s.tunFd.Some? then
      Suspend(CloseFd(s, s.tunFd.value).(tunFd := None), Destroying(after))
    else
      Suspend(CloseSocket(s), CleanedUp(after))
  }

  function OpenFd(s: Ability, fd: Fd): Ability {
    s.(everOpened := s.everOpened + {fd}, open := s.open + {fd})
  }

  function Stale(s: Ability, generation: nat): bool { s.stopped || generation != s.generation }

  /**
   * `establish`, up to its first await.  `socket` is the new socket if it could be created, and
   * `publishes` says whether the session is still current, so that a state is published.
   */
  function Establish(s: Ability, generation: nat, socket: Option<Fd>, fatal: bool, publishes: bool): Ability {
    if Stale(s, generation) then s
    else
      var p := if publishes then s.(connected := false) else s;
      if socket.Some? then
        Suspend(OpenFd(p, socket.value).(socketFd := socket), Protecting(generation))
      else
        Cleanup(p, Caught(generation, fatal))
  }

  function ScheduleRetry(s: Ability, timer: nat): Ability {
    if s.stopped then s else s.(timers := s.timers + {timer}, retryTimer := Some(timer))
  }

  /** What an awaited call brings back; `fd` is the tun device that `create` opened. */
  datatype Outcome = Resolved(fd: Fd, starts: bool, publishes: bool) | Rejected(fatal: bool)

  function ResumeEstablish(s: Ability, c: Cont, o: Outcome): Ability
    requires c.Protecting? || c.Connecting? || c.Creating?
  {
    match o
    case Rejected(fatal) => Cleanup(s, Caught(c.generation, fatal))
    case Resolved(fd, starts, publishes) =>
      var t := if c.Creating? then OpenFd(s, fd).(tunFd := Some(fd)) else s;
      if Stale(t, c.generation) then Cleanup(t, Quit)
      else match c
        case Protecting(g) => Suspend(t, Connecting(g))
        case Connecting(g) => Suspend(t, Creating(g))
        case Creating(g) =>
          if !starts then Cleanup(t, Caught(g, false))
          else if publishes then t.(connected := true)
          else t
  }

  function ResumeCleanup(s: Ability, after: After, timer: nat): Ability {
    match after
    case Quit => s
    case Destroyed => s
    case Lost => ScheduleRetry(s, timer)
    case Caught(g, fatal) => if Stale(s, g) || fatal then s else ScheduleRetry(s, timer)
  }

  function Resume(s: Ability, c: Cont, o: Outcome, timer: nat): Ability
    requires c in s.conts
  {
    var t := s.(conts := s.conts - multiset{c});
    match c
    case Destroying(after) => Suspend(CloseSocket(t), CleanedUp(after))
    case CleanedUp(after) => ResumeCleanup(t, after, timer)
    case _ => ResumeEstablish(t, c, o)
  }

  datatype Event =
    | Begin(socket: Option<Fd>, fatal: bool, publishes: bool)
    | Resumed(c: Cont, o: Outcome, timer: nat)
    | Tick(lost: bool)
    | Fire(timer: nat, socket: Option<Fd>, fatal: bool, publishes: bool)
    | Destroy(publishes: bool)

  /** Descriptors and timers that the system hands out are new; only what waits can come back. */
  predicate Enabled(s: Ability, e: Event) {
    match e
    case Begin(socket, _, _) => s == Created() && (socket.Some? ==> socket.value !in s.everOpened)
    case Resumed(c, o, timer) => c in s.conts && (o.Resolved? ==> o.fd !in s.everOpened) && timer !in s.timers
    case Tick(_) => true
    case Fire(timer, socket, _, _) => timer in s.timers && (socket.Some? ==> socket.value !in s.everOpened)
    case Destroy(_) => true
  }

  /** The retry timer goes off, and opens a new generation. */
  function Fired(s: Ability, timer: nat): Ability {
    s.(timers := s.timers - {timer}, retryTimer := None, generation := s.generation + 1)
  }

  /** `onDestroy`, up to its cleanup: no step that is still awaited is current any more. */
  function Stop(s: Ability, publishes: bool): Ability {
    s.(stopped := true, generation := s.generation + 1,
       timers := if s.retryTimer.Some? then s.timers - {s.retryTimer.value} else s.timers,
       connected := if publishes then false else s.connected)
  }

  function Step(s: Ability, e: Event): Ability
    requires Enabled(s, e)
  {
    match e
    case Begin(socket, fatal, publishes) =>
      var t := s.(generation := s.generation + 1);
      Establish(t, t.generation, socket, fatal, publishes)
    case Resumed(c, o, timer) => Resume(s, c, o, timer)
    case Tick(lost) =>
      if s.stopped || !s.connected || !lost then s else Cleanup(s.(connected := false), Lost)
    case Fire(timer, socket, fatal, publishes) =>
      var t := Fired(s, timer);
      Establish(t, t.generation, socket, fatal, publishes)
    case Destroy(publishes) => Cleanup(Stop(s, publishes), Destroyed)
  }

  predicate Runs(s: Ability, es: seq<Event>)
    decreases es
  {
    es == [] || (Enabled(s, es[0]) && Runs(Step(s, es[0]), es[1..]))
  }

  function Run(s: Ability, es: seq<Event>): Ability
    requires Runs(s, es)
    decreases es
  {
    if es == [] then s else Run(Step(s, es[0]), es[1..])
  }

  // ---------------------------------------------------------------------------------------
  // The invariant
  // ---------------------------------------------------------------------------------------

  predicate Ending(c: Cont) { c == Destroying(Destroyed) || c == CleanedUp(Destroyed) }

  /** Suspended calls that may still lead to another attempt. */
  function Live(conts: multiset<Cont>): int {
    |conts| - conts[Destroying(Destroyed)] - conts[CleanedUp(Destroyed)]
  }

  /** An open descriptor is in its field, a closed one is not: each is closed once. */
  ghost predicate Owned(s: Ability) {
    && !s.misclosed
    && (forall fd :: fd in s.open <==> s.socketFd == Some(fd) || s.tunFd == Some(fd))
    && (s.socketFd.Some? && s.tunFd.Some? ==> s.socketFd != s.tunFd)
    && s.open <= s.everOpened
  }

  /** One attempt at a time: a suspended call, an armed timer, or a connection. */
  predicate Single(s: Ability) {
    && Live(s.conts) <= 1
    && (s.timers != {} || (s.connected && !s.stopped) ==> Live(s.conts) == 0)
    && (s.timers != {} ==> !s.stopped && !s.connected)
    && s.timers <= (if s.retryTimer.Some? then {s.retryTimer.value} else {})
    && (s.timers != {} ==> s.socketFd.None? && s.tunFd.None?)
  }

  /** Whoever awaits a cleanup: an establish that is current, or one that `onDestroy` has made stale. */
  predicate Fits(s: Ability, after: After) {
    match after
    case Quit => s.stopped
    case Caught(g, _) => g == s.generation || s.stopped
    case Lost => true
    case Destroyed => s.stopped
  }

  /** What each suspended call may rely on when it comes back. */
  predicate Expects(s: Ability, c: Cont) {
    match c
    case Protecting(g) => s.tunFd.None? && (g == s.generation || s.stopped)
    case Connecting(g) => s.tunFd.None? && (g == s.generation || s.stopped)
    case Creating(g) => s.tunFd.None? && (g == s.generation || s.stopped)
    case Destroying(after) => s.tunFd.None? && Fits(s, after)
    case CleanedUp(after) => s.tunFd.None? && Fits(s, after) && (after != Destroyed ==> s.socketFd.None?)
  }

  /** Once stopped, an open socket has a suspended cleanup that will close it. */
  ghost predicate Released(s: Ability) {
    s.stopped ==> s.tunFd.None? && (s.socketFd.Some? ==> exists a :: Destroying(a) in s.conts)
  }

  ghost predicate Valid(s: Ability) {
    Owned(s) && Single(s) && Released(s) && AllExpect(s)
  }

  predicate AllExpect(s: Ability) { forall c | c in s.conts :: Expects(s, c) }

  // ---------------------------------------------------------------------------------------

  /** The ends of `onDestroy` among the suspended calls. */
  function Endings(conts: multiset<Cont>): (e: multiset<Cont>)
    ensures e <= conts && |e| == conts[Destroying(Destroyed)] + conts[CleanedUp(Destroyed)]
    ensures forall c | c in e :: Ending(c)
  {
    multiset{}[Destroying(Destroyed) := conts[Destroying(Destroyed)]]
              [CleanedUp(Destroyed) := conts[CleanedUp(Destroyed)]]
  }

  lemma LiveIsEmpty(conts: multiset<Cont>)
    ensures Live(conts) >= 0
    ensures Live(conts) == 0 ==> forall c | c in conts :: Ending(c)
  {
    var e := Endings(conts);
    assert |conts - e| == |conts| - |e|;
    if Live(conts) == 0 {
      assert conts - e == multiset{};
      assert conts == e;
    }
  }

  /** Taking the one live call away leaves only the ends of `onDestroy`. */
  lemma OneLive(conts: multiset<Cont>, c: Cont)
    requires c in conts && !Ending(c) && Live(conts) <= 1
    ensures Live(conts) == 1 && Live(conts - multiset{c}) == 0
    ensures forall d | d in conts - multiset{c} :: Ending(d)
  {
    LiveIsEmpty(conts - multiset{c});
  }

  /** Between attempts: no live call, no timer, no connection. */
  ghost predicate Between(s: Ability) {
    && Owned(s) && Released(s)
    && s.timers == {}
    && (s.connected ==> s.stopped)
    && (forall c | c in s.conts :: Ending(c) && s.stopped && s.tunFd.None?)
    && Live(s.conts) == 0
  }

  lemma LiveSuspend(conts: multiset<Cont>, c: Cont)
    ensures Live(conts + multiset{c}) == Live(conts) + if Ending(c) then 0 else 1
  {
  }

  /** Taking a call of the one attempt away leaves the ability between attempts. */
  lemma TakeLive(s: Ability, c: Cont)
    requires Valid(s) && c in s.conts && !Ending(c)
    requires c.Destroying? ==> s.socketFd.None?
    ensures Between(s.(conts := s.conts - multiset{c}))
  {
    OneLive(s.conts, c);
    var t := s.(conts := s.conts - multiset{c});
    assert forall d | d in t.conts :: d in s.conts && Expects(s, d);
    if s.stopped && s.socketFd.Some? {
      var a :| Destroying(a) in s.conts;
      assert Destroying(a) != c;
      assert Destroying(a) in t.conts;
    }
  }

  /** From there a cleanup, on whose behalf ever, is in order. */
  lemma CleanupBetween(s: Ability, after: After)
    requires Owned(s) && s.timers == {} && (s.connected ==> s.stopped)
    requires Live(s.conts) == 0 && after != Destroyed && Fits(s, after)
    requires forall c | c in s.conts :: Ending(c) && s.stopped
    requires s.tunFd.None? ==> Released(s)
    ensures Valid(Cleanup(s, after))
  {
    CleanupShape(s, after);
    var d := if s.tunFd.Some? then Destroying(after) else CleanedUp(after);
    LiveSuspend(s.conts, d);
    hide Live, Owned, Cleanup;
    assert d in Cleanup(s, after).conts;
  }

  /** What a cleanup changes, and that it closes what it gives up. */
  lemma CleanupShape(s: Ability, after: After)
    requires Owned(s)
    ensures var t := Cleanup(s, after);
            && Owned(t)
            && t == s.(tunFd := None, socketFd := if s.tunFd.Some? then s.socketFd else None, open := t.open,
                       conts := s.conts + multiset{if s.tunFd.Some? then Destroying(after) else CleanedUp(after)})
  {
  }

  lemma EstablishBetween(s: Ability, socket: Option<Fd>, fatal: bool, publishes: bool)
    requires Between(s) && !s.stopped && s.socketFd.None? && s.tunFd.None?
    requires socket.Some? ==> socket.value !in s.everOpened
    ensures Valid(Establish(s, s.generation, socket, fatal, publishes))
  {
    assert s.conts == multiset{} by {
      assert forall c | c in s.conts :: false;
    }
    var p := if publishes then s.(connected := false) else s;
    if socket.Some? {
      LiveSuspend(p.conts, Protecting(s.generation));
    } else {
      CleanupBetween(p, Caught(s.generation, fatal));
    }
  }

  lemma ResumeEstablishKeeps(s: Ability, c: Cont, o: Outcome)
    requires Valid(s) && c in s.conts && (c.Protecting? || c.Connecting? || c.Creating?)
    requires o.Resolved? ==> o.fd !in s.everOpened
    ensures Valid(ResumeEstablish(s.(conts := s.conts - multiset{c}), c, o))
  {
    TakeLive(s, c);
    assert Expects(s, c);
    var u := s.(conts := s.conts - multiset{c});
    hide Valid, Between;
    match o
    case Rejected(fatal) => BetweenCleanup(u, Caught(c.generation, fatal));
    case Resolved(fd, starts, publishes) =>
      if c.Creating? {
        CreatedKeeps(u, c.generation, fd, starts, publishes);
      } else if Stale(u, c.generation) {
        BetweenCleanup(u, Quit);
      } else {
        BetweenSuspend(u, if c.Protecting? then Connecting(c.generation) else Creating(c.generation));
      }
  }

  lemma BetweenCleanup(s: Ability, after: After)
    requires Between(s) && after != Destroyed && Fits(s, after)
    ensures Valid(Cleanup(s, after))
  {
    CleanupBetween(s, after);
  }

  /** The attempt goes on to its next await. */
  lemma BetweenSuspend(s: Ability, c: Cont)
    requires Between(s) && !s.stopped && s.tunFd.None?
    requires (c.Protecting? || c.Connecting? || c.Creating?) && c.generation == s.generation
    ensures Valid(Suspend(s, c))
  {
    LiveSuspend(s.conts, c);
  }

  /** The tun device was opened: it is kept, or given back at once. */
  lemma CreatedKeeps(s: Ability, generation: nat, fd: Fd, starts: bool, publishes: bool)
    requires Between(s) && s.tunFd.None? && fd !in s.everOpened && (generation == s.generation || s.stopped)
    ensures Valid(ResumeEstablish(s, Creating(generation), Resolved(fd, starts, publishes)))
  {
    var t := OpenFd(s, fd).(tunFd := Some(fd));
    if s.stopped {
      CleanupBetween(t, Quit);
    }
    CleanupBetween(t, Caught(generation, false));
    if !Stale(t, generation) {
      assert t.conts == multiset{} by {
        assert forall d | d in t.conts :: false;
      }
    }
  }

  lemma BetweenIsValid(s: Ability)
    requires Between(s)
    ensures Valid(s)
  {
  }

  lemma ScheduleBetween(s: Ability, timer: nat)
    requires Between(s) && s.socketFd.None? && s.tunFd.None?
    ensures Valid(ScheduleRetry(s, timer))
  {
    assert !s.stopped ==> ScheduleRetry(s, timer).timers == {timer};
  }

  lemma CloseSocketOwned(s: Ability)
    requires Owned(s)
    ensures Owned(CloseSocket(s)) && CloseSocket(s) == s.(socketFd := None, open := CloseSocket(s).open)
  {
  }

  lemma ExpectsWithoutSocket(s: Ability, t: Ability, rest: multiset<Cont>, c: Cont)
    requires AllExpect(s) && rest <= s.conts && t.conts == rest + multiset{c} && Expects(t, c)
    requires t.tunFd == s.tunFd && t.socketFd.None? && t.generation == s.generation && t.stopped == s.stopped
    ensures AllExpect(t)
  {
    forall d | d in t.conts ensures Expects(t, d) {
      assert d == c || (d in s.conts && Expects(s, d));
    }
  }

  /** A cleanup comes back from destroying the tun device, and closes what socket there is. */
  lemma DestroyingKeeps(s: Ability, after: After)
    requires Valid(s) && Destroying(after) in s.conts
    ensures Valid(Suspend(CloseSocket(s.(conts := s.conts - multiset{Destroying(after)})), CleanedUp(after)))
  {
    var rest := s.conts - multiset{Destroying(after)};
    DestroyingKeepsSingle(s, rest, after);
    assert Expects(s, Destroying(after));
    CloseSocketOwned(s.(conts := rest));
    var t := Suspend(CloseSocket(s.(conts := rest)), CleanedUp(after));
    hide Live, CloseSocket, Owned, Single, AllExpect;
    ExpectsWithoutSocket(s, t, rest, CleanedUp(after));
    SameSingle(s, t);
  }

  lemma DestroyingKeepsSingle(s: Ability, rest: multiset<Cont>, after: After)
    requires Destroying(after) in s.conts && rest == s.conts - multiset{Destroying(after)}
    ensures Live(rest + multiset{CleanedUp(after)}) == Live(s.conts)
  {
    LiveSuspend(rest, Destroying(after));
    LiveSuspend(rest, CleanedUp(after));
    assert rest + multiset{Destroying(after)} == s.conts;
  }

  lemma SameSingle(s: Ability, t: Ability)
    requires Single(s) && t.socketFd.None? && t.tunFd.None? && Live(t.conts) == Live(s.conts)
    requires t.timers == s.timers && t.retryTimer == s.retryTimer
    requires t.connected == s.connected && t.stopped == s.stopped
    ensures Single(t)
  {
    hide Live;
  }

  lemma EndedKeeps(s: Ability)
    requires Valid(s) && CleanedUp(Destroyed) in s.conts
    ensures Valid(s.(conts := s.conts - multiset{CleanedUp(Destroyed)}))
  {
    var rest := s.conts - multiset{CleanedUp(Destroyed)};
    LiveSuspend(rest, CleanedUp(Destroyed));
    assert rest + multiset{CleanedUp(Destroyed)} == s.conts;
    hide Live;
    assert forall c | c in rest :: c in s.conts && Expects(s, c);
    if s.stopped && s.socketFd.Some? {
      var a :| Destroying(a) in s.conts;
      assert Destroying(a) in rest;
    }
  }

  lemma ResumeKeeps(s: Ability, c: Cont, o: Outcome, timer: nat)
    requires Valid(s) && c in s.conts && (o.Resolved? ==> o.fd !in s.everOpened)
    ensures Valid(Resume(s, c, o, timer))
  {
    assert Expects(s, c);
    match c
    case Destroying(after) => DestroyingKeeps(s, after);
    case CleanedUp(after) =>
      if after == Destroyed {
        EndedKeeps(s);
      } else {
        TakeLive(s, c);
        var t := s.(conts := s.conts - multiset{c});
        hide Valid, Between;
        BetweenIsValid(t);
        ScheduleBetween(t, timer);
      }
    case _ => ResumeEstablishKeeps(s, c, o);
  }

  lemma TickKeeps(s: Ability)
    requires Valid(s) && s.connected && !s.stopped
    ensures Valid(Cleanup(s.(connected := false), Lost))
  {
    LiveIsEmpty(s.conts);
    assert forall c | c in s.conts :: Ending(c) && Expects(s, c);
    CleanupBetween(s.(connected := false), Lost);
  }

  lemma FireKeeps(s: Ability, timer: nat, socket: Option<Fd>, fatal: bool, publishes: bool)
    requires Valid(s) && timer in s.timers && (socket.Some? ==> socket.value !in s.everOpened)
    ensures Valid(Step(s, Fire(timer, socket, fatal, publishes)))
  {
    FiredIsBetween(s, timer);
    hide Valid, Between, Establish;
    EstablishBetween(Fired(s, timer), socket, fatal, publishes);
  }

  lemma FiredIsBetween(s: Ability, timer: nat)
    requires Valid(s) && timer in s.timers
    ensures var t := Fired(s, timer);
            Between(t) && !t.stopped && t.socketFd.None? && t.tunFd.None?
  {
    LiveIsEmpty(s.conts);
    hide Live;
    assert forall c | c in s.conts :: Ending(c) && Expects(s, c);
    assert Fired(s, timer).timers == {};
  }

  lemma DestroyKeeps(s: Ability, publishes: bool)
    requires Valid(s)
    ensures Valid(Step(s, Destroy(publishes)))
  {
    StopShape(s, publishes);
    hide Valid, Stop;
    CleanupStopped(Stop(s, publishes));
  }

  lemma StopShape(s: Ability, publishes: bool)
    requires Valid(s)
    ensures var u := Stop(s, publishes);
            u.stopped && u.timers == {} && Owned(u) && Live(u.conts) <= 1 && AllExpect(u)
  {
    var u := Stop(s, publishes);
    assert u.timers == {};
    forall c | c in u.conts ensures Expects(u, c) {
      assert Expects(s, c);
    }
  }

  lemma CleanupStopped(s: Ability)
    requires s.stopped && s.timers == {} && Owned(s) && Live(s.conts) <= 1 && AllExpect(s)
    ensures Valid(Cleanup(s, Destroyed))
  {
    CleanupShape(s, Destroyed);
    var d := if s.tunFd.Some? then Destroying(Destroyed) else CleanedUp(Destroyed);
    LiveSuspend(s.conts, d);
    hide Live, Owned, Cleanup;
    var t := Cleanup(s, Destroyed);
    assert d in t.conts;
    forall c | c in t.conts ensures Expects(t, c) {
      assert c == d || Expects(s, c);
    }
  }

  lemma BeginKeeps(socket: Option<Fd>, fatal: bool, publishes: bool)
    ensures Valid(Step(Created(), Begin(socket, fatal, publishes)))
  {
    var t := Created().(generation := 1);
    EstablishBetween(t, socket, fatal, publishes);
  }

  lemma StepKeeps(s: Ability, e: Event)
    requires Valid(s) && Enabled(s, e)
    ensures Valid(Step(s, e))
  {
    hide Valid;
    match e
    case Begin(socket, fatal, publishes) => BeginKeeps(socket, fatal, publishes);
    case Resumed(c, o, timer) => ResumeKeeps(s, c, o, timer);
    case Tick(lost) => if s.connected && !s.stopped { TickKeeps(s); }
    case Fire(timer, socket, fatal, publishes) => FireKeeps(s, timer, socket, fatal, publishes);
    case Destroy(publishes) => DestroyKeeps(s, publishes);
  }

  lemma {:induction false} RunKeeps(s: Ability, es: seq<Event>)
    requires Valid(s) && Runs(s, es)
    ensures Valid(Run(s, es))
    decreases es
  {
    hide Valid, Step, Enabled;
    if es != [] {
      StepKeeps(s, es[0]);
      RunKeeps(Step(s, es[0]), es[1..]);
    }
  }

  // ---------------------------------------------------------------------------------------
  // Theorems over every interleaving
  // ---------------------------------------------------------------------------------------

  /** No descriptor is closed twice or by a wrong owner, and none is forgotten while it is open. */
  lemma {:induction false} DescriptorsAreOwned(es: seq<Event>)
    requires Runs(Created(), es)
    ensures var s := Run(Created(), es);
            && !s.misclosed
            && (forall fd :: fd in s.open <==> s.socketFd == Some(fd) || s.tunFd == Some(fd))
            && s.open <= s.everOpened
  {
    RunKeeps(Created(), es);
  }

  /** At most one attempt to connect is under way. */
  lemma {:induction false} OneEstablishAtATime(es: seq<Event>, c: Cont, d: Cont)
    requires Runs(Created(), es)
    requires var s := Run(Created(), es); c in s.conts && d in s.conts
    requires (c.Protecting? || c.Connecting? || c.Creating?) && (d.Protecting? || d.Connecting? || d.Creating?)
    ensures c == d && Run(Created(), es).conts[c] == 1 && Run(Created(), es).timers == {}
  {
    RunKeeps(Created(), es);
    var s := Run(Created(), es);
    hide Run, Runs;
    OneLive(s.conts, c);
    assert d !in s.conts - multiset{c} && c !in s.conts - multiset{c};
  }

  /**
   * Once `onDestroy` has run and no destruction of a tun device is still awaited, every
   * descriptor that was ever opened has been closed; a `create` that is still awaited gives its
   * device back in the step that receives it.
   */
  lemma {:induction false} NothingLeaksAfterDestroy(es: seq<Event>)
    requires Runs(Created(), es)
    requires var s := Run(Created(), es); s.stopped && forall a :: Destroying(a) !in s.conts
    ensures Run(Created(), es).open == {}
  {
    RunKeeps(Created(), es);
  }

  // ---------------------------------------------------------------------------------------
  // The ability itself, its fields updated in place
  // ---------------------------------------------------------------------------------------

  class TetherVpnAbility {
    var stopped: bool
    var generation: nat
    var socketFd: Option<Fd>
    var tunFd: Option<Fd>
    var connected: bool
    var timers: set<nat>
    var retryTimer: Option<nat>
    var conts: multiset<Cont>
    ghost var everOpened: set<Fd>
    ghost var open: set<Fd>
    ghost var misclosed: bool

    ghost function View(): Ability
      reads this
    {
      Ability(stopped, generation, socketFd, tunFd, connected, timers, retryTimer, conts, everOpened, open, misclosed)
    }

    constructor ()
      ensures View() == Created()
    {
      stopped, generation, socketFd, tunFd, connected := false, 0, None, None, false;
      timers, retryTimer, conts := {}, None, multiset{};
      everOpened, open, misclosed := {}, {}, false;
    }

    ghost method Close(fd: Fd)
      modifies `open, `misclosed
      ensures View() == CloseFd(old(View()), fd)
    {
      if fd in open {
        open := open - {fd};
      } else {
        misclosed := true;
      }
    }

    method ReleaseSocket()
      modifies `socketFd, `open, `misclosed
      ensures View() == CloseSocket(old(View()))
    {
      if socketFd.Some? {
        Close(socketFd.value);
        socketFd := None;
      }
    }

    method Clean(after: After)
      modifies `socketFd, `tunFd, `conts, `open, `misclosed
      ensures View() == Cleanup(old(View()), after)
    {
      if tunFd.Some? {
        Close(tunFd.value);
        tunFd := None;
        conts := conts + multiset{Destroying(after)};
      } else {
        ReleaseSocket();
        conts := conts + multiset{CleanedUp(after)};
      }
    }

    method IsStale(attempt: nat) returns (b: bool)
      ensures b == Stale(View(), attempt)
    {
      b := stopped || attempt != generation;
    }

    method EstablishNow(attempt: nat, socket: Option<Fd>, fatal: bool, publishes: bool)
      modifies this
      ensures View() == Establish(old(View()), attempt, socket, fatal, publishes)
    {
      hide Cleanup;
      var stale := IsStale(attempt);
      if stale {
        return;
      }
      if publishes {
        connected := false;
      }
      if socket.Some? {
        socketFd := socket;
        everOpened, open := everOpened + {socket.value}, open + {socket.value};
        conts := conts + multiset{Protecting(attempt)};
      } else {
        Clean(Caught(attempt, fatal));
      }
    }

    method RetryLater(timer: nat)
      modifies `timers, `retryTimer
      ensures View() == ScheduleRetry(old(View()), timer)
    {
      if !stopped {
        timers := timers + {timer};
        retryTimer := Some(timer);
      }
    }

    /** `establish` after one of its awaits. */
    method Continue(c: Cont, o: Outcome)
      requires c.Protecting? || c.Connecting? || c.Creating?
      modifies this
      ensures View() == ResumeEstablish(old(View()), c, o)
    {
      hide Cleanup;
      match o
      case Rejected(fatal) => Clean(Caught(c.generation, fatal));
      case Resolved(fd, starts, publishes) =>
        if c.Creating? {
          tunFd := Some(fd);
          everOpened, open := everOpened + {fd}, open + {fd};
        }
        var stale := IsStale(c.generation);
        if stale {
          Clean(Quit);
        } else if c.Protecting? {
          conts := conts + multiset{Connecting(c.generation)};
        } else if c.Connecting? {
          conts := conts + multiset{Creating(c.generation)};
        } else if !starts {
          Clean(Caught(c.generation, false));
        } else if publishes {
          connected := true;
        }
    }

    /** Whatever was awaited comes back. */
    method Settle(c: Cont, o: Outcome, timer: nat)
      requires c in conts
      modifies this
      ensures View() == Resume(old(View()), c, o, timer)
    {
      hide ResumeEstablish, CloseSocket, ScheduleRetry;
      conts := conts - multiset{c};
      match c
      case Destroying(after) =>
        ReleaseSocket();
        conts := conts + multiset{CleanedUp(after)};
      case CleanedUp(after) =>
        match after {
          case Quit =>
          case Destroyed =>
          case Lost => RetryLater(timer);
          case Caught(g, fatal) =>
            var stale := IsStale(g);
            if !stale && !fatal {
              RetryLater(timer);
            }
        }
      case _ => Continue(c, o);
    }

    method OnTick(lost: bool)
      modifies this
      ensures View() == Step(old(View()), Tick(lost))
    {
      hide Cleanup;
      if !stopped && connected && lost {
        connected := false;
        Clean(Lost);
      }
    }

    method OnRetryTimer(timer: nat, socket: Option<Fd>, fatal: bool, publishes: bool)
      requires Enabled(View(), Fire(timer, socket, fatal, publishes))
      modifies this
      ensures View() == Step(old(View()), Fire(timer, socket, fatal, publishes))
    {
      hide Establish;
      timers := timers - {timer};
      retryTimer := None;
      generation := generation + 1;
      EstablishNow(generation, socket, fatal, publishes);
    }

    method OnDestroy(publishes: bool)
      modifies this
      ensures View() == Step(old(View()), Destroy(publishes))
    {
      hide Cleanup;
      stopped := true;
      generation := generation + 1;
      if retryTimer.Some? {
        timers := timers - {retryTimer.value};
      }
      if publishes {
        connected := false;
      }
      Clean(Destroyed);
    }
  }
}
