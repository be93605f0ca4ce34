/**
 * What the VPN ability does, step by step and over every run: it comes up in stages, notices a lost
 * tunnel, and goes on trying unless the system refuses it for good.
 */
module VpnProgress {
  import opened Words
  import opened VpnAbility

  // ---------------------------------------------------------------------------------------
  // Stages
  // ---------------------------------------------------------------------------------------

  /** Calls suspended at `c` that were not before. */
  predicate Enters(s: Ability, t: Ability, c: Cont) { t.conts[c] > s.conts[c] }

  /** The call `c` comes back with success, and is still the current attempt. */
  predicate Succeeds(s: Ability, e: Event, c: Cont) {
    && e.Resumed? && e.c == c && e.o.Resolved?
    && (c.Protecting? || c.Connecting? || c.Creating?) && !Stale(s, c.generation)
  }

  /**
   * An attempt begins with a new generation; the socket is connected only once it is protected, the
   * tun device made only once it is connected, and the state 'connected' published only once the
   * tunnel has started over both.
   */
  lemma StagesInOrder(s: Ability, e: Event, g: nat)
    requires Enabled(s, e)
    ensures var t := Step(s, e);
            && (Enters(s, t, Protecting(g)) ==> (e.Begin? || e.Fire?) && g == t.generation == s.generation + 1)
            && (Enters(s, t, Connecting(g)) ==> Succeeds(s, e, Protecting(g)))
            && (Enters(s, t, Creating(g)) ==> Succeeds(s, e, Connecting(g)))
            && (t.tunFd.Some? && t.tunFd != s.tunFd ==>
                  e.Resumed? && e.c.Creating? && Succeeds(s, e, e.c) && e.o.starts && t.tunFd == Some(e.o.fd))
            && (t.connected && !s.connected ==>
                  e.Resumed? && e.c.Creating? && Succeeds(s, e, e.c) && e.o.starts && e.o.publishes)
  {
    hide Cleanup, CloseSocket;
    match e
    case Begin(socket, fatal, publishes) =>
      CleanupStages(s.(generation := s.generation + 1), Caught(s.generation + 1, fatal), g);
    case Resumed(c, o, timer) => ResumeStages(s, c, o, timer, g);
    case Tick(lost) => CleanupStages(s.(connected := false), Lost, g);
    case Fire(timer, socket, fatal, publishes) => FireStages(s, timer, socket, fatal, publishes, g);
    case Destroy(publishes) => CleanupStages(Stop(s, publishes), Destroyed, g);
  }

  lemma CloseFdGives(s: Ability, fd: Fd)
    ensures var t := CloseFd(s, fd); t == s.(open := t.open, misclosed := t.misclosed)
  {
  }

  lemma CloseSocketGives(s: Ability)
    ensures var t := CloseSocket(s); t == s.(socketFd := None, open := t.open, misclosed := t.misclosed)
  {
    hide CloseFd;
    if s.socketFd.Some? {
      CloseFdGives(s, s.socketFd.value);
    }
  }

  /** What a cleanup changes but descriptors. */
  lemma CleanupGives(s: Ability, after: After)
    ensures var t := Cleanup(s, after);
            var c := if s.tunFd.Some? then Destroying(after) else CleanedUp(after);
            t == s.(tunFd := None, socketFd := if s.tunFd.Some? then s.socketFd else None,
                    open := t.open, misclosed := t.misclosed, conts := s.conts + multiset{c})
  {
    hide CloseFd, CloseSocket;
    CloseSocketGives(s);
    if s.tunFd.Some? {
      CloseFdGives(s, s.tunFd.value);
    }
  }

  /** A cleanup starts nothing. */
  lemma CleanupStages(s: Ability, after: After, g: nat)
    ensures var t := Cleanup(s, after);
            && t.conts[Protecting(g)] == s.conts[Protecting(g)] && t.conts[Connecting(g)] == s.conts[Connecting(g)]
            && t.conts[Creating(g)] == s.conts[Creating(g)]
            && t.tunFd.None? && t.connected == s.connected && t.generation == s.generation
  {
    CleanupGives(s, after);
    hide Cleanup;
  }

  lemma FireStages(s: Ability, timer: nat, socket: Option<Fd>, fatal: bool, publishes: bool, g: nat)
    ensures var u := Fired(s, timer);
            var t := Establish(u, u.generation, socket, fatal, publishes);
            && (Enters(s, t, Protecting(g)) ==> g == t.generation == s.generation + 1)
            && t.conts[Connecting(g)] == s.conts[Connecting(g)] && t.conts[Creating(g)] == s.conts[Creating(g)]
            && (t.tunFd.Some? ==> t.tunFd == s.tunFd) && (t.connected ==> s.connected)
  {
    hide Cleanup;
    var u := Fired(s, timer);
    CleanupStages(if publishes then u.(connected := false) else u, Caught(u.generation, fatal), g);
  }

  lemma ResumeStages(s: Ability, c: Cont, o: Outcome, timer: nat, g: nat)
    requires c in s.conts
    ensures var t, e := Resume(s, c, o, timer), Resumed(c, o, timer);
            && t.conts[Protecting(g)] <= s.conts[Protecting(g)]
            && (Enters(s, t, Connecting(g)) ==> Succeeds(s, e, Protecting(g)))
            && (Enters(s, t, Creating(g)) ==> Succeeds(s, e, Connecting(g)))
            && (t.tunFd.Some? && t.tunFd != s.tunFd ==>
                  c.Creating? && Succeeds(s, e, c) && o.starts && t.tunFd == Some(o.fd))
            && (t.connected && !s.connected ==> c.Creating? && Succeeds(s, e, c) && o.starts && o.publishes)
  {
    hide ResumeEstablish, CloseSocket;
    match c
    case Destroying(after) => CloseSocketGives(s.(conts := s.conts - multiset{c}));
    case CleanedUp(after) =>
    case _ => EstablishStages(s, c, o, timer, g);
  }

  lemma EstablishStages(s: Ability, c: Cont, o: Outcome, timer: nat, g: nat)
    requires c in s.conts && (c.Protecting? || c.Connecting? || c.Creating?)
    ensures var t, e := ResumeEstablish(s.(conts := s.conts - multiset{c}), c, o), Resumed(c, o, timer);
            && t.conts[Protecting(g)] <= s.conts[Protecting(g)]
            && (Enters(s, t, Connecting(g)) ==> Succeeds(s, e, Protecting(g)))
            && (Enters(s, t, Creating(g)) ==> Succeeds(s, e, Connecting(g)))
            && (t.tunFd.Some? && t.tunFd != s.tunFd ==>
                  c.Creating? && Succeeds(s, e, c) && o.starts && t.tunFd == Some(o.fd))
            && (t.connected && !s.connected ==> c.Creating? && Succeeds(s, e, c) && o.starts && o.publishes)
  {
    hide Cleanup;
    var u := s.(conts := s.conts - multiset{c});
    var k := if c.Creating? && o.Resolved? then OpenFd(u, o.fd).(tunFd := Some(o.fd)) else u;
    if o.Rejected? {
      CleanupStages(k, Caught(c.generation, o.fatal), g);
    } else if Stale(k, c.generation) {
      CleanupStages(k, Quit, g);
    } else if c.Creating? {
      CleanupStages(k, Caught(c.generation, false), g);
    }
  }

  /** Each success is followed by the next stage, over the descriptors there are. */
  lemma StagesGoOn(s: Ability, e: Event, g: nat)
    requires Enabled(s, e) && e.Resumed? && Succeeds(s, e, e.c) && e.c.generation == g
    ensures var t := Step(s, e);
            var rest := s.conts - multiset{e.c};
            && (e.c.Protecting? ==> t == s.(conts := rest + multiset{Connecting(g)}))
            && (e.c.Connecting? ==> t == s.(conts := rest + multiset{Creating(g)}))
            && (e.c.Creating? && e.o.starts ==>
                  && t.conts == rest && t.tunFd == Some(e.o.fd) && t.socketFd == s.socketFd
                  && t.open == s.open + {e.o.fd} && (t.connected <==> s.connected || e.o.publishes))
            && (e.c.Creating? && !e.o.starts ==>
                  t.conts == rest + multiset{Destroying(Caught(g, false))} && t.tunFd.None?)
  {
  }

  // ---------------------------------------------------------------------------------------
  // A lost tunnel
  // ---------------------------------------------------------------------------------------

  /**
   * A tick leaves a running tunnel alone, and one that is not connected.  A lost one it takes down:
   * the tun device is closed at once, its destruction awaited, and a retry is to follow.
   */
  lemma TickActsIfLost(s: Ability, lost: bool)
    requires Valid(s) && (s.connected && !s.stopped ==> s.tunFd.Some?)
    ensures var t := Step(s, Tick(lost));
            if lost && s.connected && !s.stopped then
              && !t.connected && t.tunFd.None? && t.open == s.open - {s.tunFd.value} && t.socketFd == s.socketFd
              && t.conts == s.conts + multiset{Destroying(Lost)} && !t.misclosed
            else t == s
  {
  }

  /** When the destruction comes back, the socket is closed, and then a retry is armed. */
  lemma LostIsRetried(s: Ability, o: Outcome, timer: nat)
    requires Valid(s) && !s.stopped
    ensures Enabled(s, Resumed(Destroying(Lost), o, timer)) ==>
              var t := Step(s, Resumed(Destroying(Lost), o, timer));
              && t.socketFd.None? && t.open == {}
              && t.conts == s.conts - multiset{Destroying(Lost)} + multiset{CleanedUp(Lost)}
    ensures Enabled(s, Resumed(CleanedUp(Lost), o, timer)) ==>
              var t := Step(s, Resumed(CleanedUp(Lost), o, timer));
              timer in t.timers && t.retryTimer == Some(timer) && t.conts == s.conts - multiset{CleanedUp(Lost)}
  {
    if Destroying(Lost) in s.conts {
      assert Expects(s, Destroying(Lost));
    }
  }

  // ---------------------------------------------------------------------------------------
  // Progress
  // ---------------------------------------------------------------------------------------

  /** The current attempt has met an error for which the system is not to be asked again. */
  predicate GivesUp(s: Ability, e: Event) {
    e.Resumed? && e.c.CleanedUp? && e.c.after.Caught? && e.c.after.fatal && !Stale(s, e.c.after.generation)
  }

  /** The tunnel has started, but the session was no longer current, and nothing was published. */
  predicate Unseen(s: Ability, e: Event) {
    e.Resumed? && e.c.Creating? && Succeeds(s, e, e.c) && e.o.starts && !e.o.publishes
  }

  predicate GaveUp(s: Ability, es: seq<Event>)
    requires Runs(s, es)
    decreases es
  {
    es != [] && (GivesUp(s, es[0]) || GaveUp(Step(s, es[0]), es[1..]))
  }

  predicate WasUnseen(s: Ability, es: seq<Event>)
    requires Runs(s, es)
    decreases es
  {
    es != [] && (Unseen(s, es[0]) || WasUnseen(Step(s, es[0]), es[1..]))
  }

  /** Nothing is awaited, armed or up. */
  predicate Idle(s: Ability) { s.conts == multiset{} && s.timers == {} && s.tunFd.None? }

  /**
   * `gave` and `unseen` say whether the run so far has given up, and has come up unseen: an ability
   * that has begun and is not stopped is idle exactly if it gave up.
   */
  predicate Progresses(s: Ability, gave: bool, unseen: bool) {
    && (!s.stopped ==> forall c | c in s.conts :: c.Protecting? || c.Connecting? || c.Creating? ==> s.socketFd.Some?)
    && (s.generation == 0 && !s.stopped ==> s == Created() && !gave)
    && (s.generation > 0 && !s.stopped ==>
          && (gave <==> Idle(s))
          && (s.conts == multiset{} && s.tunFd.Some? ==> s.socketFd.Some? && (s.connected || unseen))
          && (s.connected ==> s.tunFd.Some? && s.conts == multiset{}))
  }

  lemma NoneLive(s: Ability)
    requires Valid(s) && !s.stopped
    ensures forall c | c in s.conts :: s.conts == multiset{c} && !Ending(c) && s.timers == {} && !s.connected
    ensures s.conts == multiset{} || exists c :: c in s.conts
  {
    forall c | c in s.conts
      ensures s.conts == multiset{c} && !Ending(c) && s.timers == {} && !s.connected
    {
      assert Expects(s, c);
      OneLive(s.conts, c);
      var rest := s.conts - multiset{c};
      assert forall d | d in rest :: Ending(d) && d in s.conts && Expects(s, d);
      assert rest == multiset{};
      assert s.conts == rest + multiset{c};
    }
  }

  lemma ProgressStep(s: Ability, e: Event, gave: bool, unseen: bool)
    requires Valid(s) && Enabled(s, e) && Progresses(s, gave, unseen)
    ensures Progresses(Step(s, e), gave || GivesUp(s, e), unseen || Unseen(s, e))
  {
    if s.stopped {
      StaysStopped(s, e);
    } else {
      NoneLive(s);
      hide Live, Resume, Establish, Cleanup;
      match e
      case Begin(socket, fatal, publishes) => ProgressBegins(s.(generation := 1), socket, fatal, publishes, unseen);
      case Resumed(c, o, timer) => ProgressResumed(s, c, o, timer, gave, unseen);
      case Tick(lost) => CleanupWaits(s.(connected := false), Lost);
      case Fire(timer, socket, fatal, publishes) =>
        ProgressBegins(Fired(s, timer), socket, fatal, publishes, unseen);
      case Destroy(publishes) => CleanupWaits(Stop(s, publishes), Destroyed);
    }
  }

  lemma StaysStopped(s: Ability, e: Event)
    requires s.stopped && Enabled(s, e)
    ensures Step(s, e).stopped
  {
  }

  /** An attempt that begins is awaited somewhere. */
  lemma ProgressBegins(s: Ability, socket: Option<Fd>, fatal: bool, publishes: bool, unseen: bool)
    requires !s.stopped && s.generation > 0 && !s.connected && s.conts == multiset{}
    ensures Progresses(Establish(s, s.generation, socket, fatal, publishes), false, unseen)
  {
    hide Cleanup;
    CleanupWaits(if publishes then s.(connected := false) else s, Caught(s.generation, fatal));
    assert Protecting(s.generation) in multiset{Protecting(s.generation)};
  }

  lemma ProgressResumed(s: Ability, c: Cont, o: Outcome, timer: nat, gave: bool, unseen: bool)
    requires !s.stopped && s.conts == multiset{c} && s.timers == {} && !s.connected
    requires AllExpect(s) && Progresses(s, gave, unseen)
    ensures var e := Resumed(c, o, timer);
            Progresses(Resume(s, c, o, timer), gave || GivesUp(s, e), unseen || Unseen(s, e))
  {
    assert Expects(s, c) && s.generation > 0 && !gave && c in s.conts;
    var u := s.(conts := multiset{});
    assert u == s.(conts := s.conts - multiset{c});
    hide CloseSocket, ResumeEstablish;
    match c
    case Destroying(after) =>
      CloseSocketGives(u);
      assert CleanedUp(after) in multiset{CleanedUp(after)};
    case CleanedUp(after) =>
    case _ => ProgressEstablish(s, c, o, timer, unseen);
  }

  /** The attempt is awaited again, cleaned up, or up. */
  lemma ProgressEstablish(s: Ability, c: Cont, o: Outcome, timer: nat, unseen: bool)
    requires !s.stopped && s.conts == multiset{c} && s.timers == {} && !s.connected && s.generation > 0
    requires (c.Protecting? || c.Connecting? || c.Creating?) && Expects(s, c) && s.socketFd.Some?
    ensures var e := Resumed(c, o, timer);
            var t := ResumeEstablish(s.(conts := multiset{}), c, o);
            Progresses(t, false, unseen || Unseen(s, e))
  {
    hide Cleanup;
    var u := s.(conts := multiset{});
    var k := if c.Creating? && o.Resolved? then OpenFd(u, o.fd).(tunFd := Some(o.fd)) else u;
    CleanupWaits(k, Caught(c.generation, false));
    CleanupWaits(k, Caught(c.generation, true));
    assert Connecting(c.generation) in multiset{Connecting(c.generation)};
    assert Creating(c.generation) in multiset{Creating(c.generation)};
  }

  lemma CleanupWaits(s: Ability, after: After)
    ensures var t := Cleanup(s, after);
            && t == s.(tunFd := None, socketFd := t.socketFd, open := t.open, misclosed := t.misclosed,
                       conts := t.conts)
            && t.conts != multiset{}
            && (s.conts == multiset{} ==> forall c | c in t.conts :: c.Destroying? || c.CleanedUp?)
  {
    CleanupGives(s, after);
    hide Cleanup;
    assert Destroying(after) in s.conts + multiset{Destroying(after)};
    assert CleanedUp(after) in s.conts + multiset{CleanedUp(after)};
  }

  lemma {:induction false} ProgressRun(s: Ability, es: seq<Event>, gave: bool, unseen: bool)
    requires Valid(s) && Runs(s, es) && Progresses(s, gave, unseen)
    ensures Progresses(Run(s, es), gave || GaveUp(s, es), unseen || WasUnseen(s, es))
    decreases es
  {
    hide Valid, Step, Enabled, Progresses, GivesUp, Unseen;
    if es != [] {
      StepKeeps(s, es[0]);
      ProgressStep(s, es[0], gave, unseen);
      ProgressRun(Step(s, es[0]), es[1..], gave || GivesUp(s, es[0]), unseen || Unseen(s, es[0]));
    }
  }

  lemma {:induction false} BegunCounts(s: Ability, es: seq<Event>)
    requires Runs(s, es) && (s.generation > 0 || exists e :: e in es && e.Begin?)
    ensures Run(s, es).generation > 0
    decreases es
  {
    if es != [] {
      GenerationGrows(s, es[0]);
      if !es[0].Begin? && s.generation == 0 {
        var e :| e in es && e.Begin?;
        assert e in es[1..];
      }
      hide Step, Enabled;
      BegunCounts(Step(s, es[0]), es[1..]);
    }
  }

  lemma GenerationGrows(s: Ability, e: Event)
    requires Enabled(s, e)
    ensures Step(s, e).generation >= s.generation && (e.Begin? ==> Step(s, e).generation > 0)
  {
    hide Cleanup, CloseFd;
    match e
    case Begin(socket, fatal, publishes) =>
      EstablishGenerations(s.(generation := s.generation + 1), socket, fatal, publishes);
    case Resumed(c, o, timer) => ResumeGenerations(s, c, o, timer);
    case Tick(lost) => CleanupGives(s.(connected := false), Lost);
    case Fire(timer, socket, fatal, publishes) => EstablishGenerations(Fired(s, timer), socket, fatal, publishes);
    case Destroy(publishes) => CleanupGives(Stop(s, publishes), Destroyed);
  }

  lemma EstablishGenerations(s: Ability, socket: Option<Fd>, fatal: bool, publishes: bool)
    ensures Establish(s, s.generation, socket, fatal, publishes).generation == s.generation
  {
    hide Cleanup;
    CleanupGives(if publishes then s.(connected := false) else s, Caught(s.generation, fatal));
  }

  lemma ResumeGenerations(s: Ability, c: Cont, o: Outcome, timer: nat)
    requires c in s.conts
    ensures Resume(s, c, o, timer).generation == s.generation
  {
    hide Cleanup, CloseSocket;
    var u := s.(conts := s.conts - multiset{c});
    CloseSocketGives(u);
    if c.Protecting? || c.Connecting? || c.Creating? {
      var k := if c.Creating? && o.Resolved? then OpenFd(u, o.fd).(tunFd := Some(o.fd)) else u;
      CleanupGives(k, Quit);
      CleanupGives(k, Caught(c.generation, false));
      CleanupGives(k, Caught(c.generation, true));
    }
  }

  /**
   * Progress.  In every run that has begun and is not stopped, the ability rests exactly if it was
   * refused for good.  Otherwise a call is awaited, a retry is armed, or the tunnel is up over both
   * descriptors and published as connected, unless it came up for a session no longer current.
   */
  lemma {:induction false} NeverStuck(es: seq<Event>)
    requires Runs(Created(), es) && (exists e :: e in es && e.Begin?) && !Run(Created(), es).stopped
    ensures var s := Run(Created(), es);
            && (GaveUp(Created(), es) <==> Idle(s))
            && (!GaveUp(Created(), es) ==>
                  || s.conts != multiset{}
                  || s.timers != {}
                  || (s.tunFd.Some? && s.socketFd.Some? && (s.connected || WasUnseen(Created(), es))))
            && (s.connected ==> s.tunFd.Some?)
  {
    BegunCounts(Created(), es);
    ProgressRun(Created(), es, false, false);
    hide Run, Runs, GaveUp, WasUnseen;
  }

  // ---------------------------------------------------------------------------------------
  // A run that comes up
  // ---------------------------------------------------------------------------------------

  /** The ability with socket 1, at this call. */
  function Attempting(c: Cont): Ability {
    Created().(generation := 1, socketFd := Some(1), conts := multiset{c}, everOpened := {1}, open := {1})
  }

  function Up(): Ability {
    Created().(generation := 1, socketFd := Some(1), tunFd := Some(2), connected := true,
               everOpened := {1, 2}, open := {1, 2})
  }

  function ComingUp(): seq<Event> {
    [Begin(Some(1), false, true), Resumed(Protecting(1), Resolved(9, true, true), 0),
     Resumed(Connecting(1), Resolved(9, true, true), 0), Resumed(Creating(1), Resolved(2, true, true), 0)]
  }

  lemma Begins()
    ensures var e := ComingUp()[0]; Enabled(Created(), e) && Step(Created(), e) == Attempting(Protecting(1))
  {
  }

  lemma GoesOn()
    ensures var e := ComingUp()[1]; var s := Attempting(Protecting(1));
            Enabled(s, e) && Step(s, e) == Attempting(Connecting(1))
    ensures var e := ComingUp()[2]; var s := Attempting(Connecting(1));
            Enabled(s, e) && Step(s, e) == Attempting(Creating(1))
  {
  }

  lemma Starts()
    ensures var e := ComingUp()[3]; var s := Attempting(Creating(1)); Enabled(s, e) && Step(s, e) == Up()
  {
    assert {1} + {2} == {1, 2};
  }

  lemma RunsCons(s: Ability, e: Event, es: seq<Event>)
    requires Enabled(s, e) && Runs(Step(s, e), es)
    ensures Runs(s, [e] + es) && Run(s, [e] + es) == Run(Step(s, e), es)
  {
    assert ([e] + es)[1..] == es;
  }

  /** Four events bring the tunnel up, over descriptors 1 and 2. */
  lemma ComesUp()
    ensures Runs(Created(), ComingUp()) && Run(Created(), ComingUp()) == Up()
  {
    var es := ComingUp();
    Begins();
    GoesOn();
    Starts();
    assert es == [es[0]] + ([es[1]] + ([es[2]] + ([es[3]] + [])));
    hide Step, Enabled, Created, Attempting, Up, ComingUp;
    RunsCons(Attempting(Creating(1)), es[3], []);
    RunsCons(Attempting(Connecting(1)), es[2], [es[3]] + []);
    RunsCons(Attempting(Protecting(1)), es[1], [es[2]] + ([es[3]] + []));
    RunsCons(Created(), es[0], [es[1]] + ([es[2]] + ([es[3]] + [])));
  }
}
