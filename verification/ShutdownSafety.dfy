/**
 Who can schedule, replace and cancel a forced shutdown.
 */
module ShutdownSafety {
  import opened Wrappers
  import opened Shutdown

  /** The same shutdown; the main loop writes the times only. */
  predicate SameShutdown(a: Rec, b: Rec) {
    a.how == b.how && a.force == b.force && a.uid == b.uid && a.osname == b.osname
  }

  /** The display is allowed to nuke the record: everybody, root, or its owner. */
  predicate NukeAllowed(d: Dpy, owner: int, uid: int) {
    match d.allowNuke
    case Everybody => true
    case RootOnly => uid == 0
    case Nobody => uid == owner
  }

  /** A display that may force a shutdown in the name of the user. */
  predicate ForceAllowed(d: Dpy, uid: int) {
    match d.allowNuke
    case Everybody => true
    case RootOnly => uid == 0
    case Nobody => false
  }

  /** What has to be true of an event that touches a forced record. */
  predicate Entitled(s: State, e: Event) {
    match e
    case FromDisplay(i, _) => i < |s.displays| && NukeAllowed(s.displays[i], s.sdRec.uid, UidOf(s.displays[i]))
    case UserOut(i, _) => i < |s.displays| && NukeAllowed(s.displays[i], s.sdRec.uid, s.displays[i].sdRec.uid)
    case FromSocket(_, _) => s.fifoAllowShutdown && (s.fifoAllowNuke || s.sdRec.uid == -1)
    case FromGreeter(_) => true      // the greeter decides that itself
    case _ => false
  }

  /** A step that does not touch the record leaves the shutdown what it was. */
  lemma {:induction false} KeptIsSame(s: State, e: Event)
    requires Step(s, e).1 == Kept
    ensures SameShutdown(Step(s, e).0.sdRec, s.sdRec)
    ensures !e.Turn? ==> Step(s, e).0.sdRec == s.sdRec
  {
  }

  /** A forced shutdown is only touched by who is entitled to; the main loop never does. */
  lemma {:induction false} TouchedByEntitled(s: State, e: Event)
    requires IsForced(s.sdRec) && Step(s, e).1 != Kept
    ensures Entitled(s, e)
  {
  }

  // ------------------------------------------------- who may give the command at all

  /** The display may schedule or cancel shutdowns in the name of the user; root's say is not needed to ask. */
  predicate ShutdownAllowed(d: Dpy, uid: int, asks: bool) {
    match d.allowShutdown
    case Everybody => true
    case RootOnly => uid == 0 || asks
    case Nobody => false
  }

  predicate AsksFirst(c: Command) {
    c.Shut? && c.force == Ask
  }

  predicate WantsForce(c: Command) {
    c.Shut? && c.force == ForceAll
  }

  /** The command drops what the display itself has scheduled, and is about nothing else. */
  predicate DropsOwn(c: Command) {
    match c
    case Cancel(global) => !global
    case Shut(how, start, _, _, _) => how == NoShutdown && start == 0
  }

  /** The command is about the end of the session, not about the global record. */
  predicate ForSessionEnd(c: Command) {
    match c
    case Cancel(global) => !global
    case Shut(_, start, _, _, _) => start == 0
  }

  /** When a display's command is refused: it may not at all, it may not nuke what stands, or it may not force. */
  lemma {:induction false} RefusedExactly(s: State, i: nat, c: Command)
    requires i < |s.displays|
    ensures var d, uid, r := s.displays[i], UidOf(s.displays[i]), DisplayCommand(s, i, c);
      && (r.1 == Perm <==>
            || !ShutdownAllowed(d, uid, AsksFirst(c))
            || (!DropsOwn(c) && IsForced(s.sdRec) && !NukeAllowed(d, s.sdRec.uid, uid))
            || (!DropsOwn(c) && WantsForce(c) && !ForceAllowed(d, uid)))
      && (r.1 == Perm ==> r.0 == s && r.2 == Kept)
      && (r.1 == Perm || r.1 == Ok)
  {
  }

  /** What a command does that is not refused. */
  lemma {:induction false} ObeyedExactly(s: State, i: nat, c: Command)
    requires i < |s.displays| && DisplayCommand(s, i, c).1 == Ok
    ensures var d, t, e := s.displays[i], DisplayCommand(s, i, c).0, DisplayCommand(s, i, c).2;
      && |t.displays| == |s.displays| && (forall j :: 0 <= j < |s.displays| && j != i ==> t.displays[j] == s.displays[j])
      && t.displays[i] == d.(sdRec := t.displays[i].sdRec)
      && (ForSessionEnd(c) ==> t.sdRec == s.sdRec && e == Kept)
      && (ForSessionEnd(c) ==>
            && t.displays[i].sdRec.how == (if c.Shut? then c.how else NoShutdown)
            && (c.Shut? ==> t.displays[i].sdRec == Rec(c.how, c.force, UidOf(d), 0, c.timeout, c.osname)))
      && (!ForSessionEnd(c) ==> t.displays == s.displays)
      && (!ForSessionEnd(c) && c.Shut? && c.how != NoShutdown ==>
            e == Replaced && t.sdRec == Rec(c.how, c.force, UidOf(d), c.start, c.timeout, c.osname))
      && (!ForSessionEnd(c) && (c.Cancel? || c.how == NoShutdown) ==>
            e == Cancelled && t.sdRec == s.sdRec.(how := NoShutdown, osname := None))
  {
  }

  /** In whose name a display gives its commands: that of its user, and that of root if its greeter waits for one. */
  lemma {:induction false} SpeaksFor(s: State, i: nat, c: Command)
    requires i < |s.displays|
    ensures var d, r := s.displays[i], DisplayCommand(s, i, c);
      && (d.userSess >= 0 && c.Shut? && r.2 == Replaced ==> r.0.sdRec.uid == d.userSess)
      && (d.userSess < 0 ==>
            var r2 := DisplayCommand(s.(displays := s.displays[i := d.(userSess := 0)]), i, c);
            r.0.sdRec == r2.0.sdRec && r.1 == r2.1 && r.2 == r2.2 && r.0.displays[i].sdRec == r2.0.displays[i].sdRec)
  {
  }

  /** When the command of the global socket is refused, and when it has to wait for logins to go. */
  lemma {:induction false} SocketRefusedExactly(s: State, c: Command, logins: bool)
    ensures var r := GlobalCommand(s, c, logins);
      var cancels := c.Cancel? || c.how == NoShutdown;
      && (r.1 == Perm <==>
            || !s.fifoAllowShutdown
            || (!s.fifoAllowNuke && IsForced(s.sdRec) && s.sdRec.uid != -1)
            || (!s.fifoAllowNuke && !cancels && c.force != CancelIt))
      && (r.1 == Busy <==>
            s.fifoAllowShutdown && (s.fifoAllowNuke || !IsForced(s.sdRec) || s.sdRec.uid == -1)
            && !cancels && c.force == CancelIt && c.start == 0 && c.timeout == 0 && logins)
      && (r.1 != Ok ==> r.0 == s && r.2 == Kept)
      && (r.1 == Ok && cancels ==> r.2 == Cancelled && r.0 == s.(sdRec := s.sdRec.(how := NoShutdown, osname := None)))
      && (r.1 == Ok && !cancels ==>
            r.2 == Replaced && r.0 == s.(sdRec := Rec(c.how, c.force, -1, c.start, c.timeout, c.osname)))
  {
  }

  /** A display that is entitled to does touch it, with any command that is not about the end of its session. */
  lemma {:induction false} EntitledTouches(s: State, i: nat, c: Command)
    requires IsForced(s.sdRec) && i < |s.displays|
    ensures var d := s.displays[i];
      DisplayCommand(s, i, c).2 != Kept <==>
        && NukeAllowed(d, s.sdRec.uid, UidOf(d)) && ShutdownAllowed(d, UidOf(d), AsksFirst(c))
        && !ForSessionEnd(c) && (WantsForce(c) ==> ForceAllowed(d, UidOf(d)))
  {
  }

  /** The state before event `k`. */
  function Before(s: State, es: seq<Event>, k: nat): State
    requires k <= |es|
  {
    Run(s, es[..k])
  }

  lemma {:induction false} KeepsForced(s: State, e: Event)
    requires IsForced(s.sdRec) && Step(s, e).1 == Kept
    ensures IsForced(Step(s, e).0.sdRec)
  {
    KeptIsSame(s, e);
  }

  lemma {:induction false} FirstStep(s: State, es: seq<Event>, k: nat)
    requires es != [] && k < |es|
    ensures Before(s, es, k + 1) == Before(Step(s, es[0]).0, es[1..], k)
  {
    hide Step;
    assert es[..k + 1][1..] == es[1..][..k];
  }

  /**
   Over a whole run: a forced shutdown stays as it is, or the first event that touches it
   comes from somebody who is entitled to it at that moment.
   */
  lemma {:induction false} ForcedStays(s: State, es: seq<Event>)
    requires IsForced(s.sdRec)
    ensures SameShutdown(Run(s, es).sdRec, s.sdRec) ||
      exists k :: 0 <= k < |es| && SameShutdown(Before(s, es, k).sdRec, s.sdRec) && Entitled(Before(s, es, k), es[k])
                  && Step(Before(s, es, k), es[k]).1 != Kept
    decreases |es|
  {
    hide Step, Entitled, IsForced;
    if es != [] {
      assert es[..0] == [];
      assert Before(s, es, 0) == s;
      if Step(s, es[0]).1 != Kept {
        TouchedByEntitled(s, es[0]);
      } else {
        var s2 := Step(s, es[0]).0;
        KeptIsSame(s, es[0]);
        KeepsForced(s, es[0]);
        ForcedStays(s2, es[1..]);
        if !SameShutdown(Run(s2, es[1..]).sdRec, s2.sdRec) {
          var k :| 0 <= k < |es| - 1 && SameShutdown(Before(s2, es[1..], k).sdRec, s2.sdRec)
                   && Entitled(Before(s2, es[1..], k), es[1..][k]) && Step(Before(s2, es[1..], k), es[1..][k]).1 != Kept;
          FirstStep(s, es, k);
          assert es[1..][k] == es[k + 1];
        }
      }
    }
  }

  // ------------------------------------------------------- who can force at all

  /** No display waits with a forced shutdown that it may not have. */
  ghost predicate LocalsOk(s: State) {
    forall i :: 0 <= i < |s.displays| && IsForced(s.displays[i].sdRec) ==>
      ForceAllowed(s.displays[i], s.displays[i].sdRec.uid)
  }

  /** A step that schedules a forced shutdown comes from somebody who may. */
  predicate MayScheduleForced(s: State, e: Event) {
    match e
    case FromDisplay(i, _) => i < |s.displays| && ForceAllowed(s.displays[i], UidOf(s.displays[i]))
    case UserOut(i, _) => i < |s.displays| && ForceAllowed(s.displays[i], s.displays[i].sdRec.uid)
    case FromSocket(_, _) => s.fifoAllowShutdown && s.fifoAllowNuke
    case FromGreeter(_) => true
    case _ => false
  }

  lemma {:induction false} LocalsKept(s: State, e: Event)
    requires LocalsOk(s)
    ensures LocalsOk(Step(s, e).0)
  {
  }

  /** Only who may schedule a forced shutdown can make one. */
  lemma {:induction false} ForcedByAllowed(s: State, e: Event)
    requires LocalsOk(s) && Step(s, e).1 == Replaced && IsForced(Step(s, e).0.sdRec)
    ensures MayScheduleForced(s, e)
  {
  }

  lemma {:induction false} RunLocals(s: State, es: seq<Event>)
    requires LocalsOk(s)
    ensures LocalsOk(Run(s, es))
    decreases |es|
  {
    hide Step, LocalsOk;
    if es != [] {
      LocalsKept(s, es[0]);
      RunLocals(Step(s, es[0]).0, es[1..]);
    }
  }

  lemma {:induction false} StartLocals(s: State)
    requires s.displays == []
    ensures LocalsOk(s)
  {
  }

  /** Event `k` of the run has scheduled what is scheduled at the end, and may. */
  ghost predicate ScheduledAt(s: State, es: seq<Event>, k: nat)
    requires k < |es|
  {
    var b := Before(s, es, k);
    && MayScheduleForced(b, es[k]) && Step(b, es[k]).1 == Replaced
    && SameShutdown(Step(b, es[k]).0.sdRec, Run(s, es).sdRec)
  }

  lemma {:induction false} RunSnoc(s: State, es: seq<Event>, e: Event)
    ensures Run(s, es + [e]) == Step(Run(s, es), e).0
    decreases |es|
  {
    hide Step;
    if es == [] {
      assert Run(s, [e]) == Run(Step(s, e).0, [e][1..]);
    } else {
      assert (es + [e])[1..] == es[1..] + [e];
      RunSnoc(Step(s, es[0]).0, es[1..], e);
    }
  }

  /**
   From the start of the daemon on: a forced shutdown that stands at the end of a run was
   scheduled on the way, as it is, by somebody who may.
   */
  lemma {:induction false} ForcedWasAllowed(s: State, es: seq<Event>)
    requires s.displays == [] && s.sdRec == NONE_YET
    requires IsForced(Run(s, es).sdRec)
    ensures exists k :: 0 <= k < |es| && ScheduledAt(s, es, k)
    decreases |es|
  {
    hide Step, LocalsOk, MayScheduleForced, IsForced;
    NotForced();
    if es != [] {
      var n := |es| - 1;
      var fs, e := es[..n], es[n];
      assert es == fs + [e];
      var b := Run(s, fs);
      RunSnoc(s, fs, e);
      StartLocals(s);
      RunLocals(s, fs);
      if Step(b, e).1 == Kept {
        KeptIsSame(b, e);
        SameForced(Step(b, e).0.sdRec, b.sdRec);
        ForcedWasAllowed(s, fs);
        var k :| 0 <= k < n && ScheduledAt(s, fs, k);
        assert fs[..k] == es[..k];
        assert ScheduledAt(s, es, k);
      } else {
        NotCancelled(b, e);
        ForcedByAllowed(b, e);
        assert ScheduledAt(s, es, n);
      }
    }
  }

  lemma {:induction false} NotForced()
    ensures !IsForced(NONE_YET)
  {
  }

  lemma {:induction false} SameForced(a: Rec, b: Rec)
    requires SameShutdown(a, b)
    ensures IsForced(a) <==> IsForced(b)
  {
  }

  lemma {:induction false} NotCancelled(s: State, e: Event)
    requires IsForced(Step(s, e).0.sdRec)
    ensures Step(s, e).1 != Cancelled
  {
  }

  /** When what a session has scheduled for its end becomes the global record as it ends, and when it waits for an answer. */
  lemma {:induction false} EndPromotesExactly(s: State, i: nat, logins: bool)
    requires i < |s.displays|
    ensures var d, r, t := s.displays[i], s.displays[i].sdRec, SessionEnd(s, i, logins);
      var asks := r.force == Ask && (logins || d.allowShutdown == RootOnly);
      var wins := !IsForced(s.sdRec) || NukeAllowed(d, s.sdRec.uid, r.uid);
      && (t.1 == Replaced <==> r.how != NoShutdown && !asks && wins)
      && t.0.sdRec == (if r.how != NoShutdown && !asks && wins then r else s.sdRec)
      && (t.0.displays[i].sdRec.how == if asks then r.how else NoShutdown)
      && t.0.displays[i].userSess == -1 && t.1 != Cancelled
  {
  }

  // ------------------------------------------------- any shutdown, forced or not

  /** The event asks for that shutdown, and whoever asks may. */
  predicate Gives(s: State, e: Event, r: Rec) {
    match e
    case FromDisplay(i, c) =>
      && i < |s.displays| && c.Shut? && ShutdownAllowed(s.displays[i], UidOf(s.displays[i]), c.force == Ask)
      && SameShutdown(r, Rec(c.how, c.force, UidOf(s.displays[i]), c.start, c.timeout, c.osname))
    case FromSocket(c, _) =>
      && s.fifoAllowShutdown && c.Shut? && (c.force != CancelIt ==> s.fifoAllowNuke)
      && SameShutdown(r, Rec(c.how, c.force, -1, c.start, c.timeout, c.osname))
    case FromGreeter(x) => SameShutdown(r, x)
    case _ => false
  }

  /** The shutdown is scheduled, globally or for the end of some session. */
  ghost predicate Stands(s: State, r: Rec) {
    r.how != NoShutdown &&
    (SameShutdown(r, s.sdRec) || exists i :: 0 <= i < |s.displays| && SameShutdown(r, s.displays[i].sdRec))
  }

  /** A shutdown that stands after a step stood before, or the step gives it. */
  lemma {:induction false} StandsFrom(s: State, e: Event, r: Rec)
    requires Stands(Step(s, e).0, r)
    ensures Stands(s, r) || Gives(s, e, r)
  {
    hide IsForced, MayOverride, MayForce, WouldShutdown, Due, MayShutdown;
    match e
    case FromDisplay(i, c) =>
      if i < |s.displays| {
        CommandGives(s, i, c, r);
      }
    case FromSocket(c, logins) => SocketGives(s, c, logins, r);
    case UserOut(i, logins) =>
      if i < |s.displays| {
        EndGives(s, i, logins, r);
      }
    case _ =>
  }

  lemma {:induction false} CommandGives(s: State, i: nat, c: Command, r: Rec)
    requires i < |s.displays| && Stands(DisplayCommand(s, i, c).0, r)
    ensures Stands(s, r) || Gives(s, FromDisplay(i, c), r)
  {
    RefusedExactly(s, i, c);
    if DisplayCommand(s, i, c).1 == Ok {
      ObeyedExactly(s, i, c);
      hide DisplayCommand, UidOf, ShutdownAllowed;
      var t := DisplayCommand(s, i, c).0;
      if j :| 0 <= j < |t.displays| && SameShutdown(r, t.displays[j].sdRec) {
        assert j != i ==> t.displays[j] == s.displays[j];
      }
    }
  }

  lemma {:induction false} SocketGives(s: State, c: Command, logins: bool, r: Rec)
    requires Stands(GlobalCommand(s, c, logins).0, r)
    ensures Stands(s, r) || Gives(s, FromSocket(c, logins), r)
  {
    SocketRefusedExactly(s, c, logins);
    hide GlobalCommand;
  }

  lemma {:induction false} EndGives(s: State, i: nat, logins: bool, r: Rec)
    requires i < |s.displays| && Stands(SessionEnd(s, i, logins).0, r)
    ensures Stands(s, r)
  {
    hide IsForced, MayOverride;
    var t := SessionEnd(s, i, logins).0;
    assert t.sdRec == s.sdRec || t.sdRec == s.displays[i].sdRec;
    if j :| 0 <= j < |t.displays| && SameShutdown(r, t.displays[j].sdRec) {
      assert j != i ==> t.displays[j] == s.displays[j];
      assert SameShutdown(r, s.displays[j].sdRec);
    }
  }

  lemma {:induction false} StartStands(s: State, r: Rec)
    requires s.displays == [] && s.sdRec == NONE_YET
    ensures !Stands(s, r)
  {
  }

  /**
   From the start of the daemon on: any shutdown that stands was asked for on the way, as it
   is, by a display that was permitted to then, by the global socket with permission, or by
   a greeter.
   */
  lemma {:induction false} StandingWasAllowed(s: State, es: seq<Event>, r: Rec)
    requires s.displays == [] && s.sdRec == NONE_YET && Stands(Run(s, es), r)
    ensures exists k :: 0 <= k < |es| && Gives(Before(s, es, k), es[k], r)
    decreases |es|
  {
    hide Step, Stands, Gives;
    StartStands(s, r);
    if es != [] {
      var n := |es| - 1;
      var fs, e := es[..n], es[n];
      assert es == fs + [e];
      RunSnoc(s, fs, e);
      StandsFrom(Run(s, fs), e, r);
      if Stands(Run(s, fs), r) {
        StandingWasAllowed(s, fs, r);
        var k :| 0 <= k < n && Gives(Before(s, fs, k), fs[k], r);
        assert fs[..k] == es[..k] && fs[k] == es[k];
        assert Gives(Before(s, es, k), es[k], r);
      } else {
        assert Gives(Before(s, es, n), es[n], r);
      }
    }
  }

  // ------------------------------------------------------------ when it is carried out

  /** Who is logged in does not keep the shutdown from being carried out. */
  predicate GoesAhead(force: Force, l: Logins) {
    match force
    case ForceAll => true
    case ForceMy => !l.other
    case CancelIt => !l.anybody
    case Ask => !l.anybody
  }

  /** The start has come, and the time to wait for logins to go is over. */
  predicate Decisive(r: Rec, now: int) {
    (r.start == 0x7fffffff || now >= r.start) && now >= r.timeout
  }

  /** One turn of the main loop over a scheduled shutdown. */
  lemma {:induction false} TurnExactly(s: State, now: int, l: Logins)
    requires s.sdRec.how != NoShutdown
    ensures var r, t := s.sdRec, Tick(s, now, l).0.sdRec;
      && (!Decisive(r, now) ==> t == r || t == r.(start := 0x7fffffff))
      && (!Decisive(r, now) ==> (t == r <==> r.start == 0x7fffffff || now < r.start))
      && (Decisive(r, now) && GoesAhead(r.force, l) ==> t == r.(start := 0x7fffffff, timeout := 0x7fffffff))
      && (Decisive(r, now) && !GoesAhead(r.force, l) ==>
            t == Rec(NoShutdown, r.force, r.uid, 0x7fffffff, 0x7fffffff, None))
      && Tick(s, now, l).0.displays == s.displays
  {
  }

  /** Nobody but the main loop touches the record, and its clock does not go back. */
  ghost predicate LeftAlone(s: State, es: seq<Event>, now: int)
    decreases |es|
  {
    es != [] ==>
      && (!es[0].Turn? ==> Step(s, es[0]).1 == Kept)
      && (es[0].Turn? ==> es[0].now >= now)
      && LeftAlone(Step(s, es[0]).0, es[1..], if es[0].Turn? then es[0].now else now)
  }

  predicate DecidedBy(r: Rec, e: Event) {
    e.Turn? && Decisive(r, e.now)
  }

  /** Until a turn is decisive a scheduled shutdown waits ... */
  lemma {:induction false} Waits(s: State, es: seq<Event>, now: int)
    requires s.sdRec.how != NoShutdown && LeftAlone(s, es, now)
    requires forall k :: 0 <= k < |es| ==> !DecidedBy(s.sdRec, es[k])
    ensures var r, t := s.sdRec, Run(s, es).sdRec;
      t == r || (t == r.(start := 0x7fffffff) && exists k :: 0 <= k < |es| && es[k].Turn? && es[k].now >= r.start)
    decreases |es|
  {
    hide Step, Decisive;
    if es != [] {
      var s2 := Step(s, es[0]).0;
      StepRecord(s, es[0]);
      var later := if es[0].Turn? then es[0].now else now;
      AllLater(s2, es[1..], later);
      forall k | 0 <= k < |es[1..]|
        ensures !DecidedBy(s2.sdRec, es[1..][k])
      {
        assert es[1..][k] == es[k + 1];
        if es[k + 1].Turn? {
          SameDecisive(s.sdRec, s2.sdRec, later, es[k + 1].now);
        }
      }
      Waits(s2, es[1..], later);
      if !(Run(s, es).sdRec == s.sdRec) && s2.sdRec == s.sdRec {
        var k :| 0 <= k < |es[1..]| && es[1..][k].Turn? && es[1..][k].now >= s.sdRec.start;
        assert es[k + 1] == es[1..][k];
      }
    }
  }

  lemma {:induction false} StepRecord(s: State, e: Event)
    requires s.sdRec.how != NoShutdown && (!e.Turn? ==> Step(s, e).1 == Kept) && !DecidedBy(s.sdRec, e)
    ensures var t := Step(s, e).0.sdRec;
      t == s.sdRec || (e.Turn? && t == s.sdRec.(start := 0x7fffffff) && e.now >= s.sdRec.start)
  {
    if e.Turn? {
      TurnExactly(s, e.now, e.l);
    } else {
      KeptIsSame(s, e);
    }
  }

  lemma {:induction false} SameDecisive(r: Rec, t: Rec, earlier: int, now: int)
    requires t == r || (t == r.(start := 0x7fffffff) && earlier >= r.start)
    requires earlier <= now
    ensures Decisive(r, now) <==> Decisive(t, now)
  {
  }

  lemma {:induction false} AllLater(s: State, es: seq<Event>, now: int)
    requires LeftAlone(s, es, now)
    ensures forall k :: 0 <= k < |es| && es[k].Turn? ==> es[k].now >= now
    decreases |es|
  {
    hide Step;
    if es != [] {
      AllLater(Step(s, es[0]).0, es[1..], if es[0].Turn? then es[0].now else now);
      assert forall k :: 1 <= k < |es| ==> es[k] == es[1..][k - 1];
    }
  }

  lemma {:induction false} AloneBefore(s: State, es: seq<Event>, k: nat, now: int)
    requires k <= |es| && LeftAlone(s, es, now)
    ensures LeftAlone(s, es[..k], now)
    decreases k
  {
    hide Step;
    if k > 0 {
      assert es[..k][1..] == es[1..][..k - 1] && es[..k][0] == es[0];
      AloneBefore(Step(s, es[0]).0, es[1..], k - 1, if es[0].Turn? then es[0].now else now);
    }
  }

  /**
   ... and the first decisive turn carries it out or cancels it, as those who are logged
   in at that turn, and how it may treat them, decide.
   */
  lemma {:induction false} FirstDecisive(s: State, es: seq<Event>, k: nat, now: int)
    requires s.sdRec.how != NoShutdown && LeftAlone(s, es, now)
    requires k < |es| && DecidedBy(s.sdRec, es[k]) && forall j :: 0 <= j < k ==> !DecidedBy(s.sdRec, es[j])
    ensures var r, t := s.sdRec, Run(s, es[..k + 1]).sdRec;
      && SameShutdown(Before(s, es, k).sdRec, r)
      && (GoesAhead(r.force, es[k].l) ==> t == r.(start := 0x7fffffff, timeout := 0x7fffffff))
      && (!GoesAhead(r.force, es[k].l) ==> t == Rec(NoShutdown, r.force, r.uid, 0x7fffffff, 0x7fffffff, None))
  {
    hide Step, Decisive, GoesAhead;
    AloneBefore(s, es, k, now);
    Waits(s, es[..k], now);
    AllBefore(s, es, k, now);
    var b := Run(s, es[..k]);
    assert es[..k + 1] == es[..k] + [es[k]];
    RunSnoc(s, es[..k], es[k]);
    if b.sdRec != s.sdRec {
      var j :| 0 <= j < |es[..k]| && es[..k][j].Turn? && es[..k][j].now >= s.sdRec.start;
      SameDecisive(s.sdRec, b.sdRec, es[j].now, es[k].now);
    }
    TurnIs(b, es[k]);
    TurnExactly(b, es[k].now, es[k].l);
  }

  lemma {:induction false} TurnIs(s: State, e: Event)
    requires e.Turn?
    ensures Step(s, e) == Tick(s, e.now, e.l)
  {
  }

  lemma {:induction false} AllBefore(s: State, es: seq<Event>, k: nat, now: int)
    requires k < |es| && LeftAlone(s, es, now) && es[k].Turn?
    ensures forall j :: 0 <= j < k && es[j].Turn? ==> es[j].now <= es[k].now
    decreases k
  {
    hide Step;
    if k > 0 {
      var later := if es[0].Turn? then es[0].now else now;
      AllLater(Step(s, es[0]).0, es[1..], later);
      AllBefore(Step(s, es[0]).0, es[1..], k - 1, later);
      assert es[1..][k - 1] == es[k];
      assert forall j :: 1 <= j < k ==> es[j] == es[1..][j - 1];
    }
  }

  // ------------------------------------------------------- one session after another

  /** Nothing is scheduled for the end of the session on display `i`. */
  predicate NothingWaits(s: State, i: nat) {
    i < |s.displays| && s.displays[i].sdRec.how == NoShutdown
  }

  lemma {:induction false} NothingWaitsStep(s: State, e: Event, i: nat)
    requires NothingWaits(s, i) && !(e.FromDisplay? && e.i == i)
    ensures NothingWaits(Step(s, e).0, i)
  {
  }

  lemma {:induction false} NothingWaitsRun(s: State, es: seq<Event>, i: nat)
    requires NothingWaits(s, i)
    requires forall e :: e in es ==> !(e.FromDisplay? && e.i == i)
    ensures NothingWaits(Run(s, es), i)
    decreases |es|
  {
    hide Step, NothingWaits;
    if es != [] {
      NothingWaitsStep(s, es[0], i);
      NothingWaitsRun(Step(s, es[0]).0, es[1..], i);
    }
  }

  /**
   What one session has scheduled for its end does not outlive it: a session that gives
   no shutdown command leaves the global record as it is when it ends.
   */
  lemma {:induction false} SessionsApart(s: State, es: seq<Event>, i: nat, logins: bool)
    requires i < |s.displays|
    requires forall e :: e in es ==> !(e.FromDisplay? && e.i == i)
    ensures var s2 := Run(Step(s, SessionStart(i)).0, es);
      Step(s2, UserOut(i, logins)).0.sdRec == s2.sdRec
  {
    NothingWaitsRun(Step(s, SessionStart(i)).0, es, i);
  }
}
