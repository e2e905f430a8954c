/** The capture screen: an eight-second countdown that fires the camera,
    a list of captured shots with per-slot retake, and the gates on the
    "Reset All" and "Done" buttons. Camera frames arrive as parameters; a
    missing video element or 2D context is a `None` frame. */
module Photoshoot {
  import opened Wrappers

  /** A captured frame, as the PNG data URL the canvas produces. */
  type Frame = string

  /** Number of shot slots on the grid, and the length that enables "Done". */
  const Slots: nat := 8

  /** Value the countdown starts from and is reset to. */
  const CountdownStart: nat := 8

  /** One entry of the photo array. `Hole` is the gap JavaScript leaves when
      an index past the end of an array is assigned. */
  datatype Slot = Hole | Shot(frame: Frame)

  datatype Session = Session(
    photos: seq<Slot>,
    currentPhoto: int,
    countdown: int,
    capturing: bool,
    retake: Option<nat>)

  /** The state before the screen's effects first run. */
  const Initial: Session := Session([], 0, CountdownStart, false, None)

  function Holes(n: nat): (r: seq<Slot>)
    ensures |r| == n
    ensures forall i :: 0 <= i < n ==> r[i] == Hole
  {
    if n == 0 then [] else Holes(n - 1) + [Hole]
  }

  /** JavaScript's `a[i] = v`: an index inside the array is overwritten, an
      index past its end grows the array and leaves holes in between. */
  function Assign(a: seq<Slot>, i: nat, v: Slot): (r: seq<Slot>)
    ensures |r| == if i < |a| then |a| else i + 1
    ensures r[i] == v
    ensures forall j :: 0 <= j < |a| && j != i ==> r[j] == a[j]
    ensures forall j :: |a| <= j < i ==> r[j] == Hole
  {
    if i < |a| then a[i := v] else a + Holes(i - |a|) + [v]
  }

  /** One second of the running countdown; no timer is scheduled otherwise. */
  function Tick(s: Session): (r: Session)
    ensures s.capturing && s.countdown > 0 ==>
              r.countdown == s.countdown - 1 && r == s.(countdown := r.countdown)
    ensures !(s.capturing && s.countdown > 0) ==> r == s
  {
    if s.capturing && s.countdown > 0 then s.(countdown := s.countdown - 1) else s
  }

  /** `capturePhoto`: stores the frame (at the pending retake slot, or at the
      end) and always stops the capture and rearms the countdown. */
  function Capture(s: Session, frame: Option<Frame>): (r: Session)
    ensures !r.capturing && r.countdown == CountdownStart
    ensures frame.None? ==>
              r.photos == s.photos && r.currentPhoto == s.currentPhoto && r.retake == s.retake
    ensures frame.Some? && s.retake.Some? ==>
              var i := s.retake.value;
              && |r.photos| == (if i < |s.photos| then |s.photos| else i + 1)
              && r.photos[i] == Shot(frame.value)
              && (forall j :: 0 <= j < |s.photos| && j != i ==> r.photos[j] == s.photos[j])
              && r.currentPhoto == s.currentPhoto
              && r.retake.None?
    ensures frame.Some? && s.retake.None? ==>
              && |r.photos| == |s.photos| + 1
              && r.photos[..|s.photos|] == s.photos
              && r.photos[|s.photos|] == Shot(frame.value)
              && r.currentPhoto == s.currentPhoto + 1
              && r.retake.None?
  {
    var stored :=
      match frame
      case None => s
      case Some(f) =>
        match s.retake
        case Some(i) => s.(photos := Assign(s.photos, i, Shot(f)), retake := None)
        case None => s.(photos := s.photos + [Shot(f)], currentPhoto := s.currentPhoto + 1);
    stored.(capturing := false, countdown := CountdownStart)
  }

  /** The countdown effect: tick while counting, capture at zero, idle otherwise. */
  function Step(s: Session, frame: Option<Frame>): (r: Session)
    ensures !s.capturing ==> r == s
    ensures s.capturing && s.countdown > 0 ==> r == Tick(s)
    ensures s.capturing && s.countdown == 0 ==> r == Capture(s, frame)
  {
    if s.capturing && s.countdown > 0 then Tick(s)
    else if s.capturing && s.countdown == 0 then Capture(s, frame)
    else s
  }

  /** The grid renders a retake button only over a filled slot. */
  predicate RetakeOffered(s: Session, i: nat)
  {
    i < Slots && i < |s.photos| && s.photos[i].Shot?
  }

  /** `handleRetake`: no guard against a capture already in flight. */
  function Retake(s: Session, i: nat): (r: Session)
    requires i < Slots
    ensures r.retake == Some(i) && r.capturing && r.countdown == CountdownStart
    ensures r.photos == s.photos && r.currentPhoto == s.currentPhoto
  {
    s.(retake := Some(i), capturing := true, countdown := CountdownStart)
  }

  /** `startCapture`: begins a countdown only with room left and none running. */
  function Start(s: Session): (r: Session)
    ensures r.capturing == (s.capturing || |s.photos| < Slots)
    ensures r == s.(capturing := r.capturing)
  {
    if |s.photos| < Slots && !s.capturing then s.(capturing := true) else s
  }

  /** Which photo-list lengths make the photos effect call `startCapture`:
      as written only the empty list; `WhileRoom` is the corrected rule. */
  datatype AutoStartRule = OnlyWhenEmpty | WhileRoom

  function PhotosEffect(s: Session, rule: AutoStartRule): (r: Session)
    ensures r.capturing <==>
              s.capturing || if rule == OnlyWhenEmpty then |s.photos| == 0 else |s.photos| < Slots
    ensures r == s.(capturing := r.capturing)
  {
    var fires := if rule == OnlyWhenEmpty then |s.photos| == 0 else |s.photos| < Slots;
    if fires then Start(s) else s
  }

  predicate DoneEnabled(s: Session)
  {
    |s.photos| >= Slots && !s.capturing
  }

  predicate ResetAllEnabled(s: Session)
  {
    |s.photos| > 0 && !s.capturing
  }

  /** "Reset All": empties the list when enabled, and touches nothing else. */
  function ResetAll(s: Session): (r: Session)
    ensures ResetAllEnabled(s) ==> r.photos == [] && r == s.(photos := [])
    ensures !ResetAllEnabled(s) ==> r == s
  {
    if ResetAllEnabled(s) then s.(photos := []) else s
  }

  /** "Done": hands the whole list on, only when the button is enabled. */
  function Done(s: Session): (r: Option<seq<Slot>>)
    ensures r.Some? <==> DoneEnabled(s)
    ensures r.Some? ==> r.value == s.photos && |r.value| >= Slots
  {
    if DoneEnabled(s) then Some(s.photos) else None
  }

  /** Everything that can happen on the screen. */
  datatype Event =
    | Elapse(frame: Option<Frame>)   // the countdown effect runs after a second
    | RetakePressed(index: nat)
    | ResetAllPressed
    | PhotosChanged                  // the effect depending on `photos` runs

  function Apply(s: Session, e: Event, rule: AutoStartRule): Session
  {
    match e
    case Elapse(f) => Step(s, f)
    case RetakePressed(i) => if RetakeOffered(s, i) then Retake(s, i) else s
    case ResetAllPressed => ResetAll(s)
    case PhotosChanged => PhotosEffect(s, rule)
  }

  function Run(s: Session, events: seq<Event>, rule: AutoStartRule): Session
    decreases |events|
  {
    if |events| == 0 then s else Run(Apply(s, events[0], rule), events[1..], rule)
  }

  /** The screen right after mount: the photos effect has run once. */
  function Mounted(rule: AutoStartRule): (r: Session)
    ensures r.capturing && r.photos == [] && r.countdown == CountdownStart
  {
    PhotosEffect(Initial, rule)
  }

  /** Safety invariant shared by both auto-start rules. */
  ghost predicate Inv(s: Session)
  {
    && 0 <= s.countdown <= CountdownStart
    && |s.photos| <= Slots
    && (s.retake.Some? ==> s.retake.value < Slots)
    && (s.capturing && s.retake.None? ==> |s.photos| < Slots)
  }

  lemma ApplyPreservesInv(s: Session, e: Event, rule: AutoStartRule)
    requires Inv(s)
    ensures Inv(Apply(s, e, rule))
  {
  }

  /** Countdown stays in [0, 8], the list never outgrows the grid, and an
      appending capture only runs while there is room, under any events. */
  lemma {:induction false} RunPreservesInv(s: Session, events: seq<Event>, rule: AutoStartRule)
    requires Inv(s)
    ensures Inv(Run(s, events, rule))
    decreases |events|
  {
    if |events| > 0 {
      ApplyPreservesInv(s, events[0], rule);
      RunPreservesInv(Apply(s, events[0], rule), events[1..], rule);
    }
  }

  /** A retake pressed while an appending capture counts down turns that
      capture into a replacement: the list does not grow. */
  lemma RetakeDuringCaptureReplaces(s: Session, i: nat, f: Frame)
    requires s.capturing && s.retake.None? && RetakeOffered(s, i)
    ensures Capture(Retake(s, i), Some(f)).photos == s.photos[i := Shot(f)]
  {
  }

  /** Invariant of the screen as written: at most one shot, a pending retake
      can only target slot 0, and an appending capture only runs on an
      empty list. */
  ghost predicate Stalled(s: Session)
  {
    && Inv(s)
    && |s.photos| <= 1
    && (s.retake.Some? ==> s.retake.value == 0)
    && (s.capturing && s.retake.None? ==> |s.photos| == 0)
  }

  /** As written, `startCapture` is only reached with an empty list, so after
      the first shot the countdown never restarts: whatever the guest does,
      the list holds at most one shot and "Done" is never enabled. */
  lemma {:induction false} AsWrittenSessionStalls(s: Session, events: seq<Event>)
    requires Stalled(s)
    ensures Stalled(Run(s, events, OnlyWhenEmpty))
    ensures !DoneEnabled(Run(s, events, OnlyWhenEmpty))
    decreases |events|
  {
    if |events| > 0 {
      var t := Apply(s, events[0], OnlyWhenEmpty);
      assert Stalled(t);
      AsWrittenSessionStalls(t, events[1..]);
    }
  }

  lemma MountedIsStalled()
    ensures Stalled(Mounted(OnlyWhenEmpty))
  {
  }

  /** Events of one full shot: the countdown effect runs nine times (eight
      ticks and the capture), then the photos effect runs. */
  function ShotEvents(f: Frame): seq<Event>
  {
    seq(CountdownStart + 1, _ => Elapse(Some(f))) + [PhotosChanged]
  }

  function CycleEvents(fs: seq<Frame>): seq<Event>
  {
    if |fs| == 0 then [] else ShotEvents(fs[0]) + CycleEvents(fs[1..])
  }

  function Shots(fs: seq<Frame>): (r: seq<Slot>)
    ensures |r| == |fs|
    ensures forall i :: 0 <= i < |fs| ==> r[i] == Shot(fs[i])
  {
    if |fs| == 0 then [] else [Shot(fs[0])] + Shots(fs[1..])
  }

  lemma {:induction false} RunConcat(s: Session, a: seq<Event>, b: seq<Event>, rule: AutoStartRule)
    ensures Run(s, a + b, rule) == Run(Run(s, a, rule), b, rule)
    decreases |a|
  {
    if |a| > 0 {
      assert (a + b)[0] == a[0];
      assert (a + b)[1..] == a[1..] + b;
      RunConcat(Apply(s, a[0], rule), a[1..], b, rule);
    } else {
      assert a + b == b;
    }
  }

  /** `n` countdown effects on a running countdown of at least `n` subtract `n`. */
  lemma {:induction false} CountdownRuns(s: Session, n: nat, f: Frame, rule: AutoStartRule)
    requires s.capturing && n <= s.countdown
    ensures Run(s, seq(n, _ => Elapse(Some(f))), rule) == s.(countdown := s.countdown - n)
    decreases n
  {
    if n > 0 {
      var evs := seq(n, _ => Elapse(Some(f)));
      assert evs[0] == Elapse(Some(f));
      assert evs[1..] == seq(n - 1, _ => Elapse(Some(f)));
      CountdownRuns(Tick(s), n - 1, f, rule);
    }
  }

  /** The state after `k` shots under the corrected rule, with a new countdown running. */
  function AfterShots(fs: seq<Frame>): Session
  {
    Session(Shots(fs), |fs|, CountdownStart, |fs| < Slots, None)
  }

  /** One shot under the corrected rule appends the frame and rearms the countdown. */
  lemma OneShot(fs: seq<Frame>, f: Frame)
    requires |fs| < Slots
    ensures Run(AfterShots(fs), ShotEvents(f), WhileRoom) == AfterShots(fs + [f])
  {
    var s := AfterShots(fs);
    var ticks := seq(CountdownStart, _ => Elapse(Some(f)));
    assert seq(CountdownStart + 1, _ => Elapse(Some(f))) == ticks + [Elapse(Some(f))];
    RunConcat(s, ticks + [Elapse(Some(f))], [PhotosChanged], WhileRoom);
    RunConcat(s, ticks, [Elapse(Some(f))], WhileRoom);
    CountdownRuns(s, CountdownStart, f, WhileRoom);
    assert Shots(fs) + [Shot(f)] == Shots(fs + [f]);
  }

  lemma {:induction false} ShotsRun(done: seq<Frame>, rest: seq<Frame>)
    requires |done| + |rest| <= Slots
    ensures Run(AfterShots(done), CycleEvents(rest), WhileRoom) == AfterShots(done + rest)
    decreases |rest|
  {
    if |rest| == 0 {
      assert done + rest == done;
    } else {
      RunConcat(AfterShots(done), ShotEvents(rest[0]), CycleEvents(rest[1..]), WhileRoom);
      OneShot(done, rest[0]);
      ShotsRun(done + [rest[0]], rest[1..]);
      assert done + [rest[0]] + rest[1..] == done + rest;
    }
  }

  /** With the corrected auto-start rule, eight uninterrupted countdowns fill
      the grid in order and enable "Done". */
  lemma CorrectedSessionCompletes(fs: seq<Frame>)
    requires |fs| == Slots
    ensures Run(Mounted(WhileRoom), CycleEvents(fs), WhileRoom).photos == Shots(fs)
    ensures DoneEnabled(Run(Mounted(WhileRoom), CycleEvents(fs), WhileRoom))
  {
    assert Mounted(WhileRoom) == AfterShots([]);
    ShotsRun([], fs);
    assert [] + fs == fs;
  }
}
