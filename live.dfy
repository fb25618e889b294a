/** `process_webcam`: the live loop. Every frame redraws the boxes of the
    last successful inference pass and reads one key; 'q' ends the loop, 's'
    runs the group-photo pipeline on a snapshot of the frame, and otherwise
    every fifth frame runs an inference pass on the half-size frame. When the
    loop ends, a report of the session's matches is written if anyone was
    matched and the file can be written. */
module Live {
  import opened Wrappers
  import opened Seqs
  import opened Store
  import opened Regions
  import opened Matching
  import opened Vision
  import opened Photo
  import Report

  /** `ord('q')` and `ord('s')`. */
  const QuitKey: int := 113
  const SnapshotKey: int := 115

  /** `skip_frames = 5`: inference runs on every fifth frame. */
  const SkipFrames: nat := 5

  /** `cv2.waitKey(1) & 0xFF`; `waitKey` answers -1 when no key was pressed,
      which reads as 255. */
  function KeyCode(key: int): (c: int)
    ensures 0 <= c < 256
    ensures 0 <= key < 256 ==> c == key
    ensures (key - c) % 256 == 0
  {
    key % 256
  }

  /** One frame as the loop meets it: the half-size frame inference runs on,
      the key read after showing it, the full frame as read back from its
      snapshot file, and the clock and file system a snapshot report sees. */
  datatype Frame = Frame(small: Image, key: int, snapshot: Option<Image>, clock: Env)

  /** `int(sx / 0.5)`: a box of the half-size frame drawn on the full frame. */
  function Rescaled(b: Box): (r: Box)
    ensures r.x1 == 2 * b.x1 && r.y1 == 2 * b.y1 && r.x2 == 2 * b.x2 && r.y2 == 2 * b.y2
  {
    Box(2 * b.x1, 2 * b.y1, 2 * b.x2, 2 * b.y2)
  }

  /** What became of one person box in a pass: a face call raised (which ends
      the pass), or a box is drawn and maybe a roll number matched. */
  datatype LiveSighting = LiveRaised | Drawn(overlay: Overlay, matched: Option<Key>)

  /** One person box: crop the half-size frame with a padding of 5, encode the
      first face, and draw blue and unlabelled unless it is a match, which is
      drawn green and labelled with name and confidence (no label when the
      matched name is "Unknown"). */
  function LiveExamine(m: Models, small: Image, db: Db, b: Box): (r: LiveSighting)
    ensures r.Drawn? ==> r.overlay.area == Rescaled(b)
    ensures r.Drawn? ==> (r.matched.Some? <==> r.overlay.color == Green)
    ensures r.Drawn? && r.matched.None? ==> r.overlay == Overlay(Rescaled(b), Blue, NoCaption)
    ensures r.Drawn? && r.matched.Some? ==> r.matched.value in Keys(db)
  {
    var unmatched := Drawn(Overlay(Rescaled(b), Blue, NoCaption), None);
    match Crop(b, small.width, small.height, LivePad)
    case None => unmatched
    case Some(crop) =>
      match m.encodeAny(small, crop)
      case None => LiveRaised
      case Some(encs) =>
        if |encs| == 0 then unmatched
        else
          match Identify(db, encs[0], m.distance)
          case Present(roll, name, d) =>
            Drawn(Overlay(Rescaled(b), Green, if name == "Unknown" then NoCaption else Caption(name, Some(d))), Some(roll))
          case _ => unmatched
  }

  /** Examining a box, case by case: it raises iff the crop is non-empty and
      the face call on it raises, and it matches iff the first encoding found
      in the crop is identified as enrolled, with that roll number and a
      caption of the name and distance, none for the name "Unknown". */
  lemma LiveExamineCases(m: Models, small: Image, db: Db, b: Box)
    ensures var r := LiveExamine(m, small, db, b);
      var crop := Crop(b, small.width, small.height, LivePad);
      && (r.LiveRaised? <==> crop.Some? && m.encodeAny(small, crop.value).None?)
      && (r.Drawn? && r.matched.Some? <==>
            && crop.Some? && m.encodeAny(small, crop.value).Some? && |m.encodeAny(small, crop.value).value| > 0
            && Identify(db, m.encodeAny(small, crop.value).value[0], m.distance).Present?)
      && (r.Drawn? && r.matched.Some? ==>
            var who := Identify(db, m.encodeAny(small, crop.value).value[0], m.distance);
            && r.matched.value == who.roll
            && r.overlay.caption == if who.name == "Unknown" then NoCaption else Caption(who.name, Some(who.distance)))
  {
  }

  /** What a pass leaves behind: whether it raised, the boxes it drew, and
      the roll numbers it matched, in order, up to the point where it raised. */
  datatype Pass = Pass(raised: bool, drawn: seq<Overlay>, matched: seq<Key>)

  /** `LiveExamine` with the models, the frame and the store of a pass fixed. */
  function Examiner(m: Models, small: Image, db: Db): Box -> LiveSighting
  {
    b => LiveExamine(m, small, db, b)
  }

  /** The loop over the detected boxes, given what examining one box gives;
      it stops at the first box whose examination raises. */
  function Scan(examine: Box -> LiveSighting, boxes: seq<Box>): (r: Pass)
    ensures |r.drawn| <= |boxes|
    ensures !r.raised ==> |r.drawn| == |boxes|
  {
    if boxes == [] then Pass(false, [], [])
    else
      var p := Scan(examine, boxes[..|boxes| - 1]);
      if p.raised then p
      else
        match examine(boxes[|boxes| - 1])
        case LiveRaised => Pass(true, p.drawn, p.matched)
        case Drawn(o, mk) => Pass(false, p.drawn + [o], p.matched + (if mk.Some? then [mk.value] else []))
  }

  /** Box i of a pass is drawn as examining box i alone draws it. */
  lemma {:induction false} ScanDrawsEachBox(examine: Box -> LiveSighting, boxes: seq<Box>)
    ensures var r := Scan(examine, boxes);
      forall i :: 0 <= i < |r.drawn| ==> examine(boxes[i]).Drawn? && examine(boxes[i]).overlay == r.drawn[i]
    decreases |boxes|
  {
    if boxes != [] {
      var init := boxes[..|boxes| - 1];
      ScanDrawsEachBox(examine, init);
      var p := Scan(examine, init);
      var r := Scan(examine, boxes);
      forall i | 0 <= i < |r.drawn|
        ensures examine(boxes[i]).Drawn? && examine(boxes[i]).overlay == r.drawn[i]
      {
        if i < |p.drawn| {
          assert init[i] == boxes[i] && r.drawn[i] == p.drawn[i];
        }
      }
    }
  }

  /** A pass that raised stopped at a box whose examination raised. */
  lemma {:induction false} ScanStopsAtRaise(examine: Box -> LiveSighting, boxes: seq<Box>)
    ensures var r := Scan(examine, boxes);
      r.raised ==> |r.drawn| < |boxes| && examine(boxes[|r.drawn|]).LiveRaised?
    decreases |boxes|
  {
    if boxes != [] {
      var init := boxes[..|boxes| - 1];
      ScanStopsAtRaise(examine, init);
      var p := Scan(examine, init);
      if p.raised {
        assert init[|p.drawn|] == boxes[|p.drawn|];
      }
    }
  }

  /** A pass matched a roll number iff one of the boxes it drew matched it. */
  lemma {:induction false} ScanMatchesDrawn(examine: Box -> LiveSighting, boxes: seq<Box>)
    ensures var r := Scan(examine, boxes);
      forall k :: k in r.matched <==>
        exists i :: 0 <= i < |r.drawn| && examine(boxes[i]) == Drawn(r.drawn[i], Some(k))
    decreases |boxes|
  {
    if boxes != [] {
      var init := boxes[..|boxes| - 1];
      ScanMatchesDrawn(examine, init);
      var p := Scan(examine, init);
      var r := Scan(examine, boxes);
      if !p.raised {
        match examine(boxes[|boxes| - 1])
        case LiveRaised =>
        case Drawn(o, mk) =>
          forall k
            ensures k in r.matched <==> exists i :: 0 <= i < |r.drawn| && examine(boxes[i]) == Drawn(r.drawn[i], Some(k))
          {
            if k in p.matched {
              var i :| 0 <= i < |p.drawn| && examine(init[i]) == Drawn(p.drawn[i], Some(k));
              assert init[i] == boxes[i] && r.drawn[i] == p.drawn[i];
            } else if mk == Some(k) {
              assert r.drawn[|p.drawn|] == o;
            }
          }
      }
    }
  }

  /** The loop over the boxes the detector found in the half-size frame. */
  function ScanBoxes(m: Models, small: Image, db: Db, boxes: seq<Box>): (r: Pass)
    ensures |r.drawn| <= |boxes|
    ensures !r.raised ==> |r.drawn| == |boxes|
    ensures forall i :: 0 <= i < |r.matched| ==> r.matched[i] in Keys(db)
    ensures forall i :: 0 <= i < |r.drawn| ==> r.drawn[i].area == Rescaled(boxes[i])
  {
    var examine := Examiner(m, small, db);
    ScanDrawsEachBox(examine, boxes);
    ScanMatchesEnrolled(m, small, db, boxes);
    Scan(examine, boxes)
  }

  /** Every roll number a pass matches is enrolled, because every box it
      matches on is matched by `LiveExamine`. */
  lemma ScanMatchesEnrolled(m: Models, small: Image, db: Db, boxes: seq<Box>)
    ensures forall k :: k in Scan(Examiner(m, small, db), boxes).matched ==> k in Keys(db)
  {
    var examine := Examiner(m, small, db);
    var r := Scan(examine, boxes);
    ScanMatchesDrawn(examine, boxes);
    forall k | k in r.matched
      ensures k in Keys(db)
    {
      var i :| 0 <= i < |r.drawn| && examine(boxes[i]) == Drawn(r.drawn[i], Some(k));
      assert examine(boxes[i]) == LiveExamine(m, small, db, boxes[i]);
    }
  }

  /** What a pass says about each box: box i was drawn exactly as examining it
      alone draws it, the pass raised iff some box's face call raised (and it
      stopped at the first such box), and a roll number was matched iff one of
      the drawn boxes matched it. */
  lemma ScanBoxesExamines(m: Models, small: Image, db: Db, boxes: seq<Box>)
    ensures var r := ScanBoxes(m, small, db, boxes);
      && (forall i :: 0 <= i < |r.drawn| ==>
            LiveExamine(m, small, db, boxes[i]).Drawn? && LiveExamine(m, small, db, boxes[i]).overlay == r.drawn[i])
      && (r.raised ==> |r.drawn| < |boxes| && LiveExamine(m, small, db, boxes[|r.drawn|]).LiveRaised?)
      && (r.raised <==> exists i :: 0 <= i < |boxes| && LiveExamine(m, small, db, boxes[i]).LiveRaised?)
      && (forall k :: k in r.matched <==>
            exists i :: 0 <= i < |r.drawn| && LiveExamine(m, small, db, boxes[i]) == Drawn(r.drawn[i], Some(k)))
  {
    var examine := Examiner(m, small, db);
    ScanDrawsEachBox(examine, boxes);
    ScanStopsAtRaise(examine, boxes);
    ScanMatchesDrawn(examine, boxes);
  }

  /** One inference pass on the half-size frame; a detector that raises ends
      the pass before any box. */
  function LivePass(m: Models, small: Image, db: Db): (r: Pass)
    ensures forall i :: 0 <= i < |r.matched| ==> r.matched[i] in Keys(db)
    ensures m.detect(small).Failure? ==> r.raised && r.matched == []
    ensures m.detect(small).Success? && !r.raised ==> |r.drawn| == |m.detect(small).value|
  {
    match m.detect(small)
    case Failure(_) => Pass(true, [], [])
    case Success(boxes) => ScanBoxes(m, small, db, boxes)
  }

  /** The loop's variables, with what it has shown and done so far: the boxes
      redrawn on each frame, the frame numbers that ran a pass, and the
      outcome of each snapshot. */
  datatype LiveState = LiveState(
    frameCount: nat, lastDetections: seq<Overlay>, session: set<Key>,
    shown: seq<seq<Overlay>>, passes: seq<nat>, captures: seq<PhotoOutcome>)

  function Initial(): LiveState
  {
    LiveState(0, [], {}, [], [], [])
  }

  /** The two pipelines a frame can trigger: the inference pass on the
      half-size frame, and the group-photo pipeline on a snapshot. The loop
      only passes their answers on, so its properties hold whatever they are. */
  datatype Pipelines = Pipelines(pass: Image -> Pass, capture: (Option<Image>, Env) -> PhotoOutcome)

  /** The pipelines `process_webcam` runs, with its models and store. */
  function PipelinesOf(m: Models, db: Db): Pipelines
  {
    Pipelines(small => LivePass(m, small, db), (snapshot, clock) => GroupPhoto(m, snapshot, db, clock))
  }

  /** Every roll number an inference pass matches is enrolled. */
  ghost predicate PassesEnrolled(p: Pipelines, db: Db)
  {
    forall small: Image, i :: 0 <= i < |p.pass(small).matched| ==> p.pass(small).matched[i] in Keys(db)
  }

  lemma LivePassesEnrolled(m: Models, db: Db)
    ensures PassesEnrolled(PipelinesOf(m, db), db)
  {
    forall small: Image, i | 0 <= i < |PipelinesOf(m, db).pass(small).matched|
      ensures PipelinesOf(m, db).pass(small).matched[i] in Keys(db)
    {
      assert PipelinesOf(m, db).pass(small) == LivePass(m, small, db);
    }
  }

  /** The state after one frame, and whether the loop stops there. */
  datatype Next = Next(stop: bool, state: LiveState)

  /** One iteration of the loop for one frame. */
  function Step(p: Pipelines, st: LiveState, f: Frame): (r: Next)
    ensures r.state.frameCount == st.frameCount + 1
    ensures r.state.shown == st.shown + [st.lastDetections]
    ensures r.stop <==> KeyCode(f.key) == QuitKey
    ensures st.session <= r.state.session
    ensures KeyCode(f.key) == QuitKey || KeyCode(f.key) == SnapshotKey ==>
      r.state.session == st.session && r.state.lastDetections == st.lastDetections && r.state.passes == st.passes
    ensures r.state.captures == st.captures + (if KeyCode(f.key) == SnapshotKey then [p.capture(f.snapshot, f.clock)] else [])
    ensures r.state.passes == st.passes + (if r.state.frameCount % SkipFrames == 0 && KeyCode(f.key) != QuitKey && KeyCode(f.key) != SnapshotKey then [r.state.frameCount] else [])
    ensures r.state.lastDetections ==
      if |r.state.passes| > |st.passes| && !p.pass(f.small).raised then p.pass(f.small).drawn
      else st.lastDetections
  {
    var count := st.frameCount + 1;
    var seen := st.(frameCount := count, shown := st.shown + [st.lastDetections]);
    var code := KeyCode(f.key);
    if code == QuitKey then Next(true, seen)
    else if code == SnapshotKey then Next(false, seen.(captures := seen.captures + [p.capture(f.snapshot, f.clock)]))
    else if count % SkipFrames != 0 then Next(false, seen)
    else
      var pass := p.pass(f.small);
      Next(false, seen.(passes := seen.passes + [count],
                        session := seen.session + Elements(pass.matched),
                        lastDetections := if pass.raised then seen.lastDetections else pass.drawn))
  }

  /** The loop from a state over the frames still to be read; it ends at a
      'q' frame or when no frame can be read. */
  function Run(p: Pipelines, st: LiveState, frames: seq<Frame>): (r: LiveState)
    ensures st.frameCount <= r.frameCount <= st.frameCount + |frames|
    ensures |r.shown| == |st.shown| + (r.frameCount - st.frameCount)
    ensures st.passes <= r.passes && st.captures <= r.captures && st.session <= r.session
    decreases |frames|
  {
    if frames == [] then st
    else
      var n := Step(p, st, frames[0]);
      if n.stop then n.state else Run(p, n.state, frames[1..])
  }

  /** What `process_webcam` leaves behind. */
  datatype WebcamOutcome = NotOpened | Ran(final: LiveState, report: Option<ReportFile>)

  function LiveReportName(env: Env): string
  {
    "Attendance_Live_" + env.stamp + ".txt"
  }

  /** The whole call: nothing when the source cannot be opened; otherwise the
      loop over the frames, then the session report when anyone was matched
      and the file could be written. */
  function Webcam(m: Models, isOpen: bool, db: Db, frames: seq<Frame>, env: Env): (r: WebcamOutcome)
    ensures r.Ran? <==> isOpen
    ensures r.Ran? ==> (r.report.Some? <==> r.final.session != {} && env.writeError.None?)
    ensures r.Ran? && r.report.Some? ==> r.report.value.name == LiveReportName(env)
    ensures r.Ran? ==> r.final == Run(PipelinesOf(m, db), Initial(), frames)
  {
    if !isOpen then NotOpened
    else
      var fin := Run(PipelinesOf(m, db), Initial(), frames);
      var report :=
        if fin.session != {} && env.writeError.None? then
          Some(ReportFile(LiveReportName(env), Report.AttendanceReport(Report.LiveTitle, env.date, env.time, db, fin.session, |fin.session|)))
        else None;
      Ran(fin, report)
  }

  // ---------------------------------------------------------------------------
  // Properties of the live loop

  /** Frames after the first 'q' are never read. */
  lemma {:induction false} QuitEndsRun(p: Pipelines, st: LiveState, frames: seq<Frame>, j: nat)
    requires j < |frames| && KeyCode(frames[j].key) == QuitKey
    requires forall i :: 0 <= i < j ==> KeyCode(frames[i].key) != QuitKey
    ensures Run(p, st, frames) == Run(p, st, frames[..j + 1])
    ensures Run(p, st, frames).frameCount == st.frameCount + j + 1
    decreases |frames|
  {
    var n := Step(p, st, frames[0]);
    if j > 0 {
      QuitEndsRun(p, n.state, frames[1..], j - 1);
      assert frames[..j + 1][1..] == frames[1..][..j];
    }
  }

  /** Without a 'q', every frame is read and counted, and each redraws the cache. */
  lemma {:induction false} EveryFrameCounted(p: Pipelines, st: LiveState, frames: seq<Frame>)
    requires forall i :: 0 <= i < |frames| ==> KeyCode(frames[i].key) != QuitKey
    ensures Run(p, st, frames).frameCount == st.frameCount + |frames|
    ensures |Run(p, st, frames).shown| == |st.shown| + |frames|
    decreases |frames|
  {
    if frames != [] {
      EveryFrameCounted(p, Step(p, st, frames[0]).state, frames[1..]);
    }
  }

  /** Every roll number in the session is enrolled: only inference passes
      mark the session, and a snapshot never does. */
  lemma {:induction false} SessionEnrolled(p: Pipelines, db: Db, st: LiveState, frames: seq<Frame>)
    requires PassesEnrolled(p, db)
    requires forall k :: k in st.session ==> k in Keys(db)
    ensures forall k :: k in Run(p, st, frames).session ==> k in Keys(db)
    decreases |frames|
  {
    if frames != [] {
      var n := Step(p, st, frames[0]);
      var pass := p.pass(frames[0].small);
      assert forall k :: k in Elements(pass.matched) ==> k in Keys(db);
      if !n.stop {
        SessionEnrolled(p, db, n.state, frames[1..]);
      }
    }
  }

  /** The pass recorded by one frame, if any. */
  lemma StepPasses(p: Pipelines, st: LiveState, f: Frame)
    ensures var s1 := Step(p, st, f).state;
      s1.passes[|st.passes|..] ==
        if (st.frameCount + 1) % SkipFrames == 0 && KeyCode(f.key) != QuitKey && KeyCode(f.key) != SnapshotKey
        then [st.frameCount + 1] else []
  {
  }

  /** What follows a prefix of a prefix of c is what follows it up to the
      longer prefix, then the rest of c. */
  lemma SplitAfter<T>(a: seq<T>, b: seq<T>, c: seq<T>)
    requires a <= b <= c
    ensures c[|a|..] == b[|a|..] + c[|b|..]
  {
    assert c[..|b|] == b;
  }

  /** Inference cadence: a frame number is recorded as a pass exactly when it
      was read, is a multiple of five, and its key was neither 'q' nor 's'. */
  lemma {:induction false} PassCadence(p: Pipelines, st: LiveState, frames: seq<Frame>, c: int)
    ensures var r := Run(p, st, frames);
      c in r.passes[|st.passes|..] <==>
        st.frameCount < c <= r.frameCount && c % SkipFrames == 0 &&
        KeyCode(frames[c - st.frameCount - 1].key) != QuitKey &&
        KeyCode(frames[c - st.frameCount - 1].key) != SnapshotKey
    decreases |frames|
  {
    var r := Run(p, st, frames);
    if frames == [] {
      assert r.passes[|st.passes|..] == [];
    } else {
      var n := Step(p, st, frames[0]);
      var s1 := n.state;
      StepPasses(p, st, frames[0]);
      var added := s1.passes[|st.passes|..];
      if n.stop {
        assert r == s1;
        assert added == [];
      } else {
        assert r == Run(p, s1, frames[1..]);
        PassCadence(p, s1, frames[1..], c);
        var rest := r.passes[|s1.passes|..];
        SplitAfter(st.passes, s1.passes, r.passes);
        if s1.frameCount < c <= r.frameCount {
          assert frames[1..][c - s1.frameCount - 1] == frames[c - st.frameCount - 1];
        }
      }
    }
  }

  /** Frame f, read as frame number `count`, ran a pass that completed and
      drew `cache`. */
  predicate DrawnBy(p: Pipelines, count: int, f: Frame, cache: seq<Overlay>)
  {
    && count % SkipFrames == 0
    && KeyCode(f.key) != QuitKey && KeyCode(f.key) != SnapshotKey
    && !p.pass(f.small).raised
    && cache == p.pass(f.small).drawn
  }

  /** The boxes drawn at the end of a run are the initial ones or those of a
      pass that completed on one of the frames read: a frame whose count is a
      multiple of five and whose key is neither 'q' nor 's'. */
  lemma {:induction false} CacheFromCompletedPass(p: Pipelines, st: LiveState, frames: seq<Frame>)
    ensures var r := Run(p, st, frames);
      r.lastDetections == st.lastDetections ||
      exists j :: 0 <= j < r.frameCount - st.frameCount && DrawnBy(p, st.frameCount + j + 1, frames[j], r.lastDetections)
    decreases |frames|
  {
    var r := Run(p, st, frames);
    if frames != [] {
      var n := Step(p, st, frames[0]);
      if !n.stop {
        assert r == Run(p, n.state, frames[1..]);
        CacheFromCompletedPass(p, n.state, frames[1..]);
        if r.lastDetections != n.state.lastDetections {
          var j :| 0 <= j < r.frameCount - n.state.frameCount &&
            DrawnBy(p, n.state.frameCount + j + 1, frames[1..][j], r.lastDetections);
          assert frames[1..][j] == frames[j + 1];
          assert DrawnBy(p, st.frameCount + (j + 1) + 1, frames[j + 1], r.lastDetections);
        } else if r.lastDetections != st.lastDetections {
          CacheStep(p, st, frames[0]);
          assert DrawnBy(p, st.frameCount + 0 + 1, frames[0], r.lastDetections);
        }
      }
    }
  }

  /** One frame changes the cache only by a pass that completed on it. */
  lemma CacheStep(p: Pipelines, st: LiveState, f: Frame)
    ensures var n := Step(p, st, f);
      n.state.lastDetections == st.lastDetections || DrawnBy(p, st.frameCount + 1, f, n.state.lastDetections)
  {
  }

  /** The four cases of one loop iteration with the pipelines of
      `process_webcam`: 'q', 's', a frame due for a pass, any other frame. */
  lemma QuitCase(m: Models, db: Db, st: LiveState, f: Frame)
    requires KeyCode(f.key) == QuitKey
    ensures Step(PipelinesOf(m, db), st, f) ==
      Next(true, st.(frameCount := st.frameCount + 1, shown := st.shown + [st.lastDetections]))
  {
  }

  lemma SnapshotCase(m: Models, db: Db, st: LiveState, f: Frame)
    requires KeyCode(f.key) == SnapshotKey
    ensures Step(PipelinesOf(m, db), st, f) ==
      Next(false, st.(frameCount := st.frameCount + 1, shown := st.shown + [st.lastDetections],
                      captures := st.captures + [GroupPhoto(m, f.snapshot, db, f.clock)]))
  {
  }

  lemma PassCase(m: Models, db: Db, st: LiveState, f: Frame)
    requires KeyCode(f.key) != QuitKey && KeyCode(f.key) != SnapshotKey && (st.frameCount + 1) % SkipFrames == 0
    ensures var pass := LivePass(m, f.small, db);
      Step(PipelinesOf(m, db), st, f) ==
      Next(false, st.(frameCount := st.frameCount + 1, shown := st.shown + [st.lastDetections],
                      passes := st.passes + [st.frameCount + 1],
                      session := st.session + Elements(pass.matched),
                      lastDetections := if pass.raised then st.lastDetections else pass.drawn))
  {
  }

  lemma IdleCase(m: Models, db: Db, st: LiveState, f: Frame)
    requires KeyCode(f.key) != QuitKey && KeyCode(f.key) != SnapshotKey && (st.frameCount + 1) % SkipFrames != 0
    ensures Step(PipelinesOf(m, db), st, f) ==
      Next(false, st.(frameCount := st.frameCount + 1, shown := st.shown + [st.lastDetections]))
  {
  }

  /** The loop from frame i on is one step, then the loop from frame i + 1
      unless that step read 'q'. */
  lemma RunFrom(p: Pipelines, st: LiveState, frames: seq<Frame>, i: nat)
    requires i < |frames|
    ensures var n := Step(p, st, frames[i]);
      Run(p, st, frames[i..]) == if n.stop then n.state else Run(p, n.state, frames[i + 1..])
  {
    assert frames[i..][0] == frames[i] && frames[i..][1..] == frames[i + 1..];
  }

  /** The loop after its first i frames: the state it has reached and
      whether it has stopped at a 'q' among them. */
  function Upto(p: Pipelines, frames: seq<Frame>, i: nat): Next
    requires i <= |frames|
  {
    if i == 0 then Next(false, Initial())
    else
      var prev := Upto(p, frames, i - 1);
      if prev.stop then prev else Step(p, prev.state, frames[i - 1])
  }

  /** The loop over all frames is the loop over the first i, then the rest
      unless it already stopped. */
  lemma {:induction false} RunUpto(p: Pipelines, frames: seq<Frame>, i: nat)
    requires i <= |frames|
    ensures var u := Upto(p, frames, i);
      Run(p, Initial(), frames) == if u.stop then u.state else Run(p, u.state, frames[i..])
  {
    if i == 0 {
      assert frames[0..] == frames;
    } else {
      RunUpto(p, frames, i - 1);
      var prev := Upto(p, frames, i - 1);
      if !prev.stop {
        var n := Step(p, prev.state, frames[i - 1]);
        assert Upto(p, frames, i) == n;
        RunFrom(p, prev.state, frames, i - 1);
      }
    }
  }

  /** A frame with neither 'q' nor 's': counted, the cache redrawn, and on a
      multiple of five a pass whose boxes replace the cache if it completed. */
  lemma QuietStep(p: Pipelines, st: LiveState, f: Frame)
    requires KeyCode(f.key) != QuitKey && KeyCode(f.key) != SnapshotKey
    ensures var n := Step(p, st, f);
      var due := (st.frameCount + 1) % SkipFrames == 0;
      && !n.stop
      && n.state.frameCount == st.frameCount + 1
      && n.state.shown == st.shown + [st.lastDetections]
      && n.state.captures == st.captures
      && n.state.passes == st.passes + (if due then [st.frameCount + 1] else [])
      && n.state.lastDetections == (if due && !p.pass(f.small).raised then p.pass(f.small).drawn else st.lastDetections)
  {
  }

  /** Nine frames without a key: exactly one pass runs, on frame 5, and no
      snapshot is taken. Frames 1 to 5 show the empty cache (frame 5 is drawn
      before its own pass), and frames 6 to 9 show the boxes of frame 5's pass
      when it completed, the empty cache when it raised. */
  lemma NineQuietFrames(p: Pipelines, frames: seq<Frame>)
    requires |frames| == 9
    requires forall i :: 0 <= i < 9 ==> frames[i].key == -1
    ensures var r := Run(p, Initial(), frames);
      var pass := p.pass(frames[4].small);
      var cache := if pass.raised then [] else pass.drawn;
      && r.frameCount == 9
      && r.passes == [5]
      && r.captures == []
      && |r.shown| == 9
      && (forall i :: 0 <= i < 5 ==> r.shown[i] == [])
      && (forall i :: 5 <= i < 9 ==> r.shown[i] == cache)
      && r.lastDetections == cache
  {
    var pass := p.pass(frames[4].small);
    var cache := if pass.raised then [] else pass.drawn;
    QuietFrames(p, frames, 9, cache);
    RunUpto(p, frames, 9);
    assert frames[9..] == [];
  }

  /** The first k of nine quiet frames. */
  lemma {:induction false} QuietFrames(p: Pipelines, frames: seq<Frame>, k: nat, cache: seq<Overlay>)
    requires |frames| == 9 && k <= 9
    requires forall i :: 0 <= i < 9 ==> frames[i].key == -1
    requires cache == (var pass := p.pass(frames[4].small); if pass.raised then [] else pass.drawn)
    ensures !Upto(p, frames, k).stop && QuietSoFar(Upto(p, frames, k).state, k, cache)
  {
    if k > 0 {
      QuietFrames(p, frames, k - 1, cache);
      var prev := Upto(p, frames, k - 1);
      assert KeyCode(frames[k - 1].key) == 255;
      QuietFrame(p, prev.state, frames[k - 1], k - 1, cache);
      assert Upto(p, frames, k) == Step(p, prev.state, frames[k - 1]);
    }
  }

  /** The state after the first k of nine quiet frames, where `cache` is what
      the pass on frame 5 leaves behind. */
  ghost predicate QuietSoFar(st: LiveState, k: nat, cache: seq<Overlay>)
  {
    && st.frameCount == k
    && st.captures == []
    && st.passes == (if k < 5 then [] else [5])
    && st.lastDetections == (if k < 5 then [] else cache)
    && |st.shown| == k
    && (forall i :: 0 <= i < k && i < 5 ==> st.shown[i] == [])
    && (forall i :: 5 <= i < k ==> st.shown[i] == cache)
  }

  /** One more quiet frame among the first nine. */
  lemma QuietFrame(p: Pipelines, st: LiveState, f: Frame, k: nat, cache: seq<Overlay>)
    requires k < 9 && QuietSoFar(st, k, cache)
    requires KeyCode(f.key) != QuitKey && KeyCode(f.key) != SnapshotKey
    requires k == 4 ==> cache == (if p.pass(f.small).raised then [] else p.pass(f.small).drawn)
    ensures !Step(p, st, f).stop && QuietSoFar(Step(p, st, f).state, k + 1, cache)
  {
    FifthOfNine(k);
    QuietStep(p, st, f);
  }

  lemma FifthOfNine(count: int)
    requires 0 <= count < 9
    ensures (count + 1) % SkipFrames == 0 <==> count == 4
  {
  }

  /** Frames without 's' take no snapshot. */
  lemma {:induction false} NoSnapshotNoCapture(p: Pipelines, st: LiveState, frames: seq<Frame>)
    requires forall i :: 0 <= i < |frames| ==> KeyCode(frames[i].key) != SnapshotKey
    ensures Run(p, st, frames).captures == st.captures
    decreases |frames|
  {
    if frames != [] {
      var n := Step(p, st, frames[0]);
      if !n.stop {
        NoSnapshotNoCapture(p, n.state, frames[1..]);
      }
    }
  }

  /** The frame numbers of passes are recorded in increasing order, each
      after the frames already counted. */
  lemma {:induction false} NewPassesIncrease(p: Pipelines, st: LiveState, frames: seq<Frame>)
    ensures var r := Run(p, st, frames);
      forall i, j :: |st.passes| <= i < j < |r.passes| ==> r.passes[i] < r.passes[j]
    decreases |frames|
  {
    if frames != [] {
      var n := Step(p, st, frames[0]);
      if !n.stop {
        NewPassesIncrease(p, n.state, frames[1..]);
        var r := Run(p, st, frames);
        assert r == Run(p, n.state, frames[1..]);
        forall i | |n.state.passes| <= i < |r.passes|
          ensures n.state.frameCount < r.passes[i]
        {
          PassCadence(p, n.state, frames[1..], r.passes[i]);
          assert r.passes[i] in r.passes[|n.state.passes|..];
        }
        assert r.passes[..|n.state.passes|] == n.state.passes;
        forall i, j | |st.passes| <= i < j < |r.passes|
          ensures r.passes[i] < r.passes[j]
        {
          if i < |n.state.passes| {
            assert n.state.passes == st.passes + [n.state.frameCount];
            assert r.passes[i] == n.state.passes[i] == n.state.frameCount;
            assert n.state.frameCount < r.passes[j];
          } else {
            assert |n.state.passes| <= i < j < |Run(p, n.state, frames[1..]).passes|;
          }
        }
      }
    }
  }

  /** A written session report reconciles: it has a row per enrolled student,
      the time in as many rows as the printed Present count (the session
      size), "Absent" in as many as the printed Absent count. */
  lemma LiveReportReconciles(m: Models, isOpen: bool, db: Db, frames: seq<Frame>, env: Env)
    requires env.time != Report.AbsentText
    requires Webcam(m, isOpen, db, frames, env).Ran? && Webcam(m, isOpen, db, frames, env).report.Some?
    ensures var out := Webcam(m, isOpen, db, frames, env);
      var statuses := Report.Statuses(Keys(db), out.final.session, env.time);
      && out.report.value.lines == Report.AttendanceReport(Report.LiveTitle, env.date, env.time, db, out.final.session, |out.final.session|)
      && Report.Occurrences(statuses, env.time) == |out.final.session|
      && Report.Occurrences(statuses, Report.AbsentText) == |db| - |out.final.session|
  {
    var out := Webcam(m, isOpen, db, frames, env);
    LivePassesEnrolled(m, db);
    SessionEnrolled(PipelinesOf(m, db), db, Initial(), frames);
    Report.ReportTotalsReconcile(db, out.final.session, env.time);
  }

  // ---------------------------------------------------------------------------
  // The loops as the source runs them

  /** Scanning one more box extends the pass by that box's contribution
      alone, unless the pass has already raised. */
  lemma ScanStep(m: Models, small: Image, db: Db, boxes: seq<Box>, i: nat)
    requires i < |boxes| && !ScanBoxes(m, small, db, boxes[..i]).raised
    ensures var p := ScanBoxes(m, small, db, boxes[..i]);
      ScanBoxes(m, small, db, boxes[..i + 1]) ==
        match LiveExamine(m, small, db, boxes[i])
        case LiveRaised => Pass(true, p.drawn, p.matched)
        case Drawn(o, mk) => Pass(false, p.drawn + [o], p.matched + (if mk.Some? then [mk.value] else []))
  {
    assert boxes[..i + 1][..i] == boxes[..i];
  }

  /** The body of the pass for one person box: the crop, the face search on
      it, and the box and match that result; `raised` when the face call raised. */
  method ExamineBox(m: Models, small: Image, db: Db, b: Box) returns (s: LiveSighting)
    ensures s == LiveExamine(m, small, db, b)
  {
    var rect := Rescaled(b);
    var crop := Crop(b, small.width, small.height, LivePad);
    s := Drawn(Overlay(rect, Blue, NoCaption), None);
    if crop.Some? {
      var encodings := m.encodeAny(small, crop.value);
      if encodings.None? {
        return LiveRaised;
      }
      if |encodings.value| > 0 {
        var who := Identify(db, encodings.value[0], m.distance);
        if who.Present? {
          s := Drawn(Overlay(rect, Green, if who.name == "Unknown" then NoCaption else Caption(who.name, Some(who.distance))),
                     Some(who.roll));
        }
      }
    }
  }

  /** The inference pass: detection, then the boxes in order, marking each
      match in the session as it is found; a raise ends the pass, keeping the
      marks made so far but not the boxes. */
  method InferencePass(m: Models, small: Image, db: Db, session: set<Key>) returns (ok: bool, detections: seq<Overlay>, marked: set<Key>)
    ensures ok == !LivePass(m, small, db).raised
    ensures ok ==> detections == LivePass(m, small, db).drawn
    ensures marked == session + Elements(LivePass(m, small, db).matched)
  {
    marked := session;
    detections := [];
    var results := m.detect(small);
    if results.Failure? {
      return false, detections, marked;
    }
    var boxes := results.value;
    var i := 0;
    ok := true;
    ghost var scan := Pass(false, [], []);
    assert boxes[..0] == [];
    while i < |boxes|
      invariant 0 <= i <= |boxes|
      invariant scan == ScanBoxes(m, small, db, boxes[..i]) && !scan.raised
      invariant detections == scan.drawn
      invariant marked == session + Elements(scan.matched)
    {
      ScanStep(m, small, db, boxes, i);
      var sighting := ExamineBox(m, small, db, boxes[i]);
      if sighting.LiveRaised? {
        ok := false;
        ScanRaisedSticks(m, small, db, boxes, i + 1);
        break;
      }
      var overlay, roll := sighting.overlay, sighting.matched;
      if roll.Some? {
        marked := marked + {roll.value};
        ElementsAppend(scan.matched, roll.value);
      } else {
        assert scan.matched + [] == scan.matched;
      }
      detections := detections + [overlay];
      scan := Pass(false, scan.drawn + [overlay], scan.matched + (if roll.Some? then [roll.value] else []));
      i := i + 1;
    }
    if ok {
      assert boxes[..i] == boxes;
    }
  }

  /** Once a prefix of the boxes raised, the whole scan has raised and
      matched nothing more. */
  lemma {:induction false} ScanRaisedSticks(m: Models, small: Image, db: Db, boxes: seq<Box>, i: nat)
    requires i <= |boxes| && ScanBoxes(m, small, db, boxes[..i]).raised
    ensures ScanBoxes(m, small, db, boxes) == ScanBoxes(m, small, db, boxes[..i])
    decreases |boxes| - i
  {
    if i < |boxes| {
      assert boxes[..i + 1][..i] == boxes[..i];
      ScanRaisedSticks(m, small, db, boxes, i + 1);
    } else {
      assert boxes[..i] == boxes;
    }
  }

  /** One iteration of the loop of `process_webcam` for a frame read: count
      it, show it with the cached boxes, read the key, and on 's' process the
      snapshot, on every fifth frame run an inference pass. */
  method ProcessFrame(m: Models, db: Db, st: LiveState, f: Frame) returns (n: Next)
    ensures n == Step(PipelinesOf(m, db), st, f)
  {
    var frameCount := st.frameCount + 1;
    var shown := st.shown + [st.lastDetections];
    var lastDetections, session, passes, captures := st.lastDetections, st.session, st.passes, st.captures;
    var code := f.key % 256;
    if code == QuitKey {
      QuitCase(m, db, st, f);
      return Next(true, LiveState(frameCount, lastDetections, session, shown, passes, captures));
    } else if code == SnapshotKey {
      SnapshotCase(m, db, st, f);
      var outcome := ProcessGroupPhoto(m, f.snapshot, db, f.clock);
      captures := captures + [outcome];
    } else if frameCount % SkipFrames == 0 {
      PassCase(m, db, st, f);
      var ok, detections, marked := InferencePass(m, f.small, db, session);
      passes := passes + [frameCount];
      session := marked;
      if ok {
        lastDetections := detections;
      }
    } else {
      IdleCase(m, db, st, f);
    }
    n := Next(false, LiveState(frameCount, lastDetections, session, shown, passes, captures));
  }

  /** `process_webcam`: frames are read until none is left or 'q' is
      pressed; then the session report is written if anyone was marked. */
  method ProcessWebcam(m: Models, isOpen: bool, db: Db, frames: seq<Frame>, env: Env) returns (out: WebcamOutcome)
    ensures out == Webcam(m, isOpen, db, frames, env)
  {
    if !isOpen {
      return NotOpened;
    }
    var st := Initial();
    ghost var quit := false;
    var i := 0;
    while i < |frames|
      invariant 0 <= i <= |frames|
      invariant Upto(PipelinesOf(m, db), frames, i) == Next(false, st)
    {
      var n := ProcessFrame(m, db, st, frames[i]);
      st := n.state;
      i := i + 1;
      if n.stop {
        quit := true;
        break;
      }
    }
    assert Upto(PipelinesOf(m, db), frames, i) == Next(quit, st);
    RunUpto(PipelinesOf(m, db), frames, i);
    assert !quit ==> frames[i..] == [];
    var report: Option<ReportFile> := None;
    if st.session != {} && env.writeError.None? {
      report := Some(ReportFile(LiveReportName(env), Report.AttendanceReport(Report.LiveTitle, env.date, env.time, db, st.session, |st.session|)));
    }
    out := Ran(st, report);
  }
}
