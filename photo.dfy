/** `process_group_photo`: detect every person, search a face in the padded
    crop around each, identify it, keep each matched roll number once in
    first-seen order, and write a report when anyone was recognised. */
module Photo {
  import opened Wrappers
  import opened Seqs
  import opened Store
  import opened Regions
  import opened Matching
  import opened Vision
  import Report

  const LoadErrorMessage: string := "Error: Could not load image."
  const EmptyRosterMessage: string := "No registered students found. Please register students first."
  const NoMatchMessage: string := "No registered students identified in the photo."
  const DebugImagePath: string := "attendance_debug.jpg"

  function DetectorCrashMessage(error: string): string
  {
    "YOLO Crashed: " + error
  }

  function ReportWrittenMessage(env: Env): string
  {
    "Success! Report generated.\nFile: " + ReportName(env)
  }

  function ReportFailedMessage(error: string): string
  {
    "Failed to save text report: " + error
  }

  /** What the clock and the file system give one report: the file-name
      stamp, the date line, the time shown as status, and the error raised
      while writing the file, if any. */
  datatype Env = Env(stamp: string, date: string, time: string, writeError: Option<string>)

  /** Box colours: red `(0, 0, 255)`, green `(0, 255, 0)`, blue `(255, 0, 0)`. */
  datatype Color = Red | Green | Blue

  /** The label drawn above a box: a name and the distance its confidence
      percentage is computed from, or no label at all. */
  datatype Caption = NoCaption | Caption(name: string, distance: Option<real>)

  /** One box drawn onto an image. */
  datatype Overlay = Overlay(area: Box, color: Color, caption: Caption)

  /** A written report file. */
  datatype ReportFile = ReportFile(name: string, lines: seq<string>)

  /** The `(success, message, path)` triple, together with what the call left
      behind: the present list, the boxes drawn into the debug image and the
      report file written. */
  datatype PhotoOutcome = PhotoOutcome(
    ok: bool, message: string, debugImage: Option<string>,
    present: seq<Key>, drawn: seq<Overlay>, report: Option<ReportFile>)

  /** What became of one detected person. */
  datatype Sighting =
    | EmptyCrop                   // the padded crop has no pixels: skipped
    | Raised                      // a face call raised: the person is skipped
    | NoFace                      // no encoding was produced: skipped
    | Seen(area: Box, who: Identity)

  /** The face search in one crop: located faces are encoded; when none is
      located, the encoder's own default search is tried instead. */
  function FaceEncodings(m: Models, img: Image, crop: Box): Option<seq<Encoding>>
  {
    match m.locate(img, crop)
    case None => None
    case Some(locs) => if |locs| > 0 then m.encodeAt(img, crop, locs) else m.encodeAny(img, crop)
  }

  /** One person box: crop, face search, and the identity of the first face found. */
  function Examine(m: Models, img: Image, db: Db, b: Box): (r: Sighting)
    ensures var crop := Crop(b, img.width, img.height, PhotoPad);
      && (r.EmptyCrop? <==> crop.None?)
      && (r.Raised? <==> crop.Some? && FaceEncodings(m, img, crop.value).None?)
      && (r.NoFace? <==> crop.Some? && FaceEncodings(m, img, crop.value) == Some([]))
      && (r.Seen? ==>
            && r.area == PadClamp(b, img.width, img.height, PhotoPad)
            && r.who == Identify(db, FaceEncodings(m, img, crop.value).value[0], m.distance))
  {
    match Crop(b, img.width, img.height, PhotoPad)
    case None => EmptyCrop
    case Some(crop) =>
      match FaceEncodings(m, img, crop)
      case None => Raised
      case Some(encs) =>
        if |encs| == 0 then NoFace
        else Seen(PadClamp(b, img.width, img.height, PhotoPad), Identify(db, encs[0], m.distance))
  }

  function Sightings(m: Models, img: Image, db: Db, boxes: seq<Box>): (r: seq<Sighting>)
    ensures |r| == |boxes|
    ensures forall i :: 0 <= i < |boxes| ==> r[i] == Examine(m, img, db, boxes[i])
  {
    if boxes == [] then []
    else Sightings(m, img, db, boxes[..|boxes| - 1]) + [Examine(m, img, db, boxes[|boxes| - 1])]
  }

  /** The roll numbers of the matched sightings, repetitions included, in order. */
  function SeenRolls(ss: seq<Sighting>): (r: seq<Key>)
    ensures forall k :: k in r <==> exists i :: 0 <= i < |ss| && ss[i].Seen? && ss[i].who.Present? && ss[i].who.roll == k
  {
    if ss == [] then []
    else
      var s := ss[|ss| - 1];
      assert ss == ss[..|ss| - 1] + [s];
      SeenRolls(ss[..|ss| - 1]) + (if s.Seen? && s.who.Present? then [s.who.roll] else [])
  }

  /** The box drawn for a sighting: green with name and confidence for a match,
      red "Unknown " otherwise. */
  function PhotoOverlay(area: Box, who: Identity): (r: Overlay)
    ensures r.area == area
    ensures r.color == Green <==> who.Present?
  {
    match who
    case Present(_, name, d) => Overlay(area, Green, Caption(name, Some(d)))
    case _ => Overlay(area, Red, Caption("Unknown", None))
  }

  /** The boxes drawn for the sightings: one per person seen, in order. */
  function Overlays(ss: seq<Sighting>): (r: seq<Overlay>)
    ensures |r| <= |ss|
  {
    if ss == [] then []
    else
      var s := ss[|ss| - 1];
      Overlays(ss[..|ss| - 1]) + (if s.Seen? then [PhotoOverlay(s.area, s.who)] else [])
  }

  /** `o` is the box drawn for one of the persons seen. */
  predicate DrawnFor(ss: seq<Sighting>, o: Overlay)
  {
    exists i :: 0 <= i < |ss| && ss[i].Seen? && o == PhotoOverlay(ss[i].area, ss[i].who)
  }

  /** Every drawn box is the box of some person seen, and every person seen
      has its box drawn. */
  lemma {:induction false} OverlaysFromSeen(ss: seq<Sighting>)
    ensures var r := Overlays(ss);
      && (forall j :: 0 <= j < |r| ==> DrawnFor(ss, r[j]))
      && (forall i :: 0 <= i < |ss| && ss[i].Seen? ==> PhotoOverlay(ss[i].area, ss[i].who) in r)
    decreases |ss|
  {
    if ss != [] {
      var init := ss[..|ss| - 1];
      var s := ss[|ss| - 1];
      OverlaysFromSeen(init);
      assert var r0 := Overlays(init); forall j :: 0 <= j < |r0| ==> DrawnFor(init, r0[j]);
      var before := Overlays(init);
      assert forall k :: 0 <= k < |before| ==> DrawnFor(init, before[k]);
      var r := Overlays(ss);
      assert r == before + (if s.Seen? then [PhotoOverlay(s.area, s.who)] else []);
      forall j | 0 <= j < |r|
        ensures DrawnFor(ss, r[j])
      {
        if j < |before| {
          assert DrawnFor(init, before[j]);
          var i :| 0 <= i < |init| && init[i].Seen? && before[j] == PhotoOverlay(init[i].area, init[i].who);
          assert init[i] == ss[i] && r[j] == before[j];
        } else {
          assert ss[|ss| - 1].Seen? && r[j] == PhotoOverlay(ss[|ss| - 1].area, ss[|ss| - 1].who);
        }
      }
      forall i | 0 <= i < |ss| && ss[i].Seen?
        ensures PhotoOverlay(ss[i].area, ss[i].who) in r
      {
        if i < |init| {
          assert init[i] == ss[i];
        } else {
          assert r[|r| - 1] == PhotoOverlay(s.area, s.who);
        }
      }
    }
  }

  /** Drawing distributes over the persons: the boxes of two runs of
      sightings are those of the first run followed by those of the second. */
  lemma {:induction false} OverlaysAppend(a: seq<Sighting>, b: seq<Sighting>)
    ensures Overlays(a + b) == Overlays(a) + Overlays(b)
    decreases |b|
  {
    if b != [] {
      var init := b[..|b| - 1];
      OverlaysAppend(a, init);
      assert (a + b)[..|a + b| - 1] == a + init;
    } else {
      assert a + b == a;
    }
  }

  function ReportName(env: Env): string
  {
    "Attendance_" + env.stamp + ".txt"
  }

  /** The present list: every matched roll number once, in first-seen order. */
  function PresentList(m: Models, img: Image, db: Db, boxes: seq<Box>): (r: seq<Key>)
    ensures Distinct(r)
    ensures forall i :: 0 <= i < |r| ==> r[i] in Keys(db)
  {
    var seen := SeenRolls(Sightings(m, img, db, boxes));
    assert forall k :: k in seen ==> k in Keys(db);
    Dedup(seen)
  }

  /** After the debug image is written: the outcome for a present list and
      the boxes drawn, with the report written when anyone was recognised. */
  function Concluded(db: Db, present: seq<Key>, drawn: seq<Overlay>, env: Env): (r: PhotoOutcome)
    ensures r.present == present && r.drawn == drawn && r.debugImage == Some(DebugImagePath)
    ensures r.ok <==> r.report.Some?
    ensures r.report.Some? <==> |present| > 0 && env.writeError.None?
    ensures |present| == 0 ==> r.message == NoMatchMessage
    ensures |present| > 0 && env.writeError.Some? ==> r.message == ReportFailedMessage(env.writeError.value)
    ensures r.ok ==>
      && r.message == ReportWrittenMessage(env) && r.report.value.name == ReportName(env)
      && r.report.value.lines == Report.AttendanceReport(Report.PhotoTitle, env.date, env.time, db, set k | k in present, |present|)
  {
    if |present| == 0 then PhotoOutcome(false, NoMatchMessage, Some(DebugImagePath), present, drawn, None)
    else match env.writeError
      case Some(e) =>
        PhotoOutcome(false, ReportFailedMessage(e), Some(DebugImagePath), present, drawn, None)
      case None =>
        var lines := Report.AttendanceReport(Report.PhotoTitle, env.date, env.time, db, set k | k in present, |present|);
        PhotoOutcome(true, ReportWrittenMessage(env), Some(DebugImagePath),
                     present, drawn, Some(ReportFile(ReportName(env), lines)))
  }

  /** The whole call, from the image as loaded (None when `cv2.imread` fails)
      and the store as `load_db` returns it. */
  function GroupPhoto(m: Models, image: Option<Image>, db: Db, env: Env): (r: PhotoOutcome)
    ensures Distinct(r.present)
    ensures forall i :: 0 <= i < |r.present| ==> r.present[i] in Keys(db)
    ensures r.ok <==> r.report.Some?
    ensures r.report.Some? <==> |r.present| > 0 && env.writeError.None?
    ensures r.debugImage.Some? <==> image.Some? && m.detect(image.value).Success? && |db| > 0
    ensures r.debugImage.None? ==> r.present == [] && r.drawn == []
    ensures image.None? ==> r.message == LoadErrorMessage
    ensures image.Some? && m.detect(image.value).Failure? ==> r.message == DetectorCrashMessage(m.detect(image.value).error)
    ensures image.Some? && m.detect(image.value).Success? && |db| == 0 ==> r.message == EmptyRosterMessage
    ensures r.debugImage.Some? && r.present == [] ==> r.message == NoMatchMessage
    ensures r.debugImage.Some? && r.present != [] && env.writeError.Some? ==> r.message == ReportFailedMessage(env.writeError.value)
    ensures r.ok ==>
      && r.message == ReportWrittenMessage(env) && r.report.value.name == ReportName(env)
      && r.report.value.lines == Report.AttendanceReport(Report.PhotoTitle, env.date, env.time, db, set k | k in r.present, |r.present|)
  {
    match image
    case None => PhotoOutcome(false, LoadErrorMessage, None, [], [], None)
    case Some(img) =>
      match m.detect(img)
      case Failure(e) => PhotoOutcome(false, DetectorCrashMessage(e), None, [], [], None)
      case Success(boxes) =>
        if |db| == 0 then PhotoOutcome(false, EmptyRosterMessage, None, [], [], None)
        else Concluded(db, PresentList(m, img, db, boxes), Overlays(Sightings(m, img, db, boxes)), env)
  }

  /** The present list holds a roll number exactly when some person was
      matched to it; a near miss never puts anyone on the list. */
  lemma PresentIffMatched(m: Models, img: Image, db: Db, env: Env, k: Key)
    requires m.detect(img).Success? && |db| > 0
    ensures var boxes := m.detect(img).value;
      k in GroupPhoto(m, Some(img), db, env).present <==>
        exists i :: 0 <= i < |boxes| && Examine(m, img, db, boxes[i]).Seen? && Examine(m, img, db, boxes[i]).who.Present? && Examine(m, img, db, boxes[i]).who.roll == k
  {
    var boxes := m.detect(img).value;
    var ss := Sightings(m, img, db, boxes);
    var seen := SeenRolls(ss);
    assert k in Dedup(seen) <==> k in seen;
  }

  /** The present list is in order of first match: of two listed students,
      the one listed first was matched in an earlier person box. */
  lemma PresentInFirstSeenOrder(m: Models, img: Image, db: Db, env: Env, i: nat, j: nat)
    requires m.detect(img).Success? && |db| > 0
    requires i < j < |GroupPhoto(m, Some(img), db, env).present|
    ensures var present := GroupPhoto(m, Some(img), db, env).present;
      var seen := SeenRolls(Sightings(m, img, db, m.detect(img).value));
      IndexOf(seen, present[i]).value < IndexOf(seen, present[j]).value
  {
    DedupFirstSeenOrder(SeenRolls(Sightings(m, img, db, m.detect(img).value)), i, j);
  }

  /** A person whose crop is empty, whose face search raised or found no face
      adds nothing: the present list and the drawn boxes stay as they were. */
  lemma SkippedPersonAddsNothing(m: Models, img: Image, db: Db, boxes: seq<Box>, b: Box)
    requires !Examine(m, img, db, b).Seen?
    ensures Dedup(SeenRolls(Sightings(m, img, db, boxes + [b]))) == Dedup(SeenRolls(Sightings(m, img, db, boxes)))
    ensures Overlays(Sightings(m, img, db, boxes + [b])) == Overlays(Sightings(m, img, db, boxes))
  {
    SightingsAppend(m, img, db, boxes, b);
    SightingStep(Sightings(m, img, db, boxes), Examine(m, img, db, b));
  }

  /** A later sighting of a student already present leaves the present list
      unchanged (the box is still drawn). */
  lemma RepeatSightingAddsNothing(m: Models, img: Image, db: Db, boxes: seq<Box>, b: Box)
    requires Examine(m, img, db, b).Seen? && Examine(m, img, db, b).who.Present?
    requires Examine(m, img, db, b).who.roll in Dedup(SeenRolls(Sightings(m, img, db, boxes)))
    ensures Dedup(SeenRolls(Sightings(m, img, db, boxes + [b]))) == Dedup(SeenRolls(Sightings(m, img, db, boxes)))
    ensures |Overlays(Sightings(m, img, db, boxes + [b]))| == |Overlays(Sightings(m, img, db, boxes))| + 1
  {
    SightingsAppend(m, img, db, boxes, b);
    SightingStep(Sightings(m, img, db, boxes), Examine(m, img, db, b));
  }

  /** A written photo report reconciles: it has a row per enrolled student,
      `time` appears in exactly as many rows as the printed Present count,
      "Absent" in as many as the printed Absent count, and they add up to the
      printed Total Registered. */
  lemma PhotoReportReconciles(m: Models, image: Option<Image>, db: Db, env: Env)
    requires env.time != Report.AbsentText
    requires GroupPhoto(m, image, db, env).report.Some?
    ensures var out := GroupPhoto(m, image, db, env);
      var present := set k | k in out.present;
      var statuses := Report.Statuses(Keys(db), present, env.time);
      && out.report.value.lines == Report.AttendanceReport(Report.PhotoTitle, env.date, env.time, db, present, |out.present|)
      && Report.Occurrences(statuses, env.time) == |out.present|
      && Report.Occurrences(statuses, Report.AbsentText) == |db| - |out.present|
  {
    var out := GroupPhoto(m, image, db, env);
    Report.DistinctListSize(out.present);
    var present := set k | k in out.present;
    Report.ReportTotalsReconcile(db, present, env.time);
  }

  /** Examining one more box appends that box's sighting. */
  lemma SightingsAppend(m: Models, img: Image, db: Db, boxes: seq<Box>, b: Box)
    ensures Sightings(m, img, db, boxes + [b]) == Sightings(m, img, db, boxes) + [Examine(m, img, db, b)]
  {
    assert (boxes + [b])[..|boxes|] == boxes;
  }

  /** The sightings of the first i + 1 boxes are those of the first i and one more. */
  lemma SightingsPrefix(m: Models, img: Image, db: Db, boxes: seq<Box>, i: nat)
    requires i < |boxes|
    ensures Sightings(m, img, db, boxes[..i + 1]) == Sightings(m, img, db, boxes[..i]) + [Examine(m, img, db, boxes[i])]
  {
    assert boxes[..i + 1] == boxes[..i] + [boxes[i]];
    SightingsAppend(m, img, db, boxes[..i], boxes[i]);
  }

  /** One more sighting extends the matched rolls, the present list and the
      drawn boxes by that sighting's contribution alone. */
  lemma SightingStep(ss: seq<Sighting>, s: Sighting)
    ensures var seen := SeenRolls(ss);
      && SeenRolls(ss + [s]) == seen + (if s.Seen? && s.who.Present? then [s.who.roll] else [])
      && Dedup(SeenRolls(ss + [s])) ==
           (if s.Seen? && s.who.Present? && s.who.roll !in Dedup(seen) then Dedup(seen) + [s.who.roll] else Dedup(seen))
      && Overlays(ss + [s]) == Overlays(ss) + (if s.Seen? then [PhotoOverlay(s.area, s.who)] else [])
  {
    assert (ss + [s])[..|ss|] == ss;
    var seen := SeenRolls(ss);
    if s.Seen? && s.who.Present? {
      assert (seen + [s.who.roll])[..|seen|] == seen;
    } else {
      assert seen + [] == seen;
    }
  }

  /** One person of the loop of `process_group_photo`: the padded crop, the
      face search in it, and the identity of the first face found. */
  method ExaminePerson(m: Models, img: Image, db: Db, b: Box) returns (s: Sighting)
    ensures s == Examine(m, img, db, b)
  {
    var crop := Crop(b, img.width, img.height, PhotoPad);
    if crop.None? {
      return EmptyCrop;
    }
    var locs := m.locate(img, crop.value);
    if locs.None? {
      return Raised;
    }
    var encodings: Option<seq<Encoding>>;
    if |locs.value| > 0 {
      encodings := m.encodeAt(img, crop.value, locs.value);
    } else {
      encodings := m.encodeAny(img, crop.value);
    }
    if encodings.None? {
      return Raised;
    }
    if |encodings.value| == 0 {
      return NoFace;
    }
    s := Seen(PadClamp(b, img.width, img.height, PhotoPad), Identify(db, encodings.value[0], m.distance));
  }

  /** The loop of `process_group_photo` over the detected persons: the
      present list and the boxes drawn, as the source builds them. */
  method ExaminePersons(m: Models, img: Image, db: Db, persons: seq<Box>) returns (present: seq<Key>, drawn: seq<Overlay>)
    ensures present == Dedup(SeenRolls(Sightings(m, img, db, persons)))
    ensures drawn == Overlays(Sightings(m, img, db, persons))
  {
    present := [];
    drawn := [];
    ghost var ss: seq<Sighting> := [];
    var i := 0;
    while i < |persons|
      invariant 0 <= i <= |persons|
      invariant ss == Sightings(m, img, db, persons[..i])
      invariant present == Dedup(SeenRolls(ss)) && drawn == Overlays(ss)
    {
      var s := ExaminePerson(m, img, db, persons[i]);
      SightingsPrefix(m, img, db, persons, i);
      SightingStep(ss, s);
      ss := ss + [s];
      if s.Seen? {
        if s.who.Present? && s.who.roll !in present {
          present := present + [s.who.roll];
        }
        drawn := drawn + [PhotoOverlay(s.area, s.who)];
      }
      i := i + 1;
    }
    assert persons[..i] == persons;
  }

  /** `process_group_photo`: the checks in the source's order, the loop over
      the persons, then the report. */
  method ProcessGroupPhoto(m: Models, image: Option<Image>, db: Db, env: Env) returns (out: PhotoOutcome)
    ensures out == GroupPhoto(m, image, db, env)
  {
    if image.None? {
      return PhotoOutcome(false, LoadErrorMessage, None, [], [], None);
    }
    var img := image.value;
    var detected := m.detect(img);
    if detected.Failure? {
      return PhotoOutcome(false, DetectorCrashMessage(detected.error), None, [], [], None);
    }
    var persons := detected.value;
    if |db| == 0 {
      return PhotoOutcome(false, EmptyRosterMessage, None, [], [], None);
    }
    var present, drawn := ExaminePersons(m, img, db, persons);
    if |present| == 0 {
      return PhotoOutcome(false, NoMatchMessage, Some(DebugImagePath), present, drawn, None);
    }
    if env.writeError.Some? {
      return PhotoOutcome(false, ReportFailedMessage(env.writeError.value), Some(DebugImagePath), present, drawn, None);
    }
    var lines := Report.AttendanceReport(Report.PhotoTitle, env.date, env.time, db, set k | k in present, |present|);
    out := PhotoOutcome(true, ReportWrittenMessage(env), Some(DebugImagePath),
                        present, drawn, Some(ReportFile(ReportName(env), lines)));
  }
  /** A two-student roster: "101" Alice, then "102" Bob. */
  function TwoStudents(): Db
  {
    [Entry(StrKey("101"), Record("Alice", [0.0])), Entry(StrKey("102"), Record("Bob", [1.0]))]
  }

  /** The face met in the examples: 0.40 from Alice's encoding, 0.80 from any other. */
  function CloseToAlice(known: Encoding, probe: Encoding): real
  {
    if known == [0.0] then 0.40 else 0.80
  }

  /** A face 0.60 from Alice's encoding: a near miss, 0.80 from any other. */
  function NearAlice(known: Encoding, probe: Encoding): real
  {
    if known == [0.0] then 0.60 else 0.80
  }

  /** One person in a 640x480 photo, with one face found in its crop. */
  function OnePerson(distance: (Encoding, Encoding) -> real): Models
  {
    Models(img => Success([Box(100, 100, 200, 300)]),
           (img, b) => Some([FaceLoc(0, 1, 1, 0)]),
           (img, b, locs) => Some([[0.5]]),
           (img, b) => None,
           distance)
  }

  lemma OnePersonSighting(distance: (Encoding, Encoding) -> real)
    ensures var m := OnePerson(distance);
      var img := Image(1, 640, 480);
      && m.detect(img) == Success([Box(100, 100, 200, 300)])
      && Sightings(m, img, TwoStudents(), [Box(100, 100, 200, 300)]) ==
         [Seen(Box(80, 80, 220, 320), Identify(TwoStudents(), [0.5], distance))]
  {
    var m := OnePerson(distance);
    var img := Image(1, 640, 480);
    var b := Box(100, 100, 200, 300);
    assert Crop(b, 640, 480, PhotoPad) == Some(Box(80, 80, 220, 320));
    assert FaceEncodings(m, img, Box(80, 80, 220, 320)) == Some([[0.5]]);
    assert [b][..0] == [];
  }

  lemma TwoStudentsDistances(distance: (Encoding, Encoding) -> real)
    ensures Distances(KnownEncodings(TwoStudents()), [0.5], distance) == [distance([0.0], [0.5]), distance([1.0], [0.5])]
    ensures Keys(TwoStudents()) == [StrKey("101"), StrKey("102")]
    ensures KnownNames(TwoStudents()) == ["Alice", "Bob"]
  {
  }

  lemma OneMatchFound()
    ensures var ss := Sightings(OnePerson(CloseToAlice), Image(1, 640, 480), TwoStudents(), [Box(100, 100, 200, 300)]);
      && Dedup(SeenRolls(ss)) == [StrKey("101")]
      && Overlays(ss) == [Overlay(Box(80, 80, 220, 320), Green, Caption("Alice", Some(0.40)))]
  {
    var db := TwoStudents();
    OnePersonSighting(CloseToAlice);
    TwoStudentsDistances(CloseToAlice);
    var d := Distances(KnownEncodings(db), [0.5], CloseToAlice);
    assert ArgMin(d) == 0;
    var who := Identify(db, [0.5], CloseToAlice);
    assert who == Present(StrKey("101"), "Alice", 0.40);
    var ss := [Seen(Box(80, 80, 220, 320), who)];
    assert ss[..0] == [];
    assert SeenRolls(ss) == [StrKey("101")];
    assert [StrKey("101")][..0] == [];
  }

  /** A face at distance 0.40 from Alice and 0.80 from Bob: Alice is present,
      Bob absent, and the report says so row by row. */
  lemma OneMatchReported(env: Env)
    requires env.writeError.None?
    ensures var out := GroupPhoto(OnePerson(CloseToAlice), Some(Image(1, 640, 480)), TwoStudents(), env);
      && out.ok
      && out.present == [StrKey("101")]
      && out.drawn == [Overlay(Box(80, 80, 220, 320), Green, Caption("Alice", Some(0.40)))]
      && out.report.value.name == "Attendance_" + env.stamp + ".txt"
      && out.report.value.lines[5] == Report.RowLine("101", "Alice", env.time)
      && out.report.value.lines[6] == Report.RowLine("102", "Bob", Report.AbsentText)
  {
    var db := TwoStudents();
    OnePersonSighting(CloseToAlice);
    OneMatchFound();
    TwoStudentsDistances(CloseToAlice);
    assert (set k | k in [StrKey("101")]) == {StrKey("101")};
    AliceOnlyRows(env.date, env.time);
  }

  /** The rows of a report for the two-student roster with only "101" present. */
  lemma AliceOnlyRows(date: string, time: string)
    ensures var lines := Report.AttendanceReport(Report.PhotoTitle, date, time, TwoStudents(), {StrKey("101")}, 1);
      && lines[5] == Report.RowLine("101", "Alice", time)
      && lines[6] == Report.RowLine("102", "Bob", Report.AbsentText)
  {
    var db := TwoStudents();
    var present: set<Key> := {StrKey("101")};
    var lines := Report.AttendanceReport(Report.PhotoTitle, date, time, db, present, 1);
    Report.ReportLayout(Report.PhotoTitle, date, time, db, present, 1);
    Report.RowsFollowRoster(db, present, time, 0);
    Report.RowsFollowRoster(db, present, time, 1);
    assert lines[5] == lines[5..7][0] && lines[6] == lines[5..7][1];
    TwoStudentsDistances(CloseToAlice);
    assert db[0].key == StrKey("101");
    assert Get(db, StrKey("101")) == Some(db[0].rec);
    assert db[1].key == StrKey("102");
    assert Get(db, StrKey("102")) == Some(db[1].rec);
    assert Report.RowName(db, StrKey("101")) == "Alice";
    assert Report.RowName(db, StrKey("102")) == "Bob";
  }

  /** A face at distance 0.60 from Alice is only a near miss: nobody is
      present, the call fails with the no-match message, and no report is
      written, though the debug image is. */
  lemma NearMissNotReported(env: Env)
    ensures var out := GroupPhoto(OnePerson(NearAlice), Some(Image(1, 640, 480)), TwoStudents(), env);
      && !out.ok
      && out.message == NoMatchMessage
      && out.debugImage == Some(DebugImagePath)
      && out.present == []
      && out.report == None
      && out.drawn == [Overlay(Box(80, 80, 220, 320), Red, Caption("Unknown", None))]
  {
    var db := TwoStudents();
    OnePersonSighting(NearAlice);
    TwoStudentsDistances(NearAlice);
    var d := Distances(KnownEncodings(db), [0.5], NearAlice);
    assert ArgMin(d) == 0;
    var who := Identify(db, [0.5], NearAlice);
    assert who == Doubtful("Alice", 0.60);
    var ss := [Seen(Box(80, 80, 220, 320), who)];
    assert ss[..0] == [];
    assert SeenRolls(ss) == [];
    assert Overlays(ss) == [Overlay(Box(80, 80, 220, 320), Red, Caption("Unknown", None))];
  }
}
