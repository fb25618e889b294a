# Face-recognition attendance: a Dafny model of the core

This project models the core of a classroom attendance system that recognises
enrolled students in pictures and writes text attendance reports:

- `process_group_photo`: one still photo. YOLO finds every person, and each
  padded crop is searched for a face. The first face found is compared with
  every enrolled encoding, and each student matched (distance below 0.55) is
  marked present once, in first-seen order. A debug image records the boxes
  drawn, and a text report is written when anyone was recognised.
- `process_webcam`: the live loop. Every frame redraws the boxes of the last
  completed inference pass and reads one key. 'q' quits. 's' runs the photo
  pipeline on a snapshot of the frame. Otherwise every fifth frame runs a
  pass on the half-size frame, and the roll numbers it matches are added to
  the session. When the loop ends, a session report is written if anyone
  was matched and the file could be written.
- `register_student`: enrols a student from a photo holding exactly one
  face.
- `delete_student_by_roll`: removes a roll number from the store, text key
  first, then integer key. It also drops the student's rows from
  `attendance.xlsx`.

The enrolment store (`data/db.pkl`) is a Python dict. Here it is an
insertion-ordered association list without repeated keys (`Store.Db`).
`"101"` and `101` are distinct keys (`Store.Key`). YOLO and the
`face_recognition` calls are function-typed collaborators
(`Vision.Models`); a `Failure` or `None` answer stands for a call that
raised. The clock and file-system outcomes are parameters (`Photo.Env`,
`Store.SheetWrite`). The frames the camera delivers are a sequence
(`Live.Frame`).

Each operation is a specification function over values plus a method that
follows the source's statements and is proved equal to it:
`Photo.ProcessGroupPhoto` with its person loop `Photo.ExaminePersons`,
`Live.ProcessWebcam` with `Live.ProcessFrame` and `Live.InferencePass`,
`Registration.RegisterStudent`, and `Deletion.DeleteStudentByRoll`. The
store and the spreadsheet are fields of the `Store.Storage` class, which
those methods update.

Where the project's own description and the code differ, the model follows
the code:

- The "no registered students" check runs after YOLO detection, so a YOLO
  crash is reported even when the store is empty.
- A photo with nobody recognised still writes the debug image, and its
  failure triple carries that path.
- A snapshot's present list is never merged into the live session.
- A row of a report takes its name from `db[str(r_no)]` first, then from
  `db[int(r_no)]`. An integer key whose text is also a key shows the
  text key's name (`Report.RowNameOfEnrolled`).
- The column-header line is 51 characters wide, but the rules around it are
  45 (`Report.HeaderLayout`).
- A live pass that raises part-way keeps the session marks it made, but
  its boxes do not replace the cache.
- Frame 5 is drawn with the stale cache, before its own pass runs
  (`Live.NineQuietFrames`).
- Deleting text key `"101.5"` also prunes the spreadsheet rows of `"101"`
  (`Deletion.DotRollPrunesPrefixRows`).
- The integer-key deletion branch swallows every spreadsheet error.
- Registration saves the store before it makes the reference-image
  directory and converts the image. A raise in either step leaves the
  student enrolled, but the call reports failure. `cv2.imwrite` reports
  most failures by returning False, which the code ignores, so the call
  then reports success.

## Model

| member | source | states |
|---|---|---|
| Store.Get | src/attendance.py:188-192 | `db.get(k)`: None exactly when k is not a key, else the record stored at k's entry |
| Store.Put | src/registration.py:39-42 | `db[roll] = rec`: k maps to rec, every other key keeps its record, a new key goes last, an existing key keeps its place |
| Store.Del | src/database.py:32 | `del db[k]`: k is gone, every other key keeps its record, the key order is otherwise unchanged |
| Store.ReputOverwrites | src/registration.py:33-43 | writing a roll number twice equals writing only the second record |
| Store.DelUndoesPut | src/database.py:30-33 | deleting a key that was just added restores the store exactly |
| Store.Storage.Save | src/database.py:17-25 | `save_db` replaces the stored dict and counts one write; the spreadsheet is untouched |
| Store.Storage.WriteSheet | src/database.py:50-55 | `to_excel` replaces the rows unless the write raises, and reports which happened |
| Text.Repeat | src/attendance.py:181 | `"=" * 45`: n copies of the character |
| Text.PadRight | src/attendance.py:202 | `f"{s:<w}"`: s followed by spaces up to width w, never truncated |
| Text.TrimPadRight | src/attendance.py:202 | the padding a field gets can be stripped again to give back the field |
| Text.ParseIntToString | src/attendance.py:205-207 | a printed total parses back to the number printed |
| Text.BeforeDot | src/database.py:43-45 | `str(x).split('.')[0]`: the longest prefix without '.', followed by '.' when shorter |
| Seqs.Dedup | src/attendance.py:139-140 | appending only unseen roll numbers: no repeats, and the same elements as the input |
| Seqs.DedupFirstSeenOrder | src/attendance.py:139-140 | the deduplicated list keeps the order of first occurrence |
| Seqs.DedupRepeat | src/attendance.py:139-140 | seeing a listed roll number again changes nothing |
| Seqs.DedupIdempotent | src/attendance.py:139-140 | deduplicating twice equals deduplicating once |
| Seqs.DedupOfDistinct | src/attendance.py:139-140 | a list without repeats is left as it is |
| Seqs.CountInCovered | src/attendance.py:204-207 | counting a list without repeats against a set it covers gives the set's size |
| Regions.PadClamp | src/attendance.py:74-79 | each side is padded, then clamped to the image: `max(0, ·)` and `min(w, ·)` |
| Regions.SliceBound | src/attendance.py:82 | a numpy slice bound within [0, n] is itself; a negative bound counts from the end, clamped at 0; a bound past n is n |
| Regions.Crop | src/attendance.py:74-85 | the region cut out is the padded, clamped box read with slice rules; it is inside the image and non-empty, and None exactly when a slice is empty |
| Regions.CropOfBoxInImage | src/attendance.py:74-85 | for a box inside the image, the crop is the padded, clamped box and contains it |
| Matching.ArgMin | src/attendance.py:127 | `np.argmin`: an index of a smallest distance, and the first such index |
| Matching.ArgMinUnique | src/attendance.py:127 | these two properties determine the index |
| Matching.Decide | src/attendance.py:126-146 | accept iff some distance is below 0.55; near miss iff none is, but one is below 0.65; the index is the arg-min |
| Matching.KnownListsAligned | src/attendance.py:64-66 | position i of the names and the encodings belongs to the i-th roll number |
| Matching.Identify | src/attendance.py:116-146 | present iff some enrolled face is within tolerance; the roll, name and distance then come from the first nearest entry |
| Matching.ExactMatchIdentified | src/attendance.py:126-140 | a face at distance 0, with every other face strictly further, is identified as that student |
| Photo.Examine | src/attendance.py:74-112 | a person is skipped for an empty crop exactly when the slice is empty, skipped as raised exactly when a face call raised, skipped exactly when no encoding came back; otherwise the padded, clamped box is drawn and the first encoding is identified |
| Photo.Sightings | src/attendance.py:71-159 | one sighting per detected person, in detection order, each examined on its own |
| Photo.PhotoOverlay | src/attendance.py:121-155 | the box drawn for a person is its area, green exactly when the person was matched |
| Photo.Overlays | src/attendance.py:71-159 | at most one drawn box per detected person |
| Photo.OverlaysFromSeen | src/attendance.py:71-159 | every drawn box is the box of some seen person, and every seen person's box is drawn |
| Photo.OverlaysAppend | src/attendance.py:71-159 | the boxes of two runs of persons are those of the first run followed by those of the second, so the drawing keeps detection order |
| Photo.SeenRolls | src/attendance.py:132-140 | a roll number is seen iff some person was matched to it |
| Photo.PresentList | src/attendance.py:139-140 | the present list has no repeats and holds only enrolled roll numbers |
| Photo.Concluded | src/attendance.py:161-222 | the debug image is always written; a report is written iff someone is present and the write succeeds, which is exactly when the call succeeds; the no-match, write-failure and success messages, and the report's name and lines |
| Photo.GroupPhoto | src/attendance.py:16-222 | present is distinct and enrolled; success iff a report is written; a debug image iff the image loaded, YOLO ran and the store is non-empty, otherwise nothing is marked or drawn; the message of each outcome (load error, detector crash, empty roster, no match, write failure, success) |
| Photo.PresentIffMatched | src/attendance.py:132-140 | a roll number is present iff some person box was matched to it; near misses never count |
| Photo.PresentInFirstSeenOrder | src/attendance.py:139-140 | the present list is ordered by first match |
| Photo.SkippedPersonAddsNothing | src/attendance.py:84-110 | a person with an empty crop, a raising face call or no face changes neither the present list nor the drawn boxes |
| Photo.RepeatSightingAddsNothing | src/attendance.py:139-155 | a second match of a present student does not change the list, but its box is still drawn |
| Photo.PhotoReportReconciles | src/attendance.py:186-207 | the report has a row per enrolled student; the time appears as often as the printed Present count and "Absent" as often as the printed Absent count |
| Photo.SightingStep | src/attendance.py:139-155 | one more person extends the seen rolls, the present list and the drawn boxes by its own part only |
| Photo.ExaminePersons | src/attendance.py:71-159 | the person loop yields the deduplicated matches and the boxes of the specification |
| Photo.ProcessGroupPhoto | src/attendance.py:16-222 | `process_group_photo` returns exactly `GroupPhoto`'s outcome |
| Photo.OnePersonSighting | src/attendance.py:74-112 | a 100..200 x 100..300 person in a 640x480 photo gives the crop 80..220 x 80..320 |
| Photo.OneMatchFound | src/attendance.py:126-155 | a face 0.40 from Alice and 0.80 from Bob marks only "101" and draws one green "Alice" box |
| Photo.OneMatchReported | src/attendance.py:116-211 | for that photo the call succeeds; the report rows are Alice at the time and Bob "Absent" |
| Photo.AliceOnlyRows | src/attendance.py:186-202 | the two rows of the two-student report when only "101" is present |
| Photo.NearMissNotReported | src/attendance.py:142-222 | a face 0.60 from Alice marks nobody and draws a red "Unknown" box; the call fails with the no-match message and writes no report, but the debug image is written |
| Report.RowNameOfEnrolled | src/attendance.py:187-192 | an enrolled row prints its own name, except an int key whose text is also a key, which prints that key's name |
| Report.Statuses | src/attendance.py:197-200 | a status per roll number in roster order: the time iff present |
| Report.StatusCounts | src/attendance.py:197-207 | the time appears once per present roster entry, and "Absent" fills the rest |
| Report.RowsFollowRoster | src/attendance.py:186-202 | row i is the i-th roll number, its printed name, and the time exactly when it is present |
| Report.ReportLayout | src/attendance.py:177-207 | the report is five header lines, one row per enrolled student, then the four closing lines |
| Report.HeaderLayout | src/attendance.py:179-183 | title, date line, 45-wide rules around a 51-wide column header |
| Report.ReportTotalsReconcile | src/attendance.py:204-207 | with only enrolled roll numbers present, the time appears in as many rows as the Present count, "Absent" in as many as the Absent count, and Present is at most Total Registered |
| Report.TotalsReadBack | src/attendance.py:204-207 | each total line parses back to the number it was written from |
| Report.DistinctListSize | src/attendance.py:206 | `len(present_roll_nos)` equals the size of its set of elements |
| Live.KeyCode | src/attendance.py:279 | `waitKey(1) & 0xFF`: within 0..255, equal to the key modulo 256 |
| Live.LiveExamine | src/attendance.py:328-359 | every drawn box is the doubled person box; green iff matched, and an unmatched box is blue with no label; every match is enrolled |
| Live.LiveExamineCases | src/attendance.py:328-359 | the box raises iff the encoder raised on a non-empty crop; matched iff the first encoding is identified, with that roll number; the label is the name and confidence unless the name is "Unknown" |
| Live.Scan | src/attendance.py:313-365 | the box loop, for any way of examining one box: one drawn box per box until an examination raises |
| Live.ScanBoxes | src/attendance.py:313-361 | one box per person until a face call raises; every match is enrolled; box i covers person i |
| Live.ScanBoxesExamines | src/attendance.py:313-361 | box i is drawn exactly as examining person i alone draws it; the pass raised iff some person's face call raised, and it stopped at the first one; a roll number is matched iff a drawn box matched it |
| Live.ScanDrawsEachBox | src/attendance.py:313-359 | for any examination, box i of the loop is the box examining person i draws |
| Live.ScanStopsAtRaise | src/attendance.py:313-365 | for any examination, a loop that raised stopped at a person whose examination raised |
| Live.ScanMatchesDrawn | src/attendance.py:346-358 | for any examination, a roll number is matched iff one of the drawn boxes matched it |
| Live.ScanMatchesEnrolled | src/attendance.py:346-354 | every roll number a pass matches is enrolled |
| Live.LivePass | src/attendance.py:310-365 | a raising detector ends the pass before any box; a completed pass draws one box per person |
| Live.LivePassesEnrolled | src/attendance.py:342-355 | every roll number a pass matches is enrolled |
| Live.Step | src/attendance.py:258-365 | one frame: counted and redrawn; 'q' stops; 's' captures; a pass on multiples of five; the cache changes only after a completed pass |
| Live.Run | src/attendance.py:258-365 | the loop never loses frames counted, redraws, passes, captures or session marks |
| Live.Webcam | src/attendance.py:225-426 | the loop runs iff the source opened, and then its final state is `Run` from the initial state over the frames; a session report is written iff the session is non-empty and the write succeeds |
| Live.QuitEndsRun | src/attendance.py:280-282 | frames after the first 'q' are never read; that frame is the last one counted |
| Live.EveryFrameCounted | src/attendance.py:258-264 | without a 'q', every frame is read, counted and redrawn |
| Live.SessionEnrolled | src/attendance.py:250-365 | the session holds only enrolled roll numbers |
| Live.PassCadence | src/attendance.py:283-304 | a frame ran a pass iff it was read, its number is a multiple of 5, and its key was neither 'q' nor 's' |
| Live.CacheFromCompletedPass | src/attendance.py:268-365 | the boxes drawn are the initial ones or those of a completed pass on a due frame |
| Live.CacheStep | src/attendance.py:268-365 | one frame changes the cache only through a pass that completed on it |
| Live.NewPassesIncrease | src/attendance.py:264-304 | recorded pass numbers strictly increase |
| Live.NoSnapshotNoCapture | src/attendance.py:283-301 | frames without 's' run no photo pipeline |
| Live.NineQuietFrames | src/attendance.py:264-365 | nine frames without keys: one pass on frame 5; frames 1-5 show nothing; frames 6-9 show frame 5's boxes if its pass completed |
| Live.QuietFrames | src/attendance.py:264-365 | the state after each prefix of nine quiet frames |
| Live.QuietStep | src/attendance.py:264-365 | a frame with neither 'q' nor 's' counts, redraws, and passes exactly when due |
| Live.QuitCase | src/attendance.py:280-282 | the 'q' iteration of the concrete loop |
| Live.SnapshotCase | src/attendance.py:283-301 | the 's' iteration runs `process_group_photo` on the snapshot and changes nothing else |
| Live.PassCase | src/attendance.py:304-365 | a due frame adds the pass's matches to the session, and its boxes replace the cache unless it raised |
| Live.RunUpto | src/attendance.py:258-365 | the loop over all frames is the loop over a prefix followed by the rest |
| Live.LiveReportReconciles | src/attendance.py:400-419 | the session report has a row per enrolled student; Present and Absent match the rows and add up |
| Live.ScanStep | src/attendance.py:313-361 | one more box extends the pass by that box's outcome |
| Live.ScanRaisedSticks | src/attendance.py:310-365 | once a face call raises, the rest of the boxes are not examined |
| Live.InferencePass | src/attendance.py:304-365 | the pass loop: completed iff no call raised, the boxes of the pass, and the session plus every match |
| Live.ProcessFrame | src/attendance.py:258-365 | one iteration of the loop body computes `Step` |
| Live.ProcessWebcam | src/attendance.py:225-426 | `process_webcam` yields exactly `Webcam`'s outcome |
| Registration.Register | src/registration.py:9-60 | saved iff exactly one face and its encoding succeeded, as the upsert; success iff saved and the reference-image step did not raise; the message for no face, several faces, and a raise in loading, encoding or the reference-image step |
| Registration.RegisteredStudentIsRecognised | src/registration.py:36-43 | after success the roll holds the new record, nothing else changes, and the same face is identified as this student |
| Registration.RejectedPhotoLeavesStore | src/registration.py:17-26 | no face or several faces: failure, nothing saved, and the matching message |
| Registration.ReregistrationOverwrites | src/registration.py:33-43 | registering a roll number again keeps only the second registration |
| Registration.RegisterStudent | src/registration.py:9-60 | `register_student` updates the store exactly as `Register` says, saving once iff the store was saved |
| Deletion.DeleteTarget | src/database.py:30-64 | `str(roll)` when it is a key, else `int(roll)` when it parses and is a key, else none |
| Deletion.NormalRoll | src/database.py:43 | a cell normalises to the text before its first '.' (a prefix without '.', followed by '.' when shorter), and an empty cell to "" |
| Deletion.FilterRows | src/database.py:48-50 | no kept row has the target roll number |
| Deletion.FilterRowsAppend | src/database.py:50 | the filter works row by row and keeps the kept rows in order: filtering a concatenation concatenates the filtered parts |
| Deletion.FilterRowsKeeps | src/database.py:50 | a row is kept iff it is the normalised form of a row of another student |
| Deletion.FilterRowsShrinks | src/database.py:48-50 | rows are dropped iff some row has the target roll number |
| Deletion.FilterRowsIdempotent | src/database.py:43-50 | filtering twice equals filtering once |
| Deletion.BeforeDotWithoutDot | src/database.py:43 | normalising an already normalised roll number changes nothing |
| Deletion.PruneSheet | src/database.py:36-57 | the text-key branch: a missing file or one without the roll is left alone silently; an unreadable file gives a warning; a file with the roll is replaced by the filtered rows with "Removed", or left with the locked or failure note |
| Deletion.QuietPruneSheet | src/database.py:68-84 | the int-key branch removes iff the file was read, held the roll and was written |
| Deletion.PruneBranchesAgree | src/database.py:36-84 | both branches leave the same spreadsheet and agree on whether rows were removed |
| Deletion.DeleteStudent | src/database.py:27-95 | success iff a target exists, saving once and deleting exactly it, otherwise nothing changes and "not found"; a readable, writable sheet holding the roll is pruned, and no other change is made; the success message of each branch |
| Deletion.DeletedStudentIsGone | src/database.py:27-95 | afterwards the roll is gone, every other roll keeps its record, and no written row holds it |
| Deletion.DeleteUndoesRegistration | src/database.py:30-33 | deleting a freshly registered roll number restores the store |
| Deletion.DotRollPrunesPrefixRows | src/database.py:43-50 | deleting key "101.5" drops the rows of "101" |
| Deletion.PruneStoredSheet | src/database.py:36-57 | the text-key spreadsheet step against the file, as `PruneSheet` |
| Deletion.QuietPruneStoredSheet | src/database.py:68-84 | the int-key spreadsheet step against the file, as `QuietPruneSheet` |
| Deletion.DeleteStudentByRoll | src/database.py:27-95 | `delete_student_by_roll` updates the store and the spreadsheet exactly as `DeleteStudent` says |

## Left out

- Image decoding, pixels, colour conversion, drawing, `imshow` and `imwrite` of the debug image: an image is an opaque value with a size, and the boxes drawn are recorded as `Overlay` values.
- The downscale of photos wider than 1920 pixels (src/attendance.py:26-28): floating-point resizing; the model receives the image as it is after that step.
- Float rounding of the confidence percentage: a caption keeps the raw distance the percentage is computed from.
- The float arithmetic of `int(sx / 0.5)`: treated as exact doubling, which it is for the detector's integer coordinates.
- Prints and log lines (MATCH, IGNORED, warnings): console output only.
- `load_db` I/O failures: `load_db` returns `{}` on any error, so the `except` branches at src/attendance.py:52-57 and 237-241 cannot be taken.
- Store.Storage.Save: does not model a raise from `os.makedirs` in `save_db` (src/database.py:19, outside its `try`). Such a raise makes `register_student` report "Registration failed" after saving nothing. It escapes the text-key branch of `delete_student_by_roll`, and the integer-key branch reports "not found" for an enrolled student.
- Store.Storage.Save: always succeeds and stores the new dict. In the source, `open(DB_PATH, 'wb')` (src/database.py:21) empties the file before `pickle.dump` runs, and any error inside the `try` is only printed. A failed write can therefore leave the old database or a truncated file while the caller still reports success. Neither a failed nor a truncated write is modelled.
- Python `int()` details beyond optional sign and ASCII digits (surrounding whitespace, underscores, non-ASCII digits): `Store.KeyInt` returns None for them.
- Keys other than text and integers (booleans, floats), and spreadsheet cells other than text (read as text by `str(x)`).
- The clock: the timestamps and the date line are parameters (`Photo.Env`).
- Per-person exceptions other than a raising `face_locations` or `face_encodings` call (src/attendance.py:157-159): `Raised` stands for those two only. `Vision.Models.distance` is total, so a raising `compare_faces` or `face_distance` (src/attendance.py:117-118, 344-345) is not modelled.
- The camera: frames are a finite sequence (ending the sequence stands for a failed `cap.read()`), and a snapshot file is the `Option<Image>` read back from it.
- A spreadsheet without a 'Roll No' column: folded into the unreadable case, as the code's `except` does.
- The reference image path and file contents written by registration: only whether that step raised; a `cv2.imwrite` that returns False is ignored by the code and so by the model.
- The `cv2.waitKey(10)` after an 's' (src/attendance.py:287) reads and discards one more key; the model gives each frame exactly one key.
- The GUI and `main.py`: they call the four modelled operations and `load_db()` (src/gui.py:374, to fill the known-face lists for display); the GUI's own state and widgets are not modelled.
- Photo.Concluded: a report write that fails is modelled as writing no report file. The report is written line by line after `open(txt_filename, 'w')` (src/attendance.py:177), so an error after the `open` leaves an empty or partial report file on disk; the model does not capture that file.
- Live.Webcam: likewise, a failed session-report write is modelled as no report file, although an error after `open(txt_filename, 'w')` (src/attendance.py:391) leaves an empty or partial file.
- The loop locals of `process_webcam` are one `LiveState` record, and only the boxes redrawn on each frame are recorded, not the on-screen text.
