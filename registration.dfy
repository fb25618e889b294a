/** `register_student`: enrol one student from a photo holding exactly one
    face. The face encoding is stored under the roll number, overwriting any
    earlier record, and the store is saved before the reference image is
    written. */
module Registration {
  import opened Wrappers
  import opened Seqs
  import opened Store
  import opened Matching
  import opened Vision

  const NoFaceMessage: string := "Error: No face detected in the image."
  const ManyFacesMessage: string := "Error: Multiple faces detected. Please provide an image with a single student."

  /** The `(success, message)` pair, with the store as `save_db` wrote it
      (None when the store was not saved). */
  datatype Enrolment = Enrolment(ok: bool, message: string, saved: Option<Db>)

  function FailureMessage(error: string): string
  {
    "Registration failed: " + error
  }

  function SuccessMessage(name: string, roll: Key): string
  {
    "Successfully registered " + name + " (" + KeyText(roll) + ")."
  }

  /** The call, from what its collaborators answer: the faces located in the
      image (Failure when loading the image or the face search raised), the
      encoding of the first of them (Failure when the encoder raised), and the
      error raised by the reference-image step (making its directory or
      converting the image), if any; `cv2.imwrite` returning False is ignored. */
  function Register(db: Db, name: string, roll: Key, faces: Result<seq<FaceLoc>>,
                    encoding: Result<Encoding>, refImageError: Option<string>): (r: Enrolment)
    ensures r.saved.Some? <==> faces.Success? && |faces.value| == 1 && encoding.Success?
    ensures r.saved.Some? ==> r.saved.value == Put(db, roll, Record(name, encoding.value))
    ensures r.ok <==> r.saved.Some? && refImageError.None?
    ensures r.ok ==> r.message == SuccessMessage(name, roll)
    ensures faces.Success? && |faces.value| == 0 ==> r.message == NoFaceMessage
    ensures faces.Success? && |faces.value| > 1 ==> r.message == ManyFacesMessage
    ensures faces.Failure? ==> r.message == FailureMessage(faces.error)
    ensures faces.Success? && |faces.value| == 1 && encoding.Failure? ==> r.message == FailureMessage(encoding.error)
    ensures r.saved.Some? && refImageError.Some? ==> r.message == FailureMessage(refImageError.value)
  {
    match faces
    case Failure(e) => Enrolment(false, FailureMessage(e), None)
    case Success(locs) =>
      if |locs| == 0 then Enrolment(false, NoFaceMessage, None)
      else if |locs| > 1 then Enrolment(false, ManyFacesMessage, None)
      else
        match encoding
        case Failure(e) => Enrolment(false, FailureMessage(e), None)
        case Success(enc) =>
          var saved := Put(db, roll, Record(name, enc));
          match refImageError
          case Some(e) => Enrolment(false, FailureMessage(e), Some(saved))
          case None => Enrolment(true, SuccessMessage(name, roll), Some(saved))
  }

  /** After a successful registration the roll number holds exactly the new
      name and encoding, every other roll number keeps its record, and a face
      identical to the enrolled one (distance 0, every other enrolled face
      strictly further) is identified as this student. */
  lemma RegisteredStudentIsRecognised(db: Db, name: string, roll: Key, faces: Result<seq<FaceLoc>>,
                                      encoding: Result<Encoding>, refImageError: Option<string>,
                                      distance: (Encoding, Encoding) -> real)
    requires Register(db, name, roll, faces, encoding, refImageError).ok
    requires var d := Put(db, roll, Record(name, encoding.value));
      forall j :: 0 <= j < |d| ==>
        if d[j].key == roll then DistanceAt(d, encoding.value, distance, j) == 0.0
        else DistanceAt(d, encoding.value, distance, j) > 0.0
    ensures var d := Register(db, name, roll, faces, encoding, refImageError).saved.value;
      && Get(d, roll) == Some(Record(name, encoding.value))
      && (forall k :: k != roll ==> Get(d, k) == Get(db, k))
      && Identify(d, encoding.value, distance) == Present(roll, name, 0.0)
  {
    var d := Put(db, roll, Record(name, encoding.value));
    var i := IndexOf(Keys(d), roll).value;
    assert d[i].key == Keys(d)[i] == roll;
    assert Get(d, roll) == Some(d[i].rec);
    assert forall j :: 0 <= j < |d| && j != i ==> d[j].key != roll by {
      forall j | 0 <= j < |d| && j != i
        ensures d[j].key != roll
      {
        IndexOfDistinct(Keys(d), j);
      }
    }
    ExactMatchIdentified(d, encoding.value, distance, i);
  }

  /** A photo with no face or with several faces changes nothing and says why. */
  lemma RejectedPhotoLeavesStore(db: Db, name: string, roll: Key, locs: seq<FaceLoc>,
                                 encoding: Result<Encoding>, refImageError: Option<string>)
    requires |locs| != 1
    ensures var r := Register(db, name, roll, Success(locs), encoding, refImageError);
      !r.ok && r.saved == None && (r.message == NoFaceMessage || r.message == ManyFacesMessage)
  {
  }

  /** Registering a roll number twice keeps only the second registration. */
  lemma ReregistrationOverwrites(db: Db, roll: Key, name1: string, enc1: Encoding, name2: string, enc2: Encoding,
                                 loc: FaceLoc, refImageError: Option<string>)
    ensures var first := Register(db, name1, roll, Success([loc]), Success(enc1), refImageError).saved.value;
      Register(first, name2, roll, Success([loc]), Success(enc2), refImageError).saved ==
      Register(db, name2, roll, Success([loc]), Success(enc2), refImageError).saved
  {
    ReputOverwrites(db, roll, Record(name1, enc1), Record(name2, enc2));
  }

  /** `register_student` against the store: the two guards, the upsert and
      `save_db`, then the reference image. */
  method RegisterStudent(store: Storage, name: string, roll: Key, faces: Result<seq<FaceLoc>>,
                         encoding: Result<Encoding>, refImageError: Option<string>) returns (ok: bool, msg: string)
    modifies store
    ensures var r := Register(old(store.db), name, roll, faces, encoding, refImageError);
      && ok == r.ok && msg == r.message
      && store.db == (if r.saved.Some? then r.saved.value else old(store.db))
      && store.saves == old(store.saves) + (if r.saved.Some? then 1 else 0)
    ensures store.sheet == old(store.sheet) && store.sheetWrite == old(store.sheetWrite)
  {
    if faces.Failure? {
      return false, FailureMessage(faces.error);
    }
    var locations := faces.value;
    if |locations| == 0 {
      return false, NoFaceMessage;
    }
    if |locations| > 1 {
      return false, ManyFacesMessage;
    }
    var db := store.db;
    if encoding.Failure? {
      return false, FailureMessage(encoding.error);
    }
    db := Put(db, roll, Record(name, encoding.value));
    store.Save(db);
    if refImageError.Some? {
      return false, FailureMessage(refImageError.value);
    }
    ok, msg := true, SuccessMessage(name, roll);
  }
}
