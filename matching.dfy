/** The identity decision of `src/attendance.py`: the distances from one face
    encoding to every enrolled encoding, their first arg-min, and the two
    thresholds that turn it into a match, a logged near miss or nothing. */
module Matching {
  import opened Wrappers
  import opened Seqs
  import opened Store

  /** `tolerance = 0.55`: a best distance strictly below it is a match. */
  const MatchTolerance: real := 0.55

  /** A best distance below 0.65 that is no match is printed as "IGNORED". */
  const NearMissLimit: real := 0.65

  /** `np.argmin(d)`: the first index holding the smallest distance. */
  function ArgMin(d: seq<real>): (k: nat)
    requires |d| > 0
    ensures k < |d|
    ensures forall j :: 0 <= j < |d| ==> d[k] <= d[j]
    ensures forall j :: 0 <= j < k ==> d[k] < d[j]
  {
    if |d| == 1 then 0
    else
      var k := ArgMin(d[..|d| - 1]);
      if d[|d| - 1] < d[k] then |d| - 1 else k
  }

  /** The two properties of ArgMin pin the index down: no other index has them. */
  lemma ArgMinUnique(d: seq<real>, k: nat)
    requires k < |d|
    requires forall j :: 0 <= j < |d| ==> d[k] <= d[j]
    requires forall j :: 0 <= j < k ==> d[k] < d[j]
    ensures ArgMin(d) == k
  {
  }

  /** The outcome for one probe, by position in the enrolled lists. */
  datatype Decision = Accept(index: nat) | NearMiss(index: nat) | Reject

  /** The threshold decision: accept the arg-min when its distance is below
      0.55, report a near miss when it is below 0.65, otherwise nothing. */
  function Decide(d: seq<real>): (r: Decision)
    ensures r.Accept? <==> exists j :: 0 <= j < |d| && d[j] < MatchTolerance
    ensures r.NearMiss? <==>
      (forall j :: 0 <= j < |d| ==> d[j] >= MatchTolerance) &&
      (exists j :: 0 <= j < |d| && d[j] < NearMissLimit)
    ensures r.Reject? <==> forall j :: 0 <= j < |d| ==> d[j] >= NearMissLimit
    ensures !r.Reject? ==> |d| > 0 && r.index == ArgMin(d)
  {
    if |d| == 0 then Reject
    else
      var k := ArgMin(d);
      if d[k] < MatchTolerance then Accept(k)
      else if d[k] < NearMissLimit then NearMiss(k)
      else Reject
  }

  /** `[data['name'] for data in db.values()]`. */
  function KnownNames(db: Db): seq<string>
  {
    seq(|db|, i requires 0 <= i < |db| => db[i].rec.name)
  }

  /** `[data['encoding'] for data in db.values()]`. */
  function KnownEncodings(db: Db): seq<Encoding>
  {
    seq(|db|, i requires 0 <= i < |db| => db[i].rec.encoding)
  }

  /** The three lists are built from one dict in one order: position i of
      each describes the record stored under the i-th roll number. */
  lemma KnownListsAligned(db: Db, i: nat)
    requires i < |db|
    ensures Get(db, Keys(db)[i]) == Some(Record(KnownNames(db)[i], KnownEncodings(db)[i]))
  {
    assert db[i].key == Keys(db)[i];
  }

  /** `face_recognition.face_distance(known, probe)`. */
  function Distances(known: seq<Encoding>, probe: Encoding, distance: (Encoding, Encoding) -> real): seq<real>
  {
    seq(|known|, i requires 0 <= i < |known| => distance(known[i], probe))
  }

  /** The distance from the probe to the record stored at position i. */
  function DistanceAt(db: Db, probe: Encoding, distance: (Encoding, Encoding) -> real, i: nat): real
    requires i < |db|
  {
    distance(db[i].rec.encoding, probe)
  }

  /** Who one face is: an enrolled student, a near miss (logged, never counted), or unknown. */
  datatype Identity = Present(roll: Key, name: string, distance: real) | Doubtful(candidate: string, distance: real) | Unknown

  /** The identity decision: roll number and name are read at the arg-min
      position of the dictionary-ordered lists. */
  function Identify(db: Db, probe: Encoding, distance: (Encoding, Encoding) -> real): (r: Identity)
    ensures r.Present? <==> exists i :: 0 <= i < |db| && DistanceAt(db, probe, distance, i) < MatchTolerance
    ensures r.Doubtful? <==>
      (forall i :: 0 <= i < |db| ==> DistanceAt(db, probe, distance, i) >= MatchTolerance) &&
      (exists i :: 0 <= i < |db| && DistanceAt(db, probe, distance, i) < NearMissLimit)
    ensures r.Present? ==>
      && r.roll in Keys(db)
      && var i := IndexOf(Keys(db), r.roll).value;
      && Get(db, r.roll) == Some(db[i].rec)
      && r.name == db[i].rec.name
      && r.distance == DistanceAt(db, probe, distance, i) < MatchTolerance
      && (forall j :: 0 <= j < |db| ==> r.distance <= DistanceAt(db, probe, distance, j))
      && (forall j :: 0 <= j < i ==> r.distance < DistanceAt(db, probe, distance, j))
  {
    var d := Distances(KnownEncodings(db), probe, distance);
    assert forall i :: 0 <= i < |db| ==> d[i] == DistanceAt(db, probe, distance, i);
    match Decide(d)
    case Accept(k) =>
      KnownListsAligned(db, k);
      IndexOfDistinct(Keys(db), k);
      Present(Keys(db)[k], KnownNames(db)[k], d[k])
    case NearMiss(k) => Doubtful(KnownNames(db)[k], d[k])
    case Reject => Unknown
  }

  /** An enrolled face at distance 0, with every other one strictly further,
      is identified as that student. */
  lemma ExactMatchIdentified(db: Db, probe: Encoding, distance: (Encoding, Encoding) -> real, i: nat)
    requires i < |db|
    requires DistanceAt(db, probe, distance, i) == 0.0
    requires forall j :: 0 <= j < |db| && j != i ==> DistanceAt(db, probe, distance, j) > 0.0
    ensures Identify(db, probe, distance) == Present(db[i].key, db[i].rec.name, 0.0)
  {
    var d := Distances(KnownEncodings(db), probe, distance);
    assert forall j :: 0 <= j < |db| ==> d[j] == DistanceAt(db, probe, distance, j);
    ArgMinUnique(d, i);
    assert Keys(db)[i] == db[i].key;
  }
}
