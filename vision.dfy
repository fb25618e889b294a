/** The external collaborators of the attendance core, as given functions:
    the YOLO person detector and the `face_recognition` calls. Their insides
    are not modelled; only what the core does with their answers is. */
module Vision {
  import opened Wrappers
  import opened Store
  import opened Regions

  /** An image as the collaborators see it. Its pixels are opaque (`pixels`
      tells images apart); only its size matters to the core. */
  datatype Image = Image(pixels: nat, width: nat, height: nat)

  /** A face box as `face_locations` reports it. */
  datatype FaceLoc = FaceLoc(top: int, right: int, bottom: int, left: int)

  /** The collaborators. A Failure or None answer stands for a call that raised.
      - detect: `yolo_model(img, classes=[0])`, the person boxes in detection order;
      - locate: `face_recognition.face_locations(crop, number_of_times_to_upsample=2)`;
      - encodeAt: `face_recognition.face_encodings(crop, locations)`;
      - encodeAny: `face_recognition.face_encodings(crop)`, with its own face search;
      - distance: one entry of `face_recognition.face_distance`. */
  datatype Models = Models(
    detect: Image -> Result<seq<Box>>,
    locate: (Image, Box) -> Option<seq<FaceLoc>>,
    encodeAt: (Image, Box, seq<FaceLoc>) -> Option<seq<Encoding>>,
    encodeAny: (Image, Box) -> Option<seq<Encoding>>,
    distance: (Encoding, Encoding) -> real)
}
