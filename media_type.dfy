/** The media-type label sent with the image on the plain page: the file's
    declared type, with `image/jpg` spelled `image/jpeg` and every type the
    captioning service does not accept replaced by `image/jpeg`. */
module MediaType {

  /** The four labels the captioning request may carry. */
  const Accepted: seq<string> := ["image/jpeg", "image/png", "image/gif", "image/webp"]

  /** Total on every string: the first correction maps `image/jpg`, the second
      falls back to `image/jpeg` for anything still not accepted. */
  function Normalize(declared: string): (sent: string)
    ensures sent in Accepted
    ensures declared in Accepted ==> sent == declared
    ensures declared !in Accepted ==> sent == "image/jpeg"
  {
    var fixed := if declared == "image/jpg" then "image/jpeg" else declared;
    if fixed in Accepted then fixed else "image/jpeg"
  }

  /** Normalizing a normalized label changes nothing. */
  lemma NormalizeIdempotent(declared: string)
    ensures Normalize(Normalize(declared)) == Normalize(declared)
  {
  }

  /** The labels left unchanged are exactly the accepted ones. */
  lemma NormalizeFixedPoints(declared: string)
    ensures Normalize(declared) == declared <==> declared in Accepted
  {
  }
}
