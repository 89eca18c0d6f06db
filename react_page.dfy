/** The React page (`index.js`): the `image` and `caption` state slots of the
    `MemeGenerator` component, changed through their setters by the
    component's handlers. Each handler is modelled as running to completion,
    with the data URL the file reader produced and the outcome of the caption
    request as parameters. */
module ReactPage {
  import opened Text
  import opened Captioning
  import opened WordWrap
  import opened Compositor

  class MemeGenerator {
    var image: Option<string>
    var caption: string

    /** `useState(null)` and `useState('')`. */
    constructor ()
      ensures image == None && caption == ""
    {
      image := None;
      caption := "";
    }

    /** `handleFile`: a file whose type does not start with `image/` is
        silently ignored; otherwise its data URL becomes the image and a
        caption is requested for it. */
    method HandleFile(fileType: string, dataUrl: string, outcome: Outcome)
      returns (request: Option<Request>)
      modifies this
      ensures !StartsWith(fileType, "image/") ==>
        request == None && image == old(image) && caption == old(caption)
      ensures StartsWith(fileType, "image/") ==>
        image == Some(dataUrl) && caption == CaptionAfter(outcome) &&
        request == Some(Request(Payload(dataUrl), "image/jpeg"))
    {
      if StartsWith(fileType, "image/") {
        image := Some(dataUrl);
        var sent := GenerateCaption(dataUrl, outcome);
        request := Some(sent);
      } else {
        request := None;
      }
    }

    /** `generateCaption`: sends the payload of `imageData`, always labelled
        JPEG, then keeps the trimmed reply, or the placeholder on failure. */
    method GenerateCaption(imageData: string, outcome: Outcome) returns (request: Request)
      modifies this`caption
      ensures request == Request(Payload(imageData), "image/jpeg")
      ensures outcome.Replied? ==> caption == Trim(outcome.text)
      ensures outcome.Failed? ==> caption == ErrorCaption
    {
      request := Request(Payload(imageData), "image/jpeg");
      match outcome {
        case Replied(text) => caption := Trim(text);
        case Failed => caption := ErrorCaption;
      }
    }

    /** `regenerateCaption`: a new request for the current image when one is
        loaded, and nothing at all otherwise. */
    method RegenerateCaption(outcome: Outcome) returns (request: Option<Request>)
      modifies this`caption
      ensures !Loaded(image) ==> request == None && caption == old(caption)
      ensures Loaded(image) ==>
        request == Some(Request(Payload(image.value), "image/jpeg")) &&
        caption == CaptionAfter(outcome)
    {
      if Loaded(image) {
        var sent := GenerateCaption(image.value, outcome);
        request := Some(sent);
      } else {
        request := None;
      }
    }

    /** The "Upload New Image" button: `setImage(null)` and `setCaption('')`. */
    method Reset()
      modifies this
      ensures image == None && caption == ""
    {
      image := None;
      caption := "";
    }

    /** `downloadMeme`, for an image that decodes to `width` pixels across: the
        caption wrapped at 90% of the width and drawn as it is (upper case on
        this page is a style of the on-screen overlay only). Without an image
        nothing loads and nothing is drawn. */
    method DownloadMeme(width: nat, measure: string -> real) returns (drawing: Option<seq<DrawOp>>)
      ensures !Loaded(image) ==> drawing == None
      ensures Loaded(image) ==> drawing.Some?
      ensures drawing.Some? ==>
        Depicts(drawing.value, Wrap(caption, measure, WrapLimit(width)), width as real / 2.0, FontSize(width), false)
    {
      if !Loaded(image) {
        return None;
      }
      var ops := RenderCaption(caption, width, measure, false);
      drawing := Some(ops);
    }
  }
}
