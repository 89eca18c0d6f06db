/** The plain page (`script.js`): three page-wide variables, the current image
    (a data URL or null), the current caption and the declared media type of
    the last accepted file, changed by the page's event handlers. Reading the
    file and calling the captioning service are asynchronous; each handler is
    modelled as running to completion, with the data URL the reader produced
    and the outcome of the request as parameters. */
module ScriptPage {
  import opened Text
  import opened Captioning
  import opened MediaType
  import opened WordWrap
  import opened Compositor

  class Session {
    var image: Option<string>
    var caption: string
    var mediaType: string

    /** The page as loaded: no image, no caption, JPEG assumed. */
    constructor ()
      ensures image == None && caption == "" && mediaType == "image/jpeg"
    {
      image := None;
      caption := "";
      mediaType := "image/jpeg";
    }

    /** `handleFile`: a file whose type does not start with `image/` is
        refused and nothing changes; otherwise its type is kept, its data URL
        becomes the image and a caption is requested for it. */
    method HandleFile(fileType: string, dataUrl: string, outcome: Outcome)
      returns (request: Option<Request>)
      modifies this
      ensures !StartsWith(fileType, "image/") ==>
        request == None && image == old(image) && caption == old(caption) && mediaType == old(mediaType)
      ensures StartsWith(fileType, "image/") ==>
        mediaType == fileType && image == Some(dataUrl) && caption == CaptionAfter(outcome) &&
        request == Some(Request(Payload(dataUrl), Normalize(fileType)))
    {
      if !StartsWith(fileType, "image/") {
        request := None;
        return;
      }
      mediaType := fileType;
      image := Some(dataUrl);
      var sent := GenerateCaption(dataUrl, outcome);
      request := Some(sent);
    }

    /** `generateCaption`: sends the payload of `imageData` with the normalized
        media type, then keeps the trimmed reply, or the placeholder on
        failure. Only the caption changes. */
    method GenerateCaption(imageData: string, outcome: Outcome) returns (request: Request)
      modifies this`caption
      ensures request == Request(Payload(imageData), Normalize(mediaType))
      ensures request.mediaType in Accepted
      ensures outcome.Replied? ==> caption == Trim(outcome.text)
      ensures outcome.Failed? ==> caption == ErrorCaption
    {
      var base64Data := Payload(imageData);
      request := Request(base64Data, Normalize(mediaType));
      match outcome {
        case Replied(text) => caption := Trim(text);
        case Failed => caption := ErrorCaption;
      }
    }

    /** The regenerate button: a new request for the current image when one is
        loaded, and nothing at all otherwise. */
    method Regenerate(outcome: Outcome) returns (request: Option<Request>)
      modifies this`caption
      ensures !Loaded(image) ==> request == None && caption == old(caption)
      ensures Loaded(image) ==>
        request == Some(Request(Payload(image.value), Normalize(mediaType))) &&
        caption == CaptionAfter(outcome)
    {
      if Loaded(image) {
        var sent := GenerateCaption(image.value, outcome);
        request := Some(sent);
      } else {
        request := None;
      }
    }

    /** The new-image button: forgets the image and the caption; the media
        type of the last file stays. */
    method Reset()
      modifies this`image, this`caption
      ensures image == None && caption == ""
    {
      image := None;
      caption := "";
    }

    /** The download button, for an image that decodes to `width` pixels
        across: the caption wrapped at 90% of the width and drawn upper-cased.
        Without an image nothing loads and nothing is drawn. */
    method Download(width: nat, measure: string -> real) returns (drawing: Option<seq<DrawOp>>)
      ensures !Loaded(image) ==> drawing == None
      ensures Loaded(image) ==> drawing.Some?
      ensures drawing.Some? ==>
        Depicts(drawing.value, Wrap(caption, measure, WrapLimit(width)), width as real / 2.0, FontSize(width), true)
    {
      if !Loaded(image) {
        return None;
      }
      var ops := RenderCaption(caption, width, measure, true);
      drawing := Some(ops);
    }
  }
}
