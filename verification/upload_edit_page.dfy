/** The edit-post form: removing one of the post's current images, where each image is loaded from,
    and the body sent to the update endpoint. */
module UploadEditPage {
  import opened Wrappers
  import Seqs
  import Text
  import Json
  import PostController
  import UploadPage

  /** `removeExistingImage(index)`. */
  function RemoveExisting(existing: seq<string>, index: int): (r: seq<string>)
    ensures 0 <= index < |existing| ==> |r| == |existing| - 1
    ensures 0 <= index < |existing| ==> r == existing[..index] + existing[index + 1..]
    ensures !(0 <= index < |existing|) ==> r == existing
  {
    var r := Seqs.DropIndex(existing, index);
    assert 0 <= index < |existing| ==> r == existing[..index] + existing[index + 1..];
    r
  }

  /** The `src` of a current image: an absolute `http` URL as it is, otherwise the file under the
      server's `/Uploads/` path. */
  function ImageSrc(baseUrl: string, path: string): (r: string)
    ensures Text.StartsWith(path, "http") ==> r == path
    ensures !Text.StartsWith(path, "http") ==> r == baseUrl + "/Uploads/" + path
  {
    if Text.StartsWith(path, "http") then path else baseUrl + "/Uploads/" + path
  }

  /** Every src the page builds for an upload names that upload at its end. */
  lemma ImageSrcEndsWithPath(baseUrl: string, path: string)
    ensures |ImageSrc(baseUrl, path)| >= |path|
    ensures ImageSrc(baseUrl, path)[|ImageSrc(baseUrl, path)| - |path|..] == path
  {
  }

  /** The body `handleSubmit` builds: the caption, the kept images as a JSON array, then one
      `post_image` entry per new file in order. */
  function EditPayload(caption: string, existing: seq<string>, files: seq<UploadPage.LocalFile>)
    : (r: seq<UploadPage.FormField>)
    ensures |r| == |files| + 2
    ensures r[0] == UploadPage.TextField("caption", caption)
    ensures r[1] == UploadPage.TextField("imagePaths", Json.Stringify(existing))
    ensures forall i :: 0 <= i < |files| ==> r[i + 2] == UploadPage.FileField("post_image", files[i])
  {
    [UploadPage.TextField("caption", caption), UploadPage.TextField("imagePaths", Json.Stringify(existing))]
    + seq(|files|, i requires 0 <= i < |files| => UploadPage.FileField("post_image", files[i]))
  }

  /** The `imagePaths` field of a body. */
  function ImagePathsField(payload: seq<UploadPage.FormField>): Option<string> {
    if payload == [] then None
    else if payload[0].TextField? && payload[0].key == "imagePaths" then Some(payload[0].value)
    else ImagePathsField(payload[1..])
  }

  /** The server reads back from the body exactly the images the page kept, whatever their
      characters: the JSON round trip between the edit page and `updatePost` loses nothing. */
  lemma EditPayloadKeepsExisting(caption: string, existing: seq<string>, files: seq<UploadPage.LocalFile>)
    ensures ImagePathsField(EditPayload(caption, existing, files)) == Some(Json.Stringify(existing))
    ensures PostController.ExistingImages(ImagePathsField(EditPayload(caption, existing, files))) == Some(existing)
  {
    var p := EditPayload(caption, existing, files);
    assert p[1..][0] == p[1];
    PostController.ExistingImagesOfStringify(existing);
  }

  /** How `handleSubmit` ends: the body reaches the update endpoint, or nothing is sent. */
  datatype SubmitOutcome = Sent(payload: seq<UploadPage.FormField>) | NotSent

  /** `handleSubmit` as meant: the body goes to the update endpoint, whose `updatePost` reads back
      exactly the kept images. */
  function Submit(caption: string, existing: seq<string>, files: seq<UploadPage.LocalFile>): (r: SubmitOutcome)
    ensures r.Sent? && |r.payload| == |files| + 2
    ensures r.Sent? && PostController.ExistingImages(ImagePathsField(r.payload)) == Some(existing)
  {
    EditPayloadKeepsExisting(caption, existing, files);
    Sent(EditPayload(caption, existing, files))
  }

  /** `handleSubmit` as written: `updatePost` is not an action of the post store, so the call throws
      a TypeError before any request is made; the catch only logs it and the page stays. */
  function SubmitAsWritten(caption: string, existing: seq<string>, files: seq<UploadPage.LocalFile>)
    : SubmitOutcome
  {
    NotSent
  }

  /** As written, no edit ever reaches the server, although the meant submit always sends one. */
  lemma EditNeverSentAsWritten(caption: string, existing: seq<string>, files: seq<UploadPage.LocalFile>)
    ensures SubmitAsWritten(caption, existing, files) == NotSent
    ensures Submit(caption, existing, files).Sent?
  {
  }

  /** Removing an image and submitting: the server keeps every other current image, in order. */
  lemma RemoveThenSubmit(caption: string, existing: seq<string>, index: int, files: seq<UploadPage.LocalFile>)
    requires 0 <= index < |existing|
    ensures var r := Submit(caption, RemoveExisting(existing, index), files);
      r.Sent? && PostController.ExistingImages(ImagePathsField(r.payload)) == Some(existing[..index] + existing[index + 1..])
  {
  }
}
