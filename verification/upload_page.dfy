/** The new-post form: the chosen images with their previews (at most ten), removing one, and
    posting, which sends the images, caption and privacy and resets the form on success. */
module UploadPage {
  import Seqs
  import Text

  /** A file chosen in the browser. */
  datatype LocalFile = LocalFile(name: string, mimetype: string, size: nat)

  /** One entry of a `FormData` body. */
  datatype FormField = FileField(key: string, file: LocalFile) | TextField(key: string, value: string)

  const MaxImages := 10

  /** The body `handlePost` builds: one `post_image` entry per image in order, then the caption,
      then the privacy. */
  function PostPayload(images: seq<LocalFile>, caption: string, privacy: string): (r: seq<FormField>)
    ensures |r| == |images| + 2
    ensures forall i :: 0 <= i < |images| ==> r[i] == FileField("post_image", images[i])
    ensures r[|images|] == TextField("caption", caption) && r[|images| + 1] == TextField("privacy", privacy)
  {
    seq(|images|, i requires 0 <= i < |images| => FileField("post_image", images[i]))
    + [TextField("caption", caption), TextField("privacy", privacy)]
  }

  /** How a post attempt ended. */
  datatype PostOutcome = Refused | Posted | Failed

  /** Image `i` of the new lists, with its preview, is image `j` of the old ones with its preview. */
  predicate SamePair(images: seq<LocalFile>, previews: seq<string>, i: int,
                     oldImages: seq<LocalFile>, oldPreviews: seq<string>, j: int) {
    0 <= i < |images| && i < |previews| && 0 <= j < |oldImages| && j < |oldPreviews|
    && images[i] == oldImages[j] && previews[i] == oldPreviews[j]
  }

  /** Where entry `i` of a list comes from once position `removed` is gone. */
  function Source(removed: int, i: nat): nat {
    if 0 <= removed <= i then i + 1 else i
  }

  class UploadForm {
    var caption: string
    var privacy: string
    var images: seq<LocalFile>
    var previews: seq<string>
    /** Every body sent to the server. */
    var sent: seq<seq<FormField>>

    /** Each image has its preview, and there are never more than ten. */
    ghost predicate Valid()
      reads this
    {
      |images| == |previews| && |images| <= MaxImages
    }

    constructor ()
      ensures Valid()
      ensures caption == "" && privacy == "public" && images == [] && previews == [] && sent == []
    {
      caption, privacy, images, previews, sent := "", "public", [], [], [];
    }

    /** `handleImageChange`: a selection that would take the total above ten is refused and both
        lists stay; otherwise the files are appended in order and their preview URLs (`urls`, one
        per file, created by the browser) alongside. */
    method AddImages(files: seq<LocalFile>, urls: seq<string>) returns (accepted: bool)
      requires Valid() && |urls| == |files|
      modifies this`images, this`previews
      ensures Valid()
      ensures accepted <==> |old(images)| + |files| <= MaxImages
      ensures accepted ==> images == old(images) + files && previews == old(previews) + urls
      ensures !accepted ==> images == old(images) && previews == old(previews)
    {
      if |files| + |images| > MaxImages {
        return false;
      }
      images := images + files;
      previews := previews + urls;
      accepted := true;
    }

    /** `handleRemoveImage(index)`: position `index` leaves both lists, the rest keep their order
        and stay paired with their previews. */
    method RemoveImage(index: int)
      requires Valid()
      modifies this`images, this`previews
      ensures Valid()
      ensures images == Seqs.DropIndex(old(images), index)
      ensures previews == Seqs.DropIndex(old(previews), index)
      ensures 0 <= index < |old(images)| ==> |images| == |old(images)| - 1
      ensures forall i :: 0 <= i < |images| ==>
        SamePair(images, previews, i, old(images), old(previews), Source(index, i))
    {
      images := Seqs.DropIndex(images, index);
      previews := Seqs.DropIndex(previews, index);
    }

    method SetCaption(text: string)
      modifies this`caption
      ensures caption == text
    {
      caption := text;
    }

    method SetPrivacy(value: string)
      modifies this`privacy
      ensures privacy == value
    {
      privacy := value;
    }

    /** `handlePost`: without an image or with a blank caption nothing is sent and nothing changes;
        otherwise the payload is sent, and only when the upload (and the feed refresh after it)
        succeeds — `serverAccepts` — does the form go back to its initial state. */
    method Post(serverAccepts: bool) returns (outcome: PostOutcome)
      requires Valid()
      modifies this
      ensures Valid()
      ensures outcome == Refused <==> old(images) == [] || Text.IsBlank(old(caption))
      ensures outcome == Refused ==> sent == old(sent)
      ensures outcome != Refused ==>
        sent == old(sent) + [PostPayload(old(images), old(caption), old(privacy))]
      ensures outcome == Posted <==> outcome != Refused && serverAccepts
      ensures outcome == Posted ==>
        caption == "" && privacy == "public" && images == [] && previews == []
      ensures outcome != Posted ==>
        caption == old(caption) && privacy == old(privacy) && images == old(images)
        && previews == old(previews)
    {
      if |images| == 0 || Text.IsBlank(caption) {
        return Refused;
      }
      sent := sent + [PostPayload(images, caption, privacy)];
      if !serverAccepts {
        return Failed;
      }
      caption, privacy, images, previews := "", "public", [], [];
      outcome := Posted;
    }
  }
}
