/**
  The image uploader's file check: which files are refused, with which
  message, and which are handed on (once read) to `onImageChange`. Reading
  the file and building its preview URL are left to the browser.
 */
module Uploader {
  import opened Wrappers
  import Catalog
  import Gemini
  import Text

  /** The uploader's own limits, which repeat the shared file configuration. */
  const MaxFileSize: nat := 5 * 1024 * 1024
  const AllowedTypes: seq<string> := ["image/jpeg", "image/png", "image/webp"]

  const FormatError: string := "Invalid file format. Please upload JPG, PNG, or WebP."
  const SizeError: string := "File size exceeds 5MB limit."

  datatype File = File(fileType: string, size: nat)

  /** What one event does: the error left on screen, and whether
      `onImageChange` is called (`Some`) and with which file or `null`. */
  datatype Effect = Effect(error: Option<string>, delivered: Option<Option<File>>)

  predicate Acceptable(f: File) {
    f.fileType in AllowedTypes && f.size <= MaxFileSize
  }

  /** `handleFileChange`: clear the error; with a file, check its type, then
      its size, then read it and deliver it. */
  function HandleFileChange(file: Option<File>): (e: Effect)
    ensures file.None? ==> e == Effect(None, None)
    ensures e.delivered.Some? <==> file.Some? && Acceptable(file.value)
    ensures e.delivered.Some? ==> e.delivered.value == file && e.error.None?
    ensures file.Some? && file.value.fileType !in AllowedTypes ==> e.error == Some(FormatError)
    ensures file.Some? && file.value.fileType in AllowedTypes && file.value.size > MaxFileSize ==>
      e.error == Some(SizeError)
  {
    match file
    case None => Effect(None, None)
    case Some(f) =>
      if f.fileType !in AllowedTypes then Effect(Some(FormatError), None)
      else if f.size > MaxFileSize then Effect(Some(SizeError), None)
      else Effect(None, Some(Some(f)))
  }

  /** `handleRemove`: the image is cleared and so is the error. */
  function HandleRemove(): (e: Effect)
    ensures e.error.None? && e.delivered == Some(None)
  {
    Effect(None, Some(None))
  }

  /** The size limit is inclusive: exactly 5 MiB is accepted, one byte more
      is refused. */
  lemma SizeLimitInclusive(fileType: string)
    requires fileType in AllowedTypes
    ensures HandleFileChange(Some(File(fileType, 5 * 1024 * 1024))) == Effect(None, Some(Some(File(fileType, 5 * 1024 * 1024))))
    ensures HandleFileChange(Some(File(fileType, 5 * 1024 * 1024 + 1))) == Effect(Some(SizeError), None)
  {
  }

  /** A file failing both checks reports the format, since that check runs
      first; a refused file never reaches `onImageChange`. */
  lemma FormatCheckedFirst(f: File)
    requires f.fileType !in AllowedTypes && f.size > MaxFileSize
    ensures HandleFileChange(Some(f)) == Effect(Some(FormatError), None)
  {
  }

  /** The uploader's limits agree with the shared file configuration. */
  lemma LimitsMatchFileConfig()
    ensures MaxFileSize == Catalog.MaxSizeBytes
    ensures AllowedTypes == Catalog.AllowedTypes
  {
  }

  /** The data URL the reader produces for an accepted file splits back into
      the file's type and its payload when sent to the AI service. */
  lemma AcceptedUploadSplits(f: File, payload: string)
    requires Acceptable(f)
    requires payload != [] && forall i :: 0 <= i < |payload| ==> Gemini.IsBase64Char(payload[i])
    ensures Gemini.CleanBase64(Gemini.DataPrefix + f.fileType + Gemini.Marker + payload)
      == Gemini.InlineImage(f.fileType, payload)
  {
    assert Gemini.NoLineTerminator("image/jpeg");
    assert Gemini.NoLineTerminator("image/png");
    assert Gemini.NoLineTerminator("image/webp");
    assert ';' !in payload by {
      forall i | 0 <= i < |payload| ensures payload[i] != ';' {
        assert Gemini.IsBase64Char(payload[i]);
      }
    }
    assert Gemini.NoLineTerminator(payload) by {
      forall i | 0 <= i < |payload| ensures !Text.IsLineTerminator(payload[i]) {
        assert Gemini.IsBase64Char(payload[i]);
      }
    }
    Gemini.CleanDataUrl(f.fileType, payload);
  }
}
