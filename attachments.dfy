/**
 * Which message parts the fetcher keeps: `is_pdf_attachment`, and the checks at the head of
 * `save_pdf_attachment` that drop a part without a name, without content, or of a size
 * outside the configured window.
 */
module Attachments {
  import opened Wrappers
  import opened Text
  import opened Config

  type Byte = bv8

  /**
   * A MIME part as the fetcher sees it: its `Content-Disposition` header (the empty string
   * when the header is missing), its content type, its file name and its decoded payload.
   */
  datatype Part = Part(
    disposition: string,
    contentType: string,
    filename: Option<string>,
    payload: Option<seq<Byte>>)

  /** The part carries a file name whose lower-cased form ends in `.pdf`. */
  predicate HasPdfName(filename: Option<string>)
  {
    filename.Some? && EndsWith(Lower(filename.value), ".pdf")
  }

  /**
   * `is_pdf_attachment`: the disposition mentions `attachment` (case matters there) and
   * either the content type is exactly `application/pdf` or the name ends in `.pdf` in any
   * case.
   */
  function IsPdfAttachment(part: Part): (ok: bool)
    ensures ok ==> Contains(part.disposition, "attachment")
    ensures ok ==> part.contentType == "application/pdf" || HasPdfName(part.filename)
    ensures Contains(part.disposition, "attachment") && part.contentType == "application/pdf" ==> ok
    ensures Contains(part.disposition, "attachment") && HasPdfName(part.filename) ==> ok
  {
    var isAttachment := Contains(part.disposition, "attachment");
    var isPdf := part.contentType == "application/pdf" || HasPdfName(part.filename);
    isAttachment && isPdf
  }

  /**
   * An attachment whose name ends in `.pdf` written in any mix of cases is accepted, whatever
   * its content type.
   */
  lemma PdfNameAnyCase(part: Part, written: string)
    requires Contains(part.disposition, "attachment")
    requires part.filename.Some? && EndsWith(part.filename.value, written)
    requires Lower(written) == ".pdf"
    ensures IsPdfAttachment(part)
  {
    var f := part.filename.value;
    LowerSlice(f, |f| - |written|, |f|);
    assert Lower(f)[|Lower(f)| - 4..] == Lower(f)[|f| - |written|..|f|];
  }

  /** The disposition test is case-sensitive: an upper-case `ATTACHMENT` does not count. */
  lemma UpperCaseDispositionRejected(contentType: string, filename: Option<string>, payload: Option<seq<Byte>>)
    ensures !IsPdfAttachment(Part("ATTACHMENT", contentType, filename, payload))
  {
    var d := "ATTACHMENT";
    assert forall i :: 0 <= i < |d| ==> d[i] != 'a';
    NotContainsFirstChar(d, "attachment");
  }

  /** An inline part is never taken, even when it is a PDF by type and by name. */
  lemma InlinePartRejected(contentType: string, filename: Option<string>, payload: Option<seq<Byte>>)
    ensures !IsPdfAttachment(Part("inline", contentType, filename, payload))
  {
    var d := "inline";
    assert forall i :: 0 <= i < |d| ==> d[i] != 'a';
    NotContainsFirstChar(d, "attachment");
  }

  // ---------------------------------------------------------------------------
  // The size gate

  /** Why `save_pdf_attachment` drops a part before naming it. */
  datatype Rejection = NoFilename | EmptyPayload | TooSmall(size: nat) | TooLarge(size: nat)

  /** Python's truth value of the file name: present and non-empty. */
  predicate Named(part: Part)
  {
    part.filename.Some? && part.filename.value != []
  }

  /** Python's truth value of the payload: present and non-empty. */
  predicate Loaded(part: Part)
  {
    part.payload.Some? && part.payload.value != []
  }

  /**
   * The checks of `save_pdf_attachment`, in its order: a name, then a payload, then the
   * lower and the upper size bound. Success carries the payload size.
   */
  function SizeGate(part: Part, filters: Filters): (r: Result<nat, Rejection>)
    ensures r.Success? <==>
      (Named(part) && Loaded(part) && filters.minFileSize <= |part.payload.value| <= filters.maxFileSize)
    ensures r.Success? ==> r.value == |part.payload.value|
    ensures r == Failure(NoFilename) <==> !Named(part)
    ensures r == Failure(EmptyPayload) <==> Named(part) && !Loaded(part)
  {
    if !Named(part) then Failure(NoFilename)
    else if !Loaded(part) then Failure(EmptyPayload)
    else if |part.payload.value| < filters.minFileSize then Failure(TooSmall(|part.payload.value|))
    else if |part.payload.value| > filters.maxFileSize then Failure(TooLarge(|part.payload.value|))
    else Success(|part.payload.value|)
  }

  /**
   * Under the default filters a named part is kept exactly when its payload holds between
   * 1024 and 10485760 bytes, both ends included.
   */
  lemma DefaultSizeWindow(part: Part)
    requires Named(part) && part.payload.Some?
    ensures SizeGate(part, DefaultFilters).Success? <==> 1024 <= |part.payload.value| <= 10485760
    ensures |part.payload.value| == 1023 ==> SizeGate(part, DefaultFilters) == Failure(TooSmall(1023))
    ensures |part.payload.value| == 10485761 ==>
      SizeGate(part, DefaultFilters) == Failure(TooLarge(10485761))
  {
  }

  /** An empty payload is dropped whatever the lower bound, even one of zero or less. */
  lemma EmptyPayloadAlwaysDropped(part: Part, filters: Filters)
    requires Named(part) && (part.payload.None? || part.payload.value == [])
    ensures SizeGate(part, filters) == Failure(EmptyPayload)
  {
  }
}
