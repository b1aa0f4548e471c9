/** The employee's query form (`EmployeeQueryForm`): the attachment list
    with its type and size check, removal by position, the icon per file
    type, and the submit guard. Toasts are returned as their titles. */
module QueryForm {
  import opened Wrappers
  import opened Seqs
  import Text

  datatype File = File(name: string, fileType: string, size: int)

  datatype FormData = FormData(queryType: string, subject: string, message: string, details: string)

  const EmptyForm := FormData("", "", "", "")

  /** The accepted MIME types: PDF, JPEG (two spellings), PNG, Word and Word OpenXML. */
  const ValidTypes: seq<string> := [
    "application/pdf", "image/jpeg", "image/jpg", "image/png", "application/msword",
    "application/vnd.openxmlformats-officedocument.wordprocessingml.document"]

  /** 5 MB. */
  const MaxSize: int := 5 * 1024 * 1024

  predicate IsValidFile(f: File)
  {
    f.fileType in ValidTypes && f.size <= MaxSize
  }

  /** The toast the validation raises for one file: the type is checked
      before the size, and an accepted file raises none. */
  function Rejection(f: File): (r: Option<string>)
    ensures r.None? <==> IsValidFile(f)
    ensures f.fileType !in ValidTypes ==> r == Some("Invalid file type")
    ensures f.fileType in ValidTypes && f.size > MaxSize ==> r == Some("File too large")
  {
    if f.fileType !in ValidTypes then Some("Invalid file type")
    else if f.size > MaxSize then Some("File too large")
    else None
  }

  /** The toasts of one file selection, in file order. */
  function RejectionToasts(files: seq<File>): seq<string>
  {
    if files == [] then []
    else (match Rejection(files[0]) case Some(t) => [t] case None => []) + RejectionToasts(files[1..])
  }

  /** Each chosen file is either kept or reported by exactly one toast. */
  lemma {:induction false} EveryFileAccounted(files: seq<File>)
    ensures |RejectionToasts(files)| + |Filter(files, IsValidFile)| == |files|
  {
    if files != [] {
      EveryFileAccounted(files[1..]);
    }
  }

  /** `getFileIcon`: "pdf", then "image", then "word" or "document" in the
      type, else the paper clip. */
  function FileIcon(f: File): string
  {
    if Text.Contains(f.fileType, "pdf") then "\U{1F4C4}"
    else if Text.Contains(f.fileType, "image") then "\U{1F5BC}\U{FE0F}"
    else if Text.Contains(f.fileType, "word") || Text.Contains(f.fileType, "document") then "\U{1F4DD}"
    else "\U{1F4CE}"
  }

  /** A string lacking one of the characters of `sub` does not contain `sub`. */
  lemma NotContainsMissingChar(s: string, sub: string, k: nat)
    requires k < |sub| && sub[k] !in s
    ensures !Text.Contains(s, sub)
  {
  }

  lemma PdfIcon(f: File)
    requires f.fileType == "application/pdf"
    ensures FileIcon(f) == "\U{1F4C4}"
  {
    assert Text.OccursAt(f.fileType, "pdf", 12);
  }

  lemma ImageIcon(f: File)
    requires f.fileType == "image/jpeg" || f.fileType == "image/jpg" || f.fileType == "image/png"
    ensures FileIcon(f) == "\U{1F5BC}\U{FE0F}"
  {
    NotContainsMissingChar(f.fileType, "pdf", 1);
    assert Text.OccursAt(f.fileType, "image", 0);
  }

  lemma WordIcon(f: File)
    requires f.fileType == "application/msword"
    ensures FileIcon(f) == "\U{1F4DD}"
  {
    NotContainsMissingChar(f.fileType, "pdf", 2);
    NotContainsMissingChar(f.fileType, "image", 3);
    assert Text.OccursAt(f.fileType, "word", 14);
  }

  lemma OpenXmlIcon(f: File)
    requires f.fileType == "application/vnd.openxmlformats-officedocument.wordprocessingml.document"
    ensures FileIcon(f) != "\U{1F4CE}"
  {
    var t := f.fileType;
    assert t[46] == 'w' && t[47] == 'o' && t[48] == 'r' && t[49] == 'd';
    assert t[46..50] == "word";
    assert Text.OccursAt(t, "word", 46);
  }

  /** Every accepted type gets an icon other than the paper clip: the
      document for PDF, the picture for the images, the memo for Word. */
  lemma AcceptedIcons(f: File)
    requires IsValidFile(f)
    ensures FileIcon(f) != "\U{1F4CE}"
  {
    var t := f.fileType;
    if t == "application/pdf" {
      PdfIcon(f);
    } else if t == "image/jpeg" || t == "image/jpg" || t == "image/png" {
      ImageIcon(f);
    } else if t == "application/msword" {
      WordIcon(f);
    } else {
      OpenXmlIcon(f);
    }
  }

  class EmployeeQueryForm {
    var formData: FormData
    var files: seq<File>

    constructor ()
      ensures formData == EmptyForm && files == []
    {
      formData, files := EmptyForm, [];
    }

    /** `handleFileChange`: no selection changes nothing; otherwise the
        accepted files are appended in their order and each rejected one
        raises its toast. */
    method HandleFileChange(chosen: Option<seq<File>>) returns (toasts: seq<string>)
      modifies this
      ensures chosen.None? ==> files == old(files) && toasts == []
      ensures chosen.Some? ==> files == old(files) + Filter(chosen.value, IsValidFile)
      ensures chosen.Some? ==> toasts == RejectionToasts(chosen.value)
      ensures formData == old(formData)
    {
      toasts := [];
      if chosen.Some? {
        toasts := RejectionToasts(chosen.value);
        files := files + Filter(chosen.value, IsValidFile);
      }
    }

    /** `removeFile`: drops exactly the file at that position. */
    method RemoveFile(index: int)
      modifies this
      ensures 0 <= index < |old(files)| ==> files == old(files)[..index] + old(files)[index + 1..]
      ensures !(0 <= index < |old(files)|) ==> files == old(files)
      ensures formData == old(formData)
    {
      WithoutIndexSlices(files, index);
      files := WithoutIndex(files, index);
    }

    /** The fields' `onChange` handlers, `setFormData({ ...formData, field: value })`:
        the form becomes the edited one and the attachments are kept. */
    method SetFormData(data: FormData)
      modifies this
      ensures formData == data && files == old(files)
    {
      formData := data;
    }

    /** `handleSubmit`: type, subject and message are required; a complete
        form is acknowledged and the page goes back (nothing is sent). */
    method HandleSubmit() returns (toast: string, goBack: bool)
      ensures formData.queryType == [] || formData.subject == [] || formData.message == [] ==>
        toast == "Please fill in all required fields" && !goBack
      ensures formData.queryType != [] && formData.subject != [] && formData.message != [] ==>
        toast == "Query submitted successfully!" && goBack
    {
      if formData.queryType == [] || formData.subject == [] || formData.message == [] {
        return "Please fill in all required fields", false;
      }
      return "Query submitted successfully!", true;
    }
  }
}
