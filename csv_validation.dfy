/** `validate_csv_file`: the pre-flight check of an uploaded CSV file, a chain of checks each
    of which may end the validation with an error. */
module CsvValidation {
  import opened Text

  /** The uploaded bytes as decoded text: decoding as UTF-8 keeps a leading byte-order mark;
      when the bytes are not UTF-8 the retry with `utf-8-sig` fails on the same bytes, and
      `reason` is the text of that error. */
  datatype Content = Decoded(text: string) | Undecodable(reason: string)

  /** The dictionary `validate_csv_file` returns. */
  datatype Validation = Valid(headers: seq<string>, rowCount: nat) | Invalid(error: string)

  const NotCsvFile := "File must be a CSV file"
  const TooLarge := "File size too large (maximum 5MB)"
  const NotEnoughData := "File is empty or does not contain enough data"
  const NoNameColumn := "File must contain a name column (Name or Product Name)"
  const ValidationFailed := "Error validating file: "

  /** The largest accepted upload, in bytes. */
  const MaxUploadBytes := 5 * 1024 * 1024

  /** The header names accepted as the name column. */
  const NameHeaders: seq<string> := ["name", "Name", "Product Name", "product_name"]

  /** Strips every piece. */
  function StripAll(pieces: seq<string>): (r: seq<string>)
    ensures |r| == |pieces|
    ensures forall i :: 0 <= i < |pieces| ==> r[i] == Strip(pieces[i])
  {
    seq(|pieces|, i requires 0 <= i < |pieces| => Strip(pieces[i]))
  }

  /** The header cells as the validator sees them: the text up to the first line feed, split at
      every comma, each piece stripped. Quotes are not interpreted. */
  function HeaderCells(text: string): (r: seq<string>)
    ensures r != []
    ensures forall h <- r :: ',' !in h && Strip(h) == h
  {
    var pieces := Split(Split(text, '\n')[0], ',');
    StripAllPlain(pieces);
    StripAll(pieces)
  }

  /** Stripped pieces of a comma split have no comma and nothing left to strip. */
  lemma StripAllPlain(pieces: seq<string>)
    requires forall p <- pieces :: ',' !in p
    ensures forall h <- StripAll(pieces) :: ',' !in h && Strip(h) == h
  {
    var r := StripAll(pieces);
    forall i | 0 <= i < |r|
      ensures ',' !in r[i] && Strip(r[i]) == r[i]
    {
      StripIdempotent(pieces[i]);
      StripInfix(pieces[i]);
    }
  }

  predicate HasNameColumn(headers: seq<string>) {
    exists h <- NameHeaders :: h in headers
  }

  /** `validate_csv_file` on an upload named `name` of `size` bytes: the extension, then the
      size, then decoding, then at least one line feed, then a name column; on success, the
      header cells and the number of lines after the first. */
  function ValidateCsvFile(name: string, size: nat, content: Content): (r: Validation)
    ensures r.Valid? <==>
      && EndsWith(name, ".csv") && size <= MaxUploadBytes && content.Decoded?
      && Count(content.text, '\n') >= 1 && HasNameColumn(HeaderCells(content.text))
    ensures !EndsWith(name, ".csv") ==> r == Invalid(NotCsvFile)
    ensures EndsWith(name, ".csv") && size > MaxUploadBytes ==> r == Invalid(TooLarge)
    ensures EndsWith(name, ".csv") && size <= MaxUploadBytes && content.Undecodable? ==>
      r == Invalid(ValidationFailed + content.reason)
    ensures EndsWith(name, ".csv") && size <= MaxUploadBytes && content.Decoded? && Count(content.text, '\n') == 0 ==>
      r == Invalid(NotEnoughData)
    ensures EndsWith(name, ".csv") && size <= MaxUploadBytes && content.Decoded? && Count(content.text, '\n') >= 1
            && !HasNameColumn(HeaderCells(content.text)) ==>
      r == Invalid(NoNameColumn)
    ensures r.Valid? ==>
      && r.rowCount == Count(content.text, '\n')
      && r.headers == HeaderCells(content.text)
      && (exists h <- r.headers :: h in NameHeaders)
  {
    if !EndsWith(name, ".csv") then Invalid(NotCsvFile)
    else if size > MaxUploadBytes then Invalid(TooLarge)
    else match content
      case Undecodable(reason) => Invalid(ValidationFailed + reason)
      case Decoded(text) =>
        var lines := Split(text, '\n');
        if |lines| < 2 then Invalid(NotEnoughData)
        else
          var headers := HeaderCells(text);
          if !HasNameColumn(headers) then Invalid(NoNameColumn)
          else Valid(headers, |lines| - 1)
  }

  /** The size limit is inclusive: an upload of exactly five mebibytes passes the size check
      (it is judged on its content) and one more byte does not. */
  lemma SizeLimitInclusive(name: string, content: Content)
    requires EndsWith(name, ".csv")
    ensures ValidateCsvFile(name, MaxUploadBytes + 1, content) == Invalid(TooLarge)
    ensures ValidateCsvFile(name, MaxUploadBytes, content) == ValidateCsvFile(name, 0, content)
  {
  }
}
