/** The persisted `Document` record (DocScanner/Model/Document.swift): a name,
    a creation time and the ordered JPEG bytes of its pages. */
module Documents {

  type Byte = b: int | 0 <= b < 256

  /** One page as stored: the encoded image bytes (Swift `Data`). */
  type PageData = seq<Byte>

  /** `init(documentName:documentCreation:scannedImages:)` stores its three
      arguments verbatim, which the datatype constructor does. The creation
      `Date` is a timestamp. */
  datatype Document = Document(documentName: string, documentCreation: int, scannedImages: seq<PageData>)
}
