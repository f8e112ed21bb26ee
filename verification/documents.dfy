/** The records the pipeline passes between its collaborators. */
module Documents {

  /** A file-system path of an uploaded PDF. */
  type Path = string

  /** A LangChain document: a page produced by the PDF loader, or a chunk
      produced by the text splitter. Only `pageContent` is inspected by the
      pipeline; the rest is metadata carried along. */
  datatype Document = Document(pageContent: string, source: Path, page: int)
}
