/** Values shared by every part of the model. */
module Types {

  /** A JavaScript value that may be `null` or `undefined`. */
  datatype Option<T> = None | Some(value: T)

  /**
   * What an external call (the chat session, `fetch`, the local engine)
   * delivers: the reply text, or a rejection carrying `error.message`.
   */
  datatype Reply = Ok(text: string) | Err(message: string)

  /** A file picked in the browser; only its name and media type are used. */
  datatype FileRef = FileRef(name: string, mimeType: string)
}
