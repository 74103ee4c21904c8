/** The stored story record shared by the server and the client. */
module Models {
  import opened Wrappers

  /**
   * One generated story. `when` is the creation time, kept as whole epoch
   * seconds; `body` is the text to type (the `story` field of the record).
   */
  datatype Story = Story(sources: seq<string>, body: string, title: Option<string>, when: int)

  const DefaultSource := "https://doc.rust-lang.org/book/"
  const DefaultTitle := "The Rust Programming Language"

  /**
   * `Story::default()`: a fixed source and title, the text bundled with the
   * application and the current time. The bundled file and the clock are not
   * part of this model, so both are parameters.
   */
  function DefaultStory(bundledText: string, now: int): Story
  {
    Story([DefaultSource], bundledText, Some(DefaultTitle), now)
  }
}
