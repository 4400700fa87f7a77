/**
 * The content gate of generator/services.py: HTMLFilter collects the text chunks an
 * HTML parser hands it, and validate_markdown rejects output whose plain text, once
 * stripped, is shorter than fifty characters. Rendering Markdown to HTML and parsing
 * that HTML belong to outside libraries; the model takes their combined effect as a
 * function from the content to the chunks of text data the parser reports, in order.
 */
module Markdown {
  import opened Wrappers
  import opened Text
  import opened Exceptions

  const MIN_PLAIN_TEXT := 50
  const TOO_SHORT := "Generated content is too short or invalid"
  const VALIDATION_PREFIX := "Markdown validation failed: "

  /** The parser callback target: keeps every data chunk, in the order received. */
  class HtmlFilter {
    var text: seq<string>

    constructor ()
      ensures text == []
    {
      text := [];
    }

    /** handle_data: the received text grows by exactly d. */
    method HandleData(d: string)
      modifies this
      ensures text == old(text) + [d]
      ensures Join(text, "") == Join(old(text), "") + d
    {
      ConcatSnoc(text, d);
      text := text + [d];
    }

    /** get_data: ''.join of the chunks. */
    method GetData() returns (data: string)
      ensures data == Join(text, "")
    {
      data := Join(text, "");
    }
  }

  /** The decision validate_markdown takes once it has the plain text of the
      content: accept the content itself, or raise the wrapped ValidationError. */
  function CheckPlainText(content: string, plain: string): (r: Result<string, Error>)
    ensures r.Success? <==> |Strip(plain, WHITESPACE)| >= MIN_PLAIN_TEXT
    ensures r.Success? ==> r.value == content
    ensures r.Failure? ==> r.error == ValidationError(VALIDATION_PREFIX + TOO_SHORT)
  {
    var clean := Strip(plain, WHITESPACE);
    if |clean| == 0 || |clean| < MIN_PLAIN_TEXT then Failure(ValidationError(VALIDATION_PREFIX + TOO_SHORT))
    else Success(content)
  }

  /** validate_markdown: feeds the parser's text chunks for the content to a fresh
      HtmlFilter, then gates on the stripped result. */
  method ValidateMarkdown(content: string, dataChunks: string -> seq<string>) returns (r: Result<string, Error>)
    ensures r == CheckPlainText(content, Join(dataChunks(content), ""))
  {
    var chunks := dataChunks(content);
    var f := new HtmlFilter();
    var i := 0;
    while i < |chunks|
      invariant 0 <= i <= |chunks|
      invariant f.text == chunks[..i]
    {
      f.HandleData(chunks[i]);
      assert chunks[..i + 1] == chunks[..i] + [chunks[i]];
      i := i + 1;
    }
    assert chunks[..i] == chunks;
    var data := f.GetData();
    r := CheckPlainText(content, data);
  }

  /** Accepted content has at least fifty characters of plain text. */
  lemma AcceptedHasPlainText(content: string, plain: string)
    requires CheckPlainText(content, plain).Success?
    ensures |plain| >= MIN_PLAIN_TEXT
  {
  }

  /** Plain text that is empty or all whitespace is always rejected. */
  lemma BlankRejected(content: string, plain: string)
    requires AllIn(plain, WHITESPACE)
    ensures CheckPlainText(content, plain) == Failure(ValidationError(VALIDATION_PREFIX + TOO_SHORT))
  {
    StripEnds(plain, WHITESPACE);
  }

  /** Whitespace around the plain text never changes the verdict. */
  lemma VerdictIgnoresPadding(content: string, a: string, plain: string, b: string)
    requires AllIn(a, WHITESPACE) && AllIn(b, WHITESPACE)
    ensures CheckPlainText(content, a + plain + b) == CheckPlainText(content, plain)
  {
    StripPadded(a, plain, b, WHITESPACE);
  }
}
